/** The upload handlers of imp/device-update/device_updater.cpp, on the fields
    they change, proved to be the host of UploadProtocol. */
module Updater {
  import opened Bits
  import opened Bytes
  import opened Containers
  import opened Slicer
  import opened Framing
  import opened UploadProtocol
  import Crc

  const UPGRADE_INT_VECTOR_TABLE: byte := 0xE3
  const UPGRADE_CODE_SEGMENT: byte := 0xE6
  const UPGRADE_QUIT: byte := 0xE8
  const UPDATE_CONTROL: byte := 0x81
  const NORMAL_CONTROL: byte := 0x80
  const HID_FRAME: nat := 64
  /** 64 less the smallest frame, command, number and checksum, cut down to a
      multiple of four. */
  const SLICE_LIMIT: nat := 48

  function Command(kind: Kind): byte {
    if kind == VectorSlice then UPGRADE_INT_VECTOR_TABLE else UPGRADE_CODE_SEGMENT
  }

  /** The bytes of an upload segment: command, number, checksum of the data, data. */
  function Content(p: Packet): seq<byte> {
    [Command(p.kind), p.no / 256 % 256, p.no % 256, Crc.Checksum(p.payload) / 256, Crc.Checksum(p.payload) % 256]
    + p.payload
  }

  predicate Sendable(p: Packet) {
    p.no < 0x10000 && |p.payload| <= SLICE_LIMIT
  }

  function FrameOf(p: Packet, address: nat): (f: seq<byte>)
    requires Sendable(p)
    ensures |f| <= HID_FRAME
  {
    Frame(Content(p), Some(address), UPDATE_CONTROL)
  }

  /** What the handlers read from the bytes of a reply after its command byte. */
  function ReadReply(address: nat, kind: Kind, data: seq<byte>): Reply {
    if |data| < SHORT_REPLY then Reply(address, kind, |data|, 0, 0)
    else Reply(address, kind, |data|, data[0], Word(data[1], data[2]))
  }

  class AimyUpdater {
    const context: SliceContext
    const vec: seq<byte>
    const code: seq<byte>
    const updateDeviceAddress: nat
    var quitStatus: QuitStatus
    var sendDataList: seq<seq<byte>>
    var lastUpdateFrame: Option<seq<byte>>
    var timerWorking: bool
    var writing: bool
    var totalPackets: nat
    var progressPackets: nat
    ghost var packet: Option<Packet>

    constructor (context: SliceContext, vec: seq<byte>, code: seq<byte>, address: nat)
      requires context.maxSliceSize == SLICE_LIMIT
      ensures this.context == context && this.vec == vec && this.code == code && updateDeviceAddress == address
      ensures quitStatus == ErrorWithoutRollback && sendDataList == [] && progressPackets == 0
      ensures packet == None && FrameMatches() && !timerWorking && !writing
    {
      this.context := context;
      this.vec := vec;
      this.code := code;
      updateDeviceAddress := address;
      quitStatus := ErrorWithoutRollback;
      sendDataList := [];
      lastUpdateFrame := None;
      timerWorking := false;
      writing := false;
      totalPackets := 0;
      progressPackets := 0;
      packet := None;
    }

    ghost predicate ContextValid()
      reads context`maxSliceSize, context`data, context`vectorMap, context`codeMap, context`pageSize
    {
      context.maxSliceSize == SLICE_LIMIT && context.data.Length == SLICE_LIMIT + 1 && context.Ready(vec, code)
    }

    /** As little as fillUpdateSliceContext needs. */
    ghost predicate ContextUsable()
      reads context`maxSliceSize, context`data, context`vectorMap, context`codeMap
    {
      context.maxSliceSize == SLICE_LIMIT && context.data.Length == SLICE_LIMIT + 1 && context.Usable(vec, code)
    }

    /** The bytes kept for sending are the frame of the current segment. */
    ghost predicate FrameMatches()
      reads this`packet, this`lastUpdateFrame
    {
      match packet
      case None => lastUpdateFrame == None
      case Some(p) => Sendable(p) && lastUpdateFrame == Some(FrameOf(p, updateDeviceAddress))
    }

    ghost predicate Valid()
      reads this`packet, this`lastUpdateFrame, this`totalPackets, context
    {
      && ContextValid() && FrameMatches() && context.seqNo >= -1
      && totalPackets == |context.vectorMap| + |context.codeMap|
    }

    ghost function JobOf(): Job
      reads context`vectorMap, context`codeMap
    {
      Job(Payloads(context.vectorMap, vec), Payloads(context.codeMap, code), updateDeviceAddress)
    }

    ghost function View(): Host
      reads this`progressPackets, this`quitStatus, this`sendDataList, this`packet, this`timerWorking, this`writing
      reads context`kind, context`seqNo
    {
      Host(context.kind, context.seqNo, progressPackets, quitStatus, |sendDataList|, packet, timerWorking, writing)
    }

    /** View, field by field. */
    lemma {:induction false} ViewFields()
      ensures var h := View();
              && h.kind == context.kind && h.seqNo == context.seqNo && h.progress == progressPackets
              && h.quit == quitStatus && h.pendingQuits == |sendDataList| && h.frame == packet
              && h.timer == timerWorking && h.writing == writing
    {
    }

    method UpdateProgress()
      modifies this`progressPackets
      ensures progressPackets == Min(old(progressPackets) + 1, totalPackets)
    {
      progressPackets := progressPackets + 1;
      if progressPackets > totalPackets {
        progressPackets := totalPackets;
      }
    }

    method RequestQuitUpgradeWorkMode()
      modifies this`sendDataList, this`writing
      ensures sendDataList == old(sendDataList) + [QuitFrame(quitStatus)] && writing
    {
      var status: byte := match quitStatus
        case UpgradeSuccess => 0
        case ErrorWithRollback => 0x61
        case ErrorWithoutRollback => 0x62;
      var cache := new byte[128](_ => 0);
      var length := Mux([UPGRADE_QUIT, status], None, NORMAL_CONTROL, cache);
      sendDataList := sendDataList + [cache[..length]];
      writing := true;
    }

    method SendUpdateData(content: seq<byte>)
      requires FrameSize(content, Some(updateDeviceAddress)) <= HID_FRAME
      modifies this`timerWorking, this`lastUpdateFrame, this`writing
      ensures !timerWorking && writing
      ensures lastUpdateFrame == Some(Frame(content, Some(updateDeviceAddress), UPDATE_CONTROL))
    {
      timerWorking := false;
      var cache := new byte[128](_ => 0);
      var length := Mux(content, Some(updateDeviceAddress), UPDATE_CONTROL, cache);
      lastUpdateFrame := Some(cache[..length]);
      writing := true;
    }

    method RequestUploadSegment()
      requires context.dataLen <= SLICE_LIMIT < context.data.Length
      modifies this`timerWorking, this`lastUpdateFrame, this`writing, this`packet
      ensures !timerWorking && writing
      ensures packet == Some(Packet(context.kind, Number(context.seqNo), context.data[..context.dataLen]))
      ensures FrameMatches()
    {
      var no := context.seqNo % 0x10000;
      var data := context.data[..context.dataLen];
      var crc := Crc.Crc16(data);
      var command := Command(context.kind);
      var head: seq<byte> := [command, no / 256 % 256, no % 256, crc / 256, crc % 256];
      SendUpdateData(head + data);
      packet := Some(Packet(context.kind, no, data));
    }
  
    /** Reading the slice the context stands for after seqNo was set, and sending
        it; the common part of the two reply handlers and the segment query. */
    method ReadAndSend() returns (sent: bool)
      requires ContextUsable() && (context.seqNo < -1 ==> context.pageSize > 0)
      modifies this, context, context.data
      ensures ContextUsable() && context.seqNo >= -1 && context.pageSize == old(context.pageSize)
      ensures Grown(old(context.vectorMap), old(context.codeMap), old(context.seqNo))
      ensures sent || old(FrameMatches()) ==> FrameMatches()
      ensures !sent ==> lastUpdateFrame == old(lastUpdateFrame) && timerWorking == old(timerWorking)
      ensures sent <==> Payload(JobOf(), context.kind, context.seqNo) != []
      ensures totalPackets == old(totalPackets) && progressPackets == old(progressPackets)
      ensures View() == SendNext(JobOf(), old(View()), old(context.seqNo))
      ensures Queued(old(sendDataList), sendDataList, quitStatus)
    {
      hide *;
      ViewFields();
      ghost var h := View();
      var ok := FillContext();
      SendNextCases(JobOf(), h, old(context.seqNo));
      if !ok || context.dataLen == 0 {
        quitStatus := ErrorWithRollback;
        RequestQuitUpgradeWorkMode();
        OneQueued(old(sendDataList), ErrorWithRollback);
        ViewFields();
        return false;
      }
      NothingQueued(sendDataList, quitStatus);
      RequestUploadSegment();
      ViewFields();
      sent := true;
    }

    /** Both maps have kept their slices, and below -1 have got those of one more
        cut. */
    ghost predicate Grown(vectorMap: seq<Slice>, codeMap: seq<Slice>, seqNo: int)
      reads context`vectorMap, context`codeMap, context`pageSize
    {
      if seqNo >= -1 then context.vectorMap == vectorMap && context.codeMap == codeMap
      else
        && context.pageSize > 0
        && Appended(vectorMap, context.vectorMap, |vec|, 0, SLICE_LIMIT, context.pageSize)
        && Appended(codeMap, context.codeMap, |code|, |vec|, SLICE_LIMIT, context.pageSize)
    }

    lemma {:induction false} NotGrown(vectorMap: seq<Slice>, codeMap: seq<Slice>, seqNo: int)
      requires Grown(vectorMap, codeMap, seqNo) && seqNo >= -1
      ensures context.vectorMap == vectorMap && context.codeMap == codeMap
    {
    }

    method QuitWith(status: QuitStatus)
      modifies this`quitStatus, this`sendDataList, this`writing
      ensures View() == Quit(old(View()), status)
      ensures sendDataList == old(sendDataList) + [QuitFrame(status)] && quitStatus == status
    {
      quitStatus := status;
      RequestQuitUpgradeWorkMode();
    }

    method OnSendTimeout()
      modifies this`timerWorking, this`writing
      ensures View() == UploadProtocol.OnSendTimeout(old(View()))
    {
      timerWorking := false;
      writing := true;
    }

    /** on_write, when the device file takes what is written, or asks to try again:
        then queued frames are written until it takes them, and the segment stays
        due. Returns what goes out: the queued frames, or the current segment. */
    method OnWrite(again: bool) returns (out: seq<seq<byte>>)
      requires FrameMatches()
      modifies this`sendDataList, this`timerWorking, this`writing
      ensures again && old(sendDataList) == [] && old(lastUpdateFrame).Some? && !old(timerWorking) ==>
                View() == old(View()) && out == []
      ensures !(again && old(sendDataList) == [] && old(lastUpdateFrame).Some? && !old(timerWorking)) ==>
                View() == UploadProtocol.OnWrite(old(View()))
      ensures old(sendDataList) != [] ==> out == old(sendDataList)
      ensures old(sendDataList) == [] && !again ==>
                var w := Written(old(View()));
                if w == [] then out == [] else Sendable(w[0]) && out == [FrameOf(w[0], updateDeviceAddress)]
    {
      out := [];
      if sendDataList != [] {
        out := sendDataList;
        sendDataList := [];
      } else if lastUpdateFrame.Some? && !timerWorking {
        if !again {
          out := [lastUpdateFrame.value];
          timerWorking := true;
        }
      }
      if (timerWorking || lastUpdateFrame.None?) && sendDataList == [] {
        writing := false;
      }
    }

    /** With seqNo -1 a successful reply numbered 65535 takes it to -2: both images
        are cut again, behind the slices that are there. */
    method HandleReplyUploadVectorTable(data: seq<byte>, address: nat)
      requires Valid()
      modifies this, context, context.data
      ensures var r := ReadReply(address, VectorSlice, data);
              if Restarts(old(JobOf()), old(View()), r) then
                && context.vectorMap == old(context.vectorMap) + old(context.vectorMap)
                && context.codeMap == old(context.codeMap) + old(context.codeMap)
                && View() == SendNext(JobOf(), old(View()).(progress := Progressed(old(JobOf()), old(progressPackets))), -2)
              else Valid() && JobOf() == old(JobOf()) && View() == OnReply(JobOf(), old(View()), r)
      ensures Queued(old(sendDataList), sendDataList, quitStatus)
    {
      hide *;
      NothingQueued(sendDataList, quitStatus);
      ReplyConstants();
      ViewFields();
      ghost var job, h, r := JobOf(), View(), ReadReply(address, VectorSlice, data);
      ReplyFields(address, VectorSlice, data);
      ReplyCases(job, h, r);
      RestartCases(job, h, r);
      JobFields();
      if address != updateDeviceAddress {
        return;
      }
      if |data| < SHORT_REPLY || (data[0] == MISSING && |data| < FULL_REPLY) {
        QuitWith(ErrorWithRollback);
        OneQueued(old(sendDataList), ErrorWithRollback);
        return;
      }
      if Word(data[1], data[2]) != context.seqNo % 0x10000 {
        return;
      }
      if data[0] == SUCCESS {
        AcknowledgedNext();
      } else if data[0] == MISSING {
        OnSendTimeout();
      }
    }

    method HandleReplyUploadCodeSegment(data: seq<byte>, address: nat)
      requires Valid()
      modifies this, context, context.data
      ensures Valid() && JobOf() == old(JobOf())
      ensures View() == OnReply(JobOf(), old(View()), ReadReply(address, CodeSlice, data))
      ensures Queued(old(sendDataList), sendDataList, quitStatus)
    {
      hide *;
      NothingQueued(sendDataList, quitStatus);
      ReplyConstants();
      ViewFields();
      ghost var job, h, r := JobOf(), View(), ReadReply(address, CodeSlice, data);
      ReplyFields(address, CodeSlice, data);
      ReplyCases(job, h, r);
      JobFields();
      if address != updateDeviceAddress {
        return;
      }
      if |data| < SHORT_REPLY || (data[0] == MISSING && |data| < FULL_REPLY) {
        QuitWith(ErrorWithRollback);
        OneQueued(old(sendDataList), ErrorWithRollback);
        return;
      }
      if Word(data[1], data[2]) != context.seqNo % 0x10000 {
        return;
      }
      if data[0] == SUCCESS {
        if context.seqNo > 0 {
          AcknowledgedNext();
        } else {
          UpdateProgress();
          ViewFields();
          assert View() == h.(progress := Progressed(job, h.progress));
          QuitWith(UpgradeSuccess);
          OneQueued(old(sendDataList), UpgradeSuccess);
        }
      } else if data[0] == MISSING {
        OnSendTimeout();
      }
    }

    /** The end of handleReplyQuerySegmentInfomation: cut the images, send the
        first slice and reset the counts. Whatever was kept for sending before is
        replaced, unless there is nothing to upload. */
    method StartUpload()
      requires context.maxSliceSize == SLICE_LIMIT && context.data.Length == SLICE_LIMIT + 1
      requires context.seqNo == -2 && context.vectorMap == [] && context.codeMap == [] && context.pageSize > 0
      modifies this, context, context.data
      ensures ContextValid()
      ensures vec + code != [] ==>
                Valid() && View() == Started(JobOf()).(quit := old(quitStatus), pendingQuits := |old(sendDataList)|)
      ensures vec + code == [] ==>
                && quitStatus == ErrorWithRollback && sendDataList == old(sendDataList) + [QuitFrame(ErrorWithRollback)] && writing
                && lastUpdateFrame == old(lastUpdateFrame) && timerWorking == old(timerWorking)
                && totalPackets == old(totalPackets) && progressPackets == old(progressPackets)
    {
      hide *;
      ViewFields();
      NoSlicesUsable();
      ghost var h := View();
      var sent := ReadAndSend();
      CutNow();
      ViewFields();
      SendNextCases(JobOf(), h, -2);
      FirstPayload();
      if !sent {
        QueuedParts(old(sendDataList), sendDataList, quitStatus);
        return;
      }
      totalPackets := |context.codeMap| + |context.vectorMap|;
      progressPackets := 0;
      ViewFields();
      StartedParts(JobOf(), h);
      MakeValid();
    }

    lemma {:induction false} NoSlicesUsable()
      requires context.vectorMap == [] && context.codeMap == []
      requires context.maxSliceSize == SLICE_LIMIT && context.data.Length == SLICE_LIMIT + 1
      ensures ContextUsable()
    {
    }

    lemma {:induction false} CutNow()
      requires ContextUsable() && Grown([], [], -2)
      ensures ContextValid()
    {
      hide Tiles;
      assert context.vectorMap[0..] == context.vectorMap && context.codeMap[0..] == context.codeMap;
    }

    /** There is a first payload exactly when there is anything to upload. */
    lemma {:induction false} FirstPayload()
      requires ContextValid()
      ensures var job := JobOf(); var (kind, seqNo) := Settle(|job.vectors|, |job.codes|, context.kind, -2);
              && (Payload(job, kind, seqNo) != [] <==> vec + code != [])
              && forall k :: Settle(|job.vectors|, |job.codes|, k, -2) == (kind, seqNo)
    {
      var job := JobOf();
      JobIsCut();
      hide CutJob, PageRoom, Tiles;
      if vec + code != [] {
        CutJobUploadable(job, vec, code, context.pageSize);
        PayloadAt(job, 0);
        assert job.All()[0] != [];
      } else {
        NothingCut();
      }
    }

    lemma {:induction false} JobIsCut()
      requires ContextValid()
      ensures CutJob(JobOf(), vec, code, context.pageSize)
    {
      hide Tiles;
    }

    lemma {:induction false} NothingCut()
      requires ContextValid() && vec == [] && code == []
      ensures JobOf().vectors == [] && JobOf().codes == []
    {
      hide PageRoom;
    }

    /** The common part of the two handlers: count the slice and send the next. */
    method AcknowledgedNext()
      requires Valid()
      modifies this, context, context.data
      ensures old(context.seqNo) >= 0 ==> Valid() && JobOf() == old(JobOf())
      ensures old(context.seqNo) == -1 ==>
                && context.vectorMap == old(context.vectorMap) + old(context.vectorMap)
                && context.codeMap == old(context.codeMap) + old(context.codeMap)
      ensures View() == SendNext(JobOf(), old(View()).(progress := Progressed(old(JobOf()), old(progressPackets))),
                                 old(context.seqNo) - 1)
      ensures Queued(old(sendDataList), sendDataList, quitStatus)
    {
      hide *;
      ViewFields();
      JobFields();
      ValidUsable();
      UpdateProgress();
      context.seqNo := context.seqNo - 1;
      ViewFields();
      ghost var counted := old(View()).(progress := progressPackets);
      assert View() == counted.(seqNo := context.seqNo);
      ghost var v, c, n := context.vectorMap, context.codeMap, context.seqNo;
      var sent := ReadAndSend();
      SendNextIgnoresNumber(JobOf(), counted, n);
      if n >= -1 {
        NotGrown(v, c, n);
        StillValid(v, c);
        MakeValid();
      } else {
        CutAgain(v, c, n);
      }
    }

    lemma {:induction false} ValidUsable()
      requires Valid()
      ensures ContextUsable() && context.pageSize > 0
      ensures Tiles(context.vectorMap, |vec|, 0, SLICE_LIMIT, context.pageSize)
      ensures Tiles(context.codeMap, |code|, |vec|, SLICE_LIMIT, context.pageSize)
    {
      context.ReadyUsable(vec, code);
      hide Tiles;
    }

    lemma {:induction false} StillValid(v: seq<Slice>, c: seq<Slice>)
      requires ContextUsable() && context.pageSize > 0 && context.vectorMap == v && context.codeMap == c
      requires Tiles(v, |vec|, 0, SLICE_LIMIT, context.pageSize) && Tiles(c, |code|, |vec|, SLICE_LIMIT, context.pageSize)
      ensures ContextValid()
    {
      hide Tiles;
    }

    lemma {:induction false} CutAgain(v: seq<Slice>, c: seq<Slice>, seqNo: int)
      requires Grown(v, c, seqNo) && seqNo < -1 && context.pageSize > 0
      requires Tiles(v, |vec|, 0, SLICE_LIMIT, context.pageSize) && Tiles(c, |code|, |vec|, SLICE_LIMIT, context.pageSize)
      ensures context.vectorMap == v + v && context.codeMap == c + c
    {
      hide Tiles, Appended;
      CutTwice(v, context.vectorMap, |vec|, 0, SLICE_LIMIT, context.pageSize);
      CutTwice(c, context.codeMap, |code|, |vec|, SLICE_LIMIT, context.pageSize);
    }

    /** Valid, put together. */
    lemma {:induction false} MakeValid()
      requires ContextValid() && FrameMatches() && context.seqNo >= -1
      requires totalPackets == |context.vectorMap| + |context.codeMap|
      ensures Valid()
      ensures JobOf() == Job(Payloads(context.vectorMap, vec), Payloads(context.codeMap, code), updateDeviceAddress)
    {
    }

    lemma {:induction false} JobFields()
      requires Valid()
      ensures ContextValid() && FrameMatches() && context.seqNo >= -1
      ensures totalPackets == |context.vectorMap| + |context.codeMap|
      ensures JobOf().Count() == totalPackets && JobOf().address == updateDeviceAddress
      ensures Progressed(JobOf(), progressPackets) == Min(progressPackets + 1, totalPackets)
      ensures JobOf() == Job(Payloads(context.vectorMap, vec), Payloads(context.codeMap, code), updateDeviceAddress)
    {
    }

    /** fillUpdateSliceContext, in terms of the job. */
    method FillContext() returns (ok: bool)
      requires ContextUsable() && (context.seqNo < -1 ==> context.pageSize > 0)
      modifies context, context.data
      ensures context.data == old(context.data) && context.data.Length == SLICE_LIMIT + 1
      ensures ContextUsable() && context.pageSize == old(context.pageSize)
      ensures Grown(old(context.vectorMap), old(context.codeMap), old(context.seqNo))
      ensures context.seqNo >= -1
      ensures (context.kind, context.seqNo)
              == Settle(|JobOf().vectors|, |JobOf().codes|, old(context.kind), old(context.seqNo))
      ensures var p := Payload(JobOf(), context.kind, context.seqNo);
              context.dataLen == |p| <= SLICE_LIMIT && context.data[..context.dataLen] == p && (!ok ==> p == [])
    {
      hide *;
      UsableParts();
      ok := context.FillUpdateSliceContext(vec, code);
      UsableWhole();
      GrownWhole(old(context.vectorMap), old(context.codeMap), old(context.seqNo));
      PayloadOfSlice(context.vectorMap, context.codeMap, vec, code, updateDeviceAddress, context.kind, context.seqNo);
      JobParts();
      Filled(ok);
      SettledAbove(|context.vectorMap|, |context.codeMap|, old(context.kind), old(context.seqNo));
      context.HoldsAll(SlicePayload(context.vectorMap, context.codeMap, vec, code, context.kind, context.seqNo));
      HeldLength(SlicePayload(context.vectorMap, context.codeMap, vec, code, context.kind, context.seqNo));
    }

    lemma {:induction false} UsableParts()
      requires ContextUsable()
      ensures context.maxSliceSize == SLICE_LIMIT && SLICE_LIMIT == 48 && context.data.Length == SLICE_LIMIT + 1
      ensures context.Usable(vec, code) && RoundUp(SLICE_LIMIT) == SLICE_LIMIT
    {
      hide Within;
    }

    lemma {:induction false} UsableWhole()
      requires context.maxSliceSize == SLICE_LIMIT && context.data.Length == SLICE_LIMIT + 1 && context.Usable(vec, code)
      ensures ContextUsable()
    {
      hide Within;
    }

    lemma {:induction false} GrownWhole(v: seq<Slice>, c: seq<Slice>, seqNo: int)
      requires seqNo >= -1 ==> context.vectorMap == v && context.codeMap == c
      requires seqNo < -1 ==>
                 && context.pageSize > 0
                 && Appended(v, context.vectorMap, |vec|, 0, SLICE_LIMIT, context.pageSize)
                 && Appended(c, context.codeMap, |code|, |vec|, SLICE_LIMIT, context.pageSize)
      ensures Grown(v, c, seqNo)
    {
      hide Appended;
    }

    lemma {:induction false} JobParts()
      ensures var job := JobOf();
              && job == Job(Payloads(context.vectorMap, vec), Payloads(context.codeMap, code), updateDeviceAddress)
              && |job.vectors| == |context.vectorMap| && |job.codes| == |context.codeMap|
    {
    }

    /** When there is no slice to read there is nothing to send. */
    lemma {:induction false} Filled(ok: bool)
      requires ok == (context.Finished() || context.seqNo < |if context.kind == CodeSlice then context.codeMap else context.vectorMap|)
      ensures !ok ==> SlicePayload(context.vectorMap, context.codeMap, vec, code, context.kind, context.seqNo) == []
    {
    }

    lemma {:induction false} HeldLength(p: seq<byte>)
      requires context.Holds(p)
      ensures context.dataLen == |p|
    {
    }
  }

  function QuitCode(status: QuitStatus): byte {
    match status
    case UpgradeSuccess => 0
    case ErrorWithRollback => 0x61
    case ErrorWithoutRollback => 0x62
  }

  /** The frame that asks the device to leave the upgrade mode. */
  function QuitFrame(status: QuitStatus): seq<byte> {
    Frame([UPGRADE_QUIT, QuitCode(status)], None, NORMAL_CONTROL)
  }

  /** Nothing was queued, or the quit frame with this status. */
  predicate Queued(before: seq<seq<byte>>, after: seq<seq<byte>>, status: QuitStatus) {
    after == before || after == before + [QuitFrame(status)]
  }

  lemma {:induction false} NothingQueued(list: seq<seq<byte>>, status: QuitStatus)
    ensures Queued(list, list, status)
  {
  }

  lemma {:induction false} OneQueued(list: seq<seq<byte>>, status: QuitStatus)
    ensures Queued(list, list + [QuitFrame(status)], status)
  {
  }

  lemma {:induction false} QueuedParts(before: seq<seq<byte>>, after: seq<seq<byte>>, status: QuitStatus)
    requires Queued(before, after, status)
    ensures |after| > |before| ==> after == before + [QuitFrame(status)]
  {
  }

  lemma {:induction false} SettledAbove(vectors: nat, codes: nat, kind: Kind, seqNo: int)
    ensures Settle(vectors, codes, kind, seqNo).1 >= -1
  {
  }

  lemma {:induction false} ReplyConstants()
    ensures SHORT_REPLY == 3 && FULL_REPLY == 5 && SUCCESS == 0 && MISSING == 0x54
  {
  }

  lemma {:induction false} ReplyFields(address: nat, kind: Kind, data: seq<byte>)
    ensures var r := ReadReply(address, kind, data);
            && r.address == address && r.kind == kind && r.length == |data|
            && (|data| >= SHORT_REPLY ==> r.status == data[0] && r.no == Word(data[1], data[2]))
  {
  }

  /** OnReply, case by case. */
  lemma {:induction false} ReplyCases(job: Job, h: Host, r: Reply)
    ensures OnReply(job, h, r) ==
            if r.address != job.address then h
            else if r.length < SHORT_REPLY || (r.status == MISSING && r.length < FULL_REPLY) then Quit(h, ErrorWithRollback)
            else if r.no != h.seqNo % 0x10000 then h
            else if r.status == SUCCESS then
              var counted := h.(progress := Progressed(job, h.progress));
              if r.kind == VectorSlice || h.seqNo > 0 then SendNext(job, counted, h.seqNo - 1)
              else Quit(counted, UpgradeSuccess)
            else if r.status == MISSING then OnSendTimeout(h)
            else h
  {
  }

  lemma {:induction false} RestartCases(job: Job, h: Host, r: Reply)
    ensures Restarts(job, h, r) <==>
              && h.seqNo == -1 && r.kind == VectorSlice && r.address == job.address
              && r.length >= SHORT_REPLY && r.status == SUCCESS && r.no == h.seqNo % 0x10000
  {
  }

  /** Started, from what the fields were before. */
  lemma {:induction false} StartedParts(job: Job, h: Host)
    requires var (kind, seqNo) := Settle(|job.vectors|, |job.codes|, VectorSlice, -2); Payload(job, kind, seqNo) != []
    ensures SendNext(job, h, -2).(progress := 0) == Started(job).(quit := h.quit, pendingQuits := h.pendingQuits)
  {
    hide Payload;
  }

  lemma {:induction false} SendNextIgnoresNumber(job: Job, h: Host, seqNo: int)
    ensures SendNext(job, h.(seqNo := seqNo), seqNo) == SendNext(job, h, seqNo)
  {
  }

  /** SendNext with its parts named. */
  lemma {:induction false} SendNextCases(job: Job, h: Host, seqNo: int)
    ensures var (kind, next) := Settle(|job.vectors|, |job.codes|, h.kind, seqNo);
            var p := Payload(job, kind, next);
            var moved := h.(kind := kind, seqNo := next);
            SendNext(job, h, seqNo)
            == if p == [] then moved.(quit := ErrorWithRollback, pendingQuits := h.pendingQuits + 1, writing := true)
               else moved.(frame := Some(Packet(kind, Number(next), p)), timer := false, writing := true)
  {
  }

  /** The job has the payload the context sends. */
  lemma {:induction false} PayloadOfSlice(v: seq<Slice>, c: seq<Slice>, vec: seq<byte>, code: seq<byte>, address: nat,
                       kind: Kind, seqNo: int)
    ensures Payload(Job(Payloads(v, vec), Payloads(c, code), address), kind, seqNo)
         == SlicePayload(v, c, vec, code, kind, seqNo)
  {
    hide Padded;
  }

  // ---------------------------------------------------------------- results

  /** A receiver that uses DeMux finds in the quit frame the command 0xE8 and how
      the upload ended, and nothing else. */
  lemma {:induction false} QuitFrameSays(status: QuitStatus, control: byte, payload: seq<byte>)
    ensures Accepts(QuitFrame(status), control, payload) <==>
              && control == 0x80
              && payload == [0xE8, match status case UpgradeSuccess => 0 case ErrorWithRollback => 0x61 case ErrorWithoutRollback => 0x62]
  {
    var said := [UPGRADE_QUIT, QuitCode(status)];
    var f := QuitFrame(status);
    FrameRoundTrip(said, None, NORMAL_CONTROL, []);
    assert f + [] == f && MaskedControl(NORMAL_CONTROL, false) == 0x80;
    hide Accepts, Frame, MaskedControl;
    if Accepts(f, control, payload) {
      AcceptedUnique(f, control, payload, 0x80, said);
    }
  }

  /** The segment is addressed to the device, whose address stands in the
      destination section, high byte first. */
  lemma {:induction false} SegmentAddressed(p: Packet, address: nat, rest: seq<byte>)
    requires Sendable(p)
    ensures StartsWith(FrameOf(p, address) + rest, 0x85, Content(p), Some([address / 256 % 256, address % 256]), None)
  {
    FrameRoundTrip(Content(p), Some(address), UPDATE_CONTROL, rest);
    assert MaskedControl(UPDATE_CONTROL, true) == 0x85;
    hide StartsWith, Accepts, Frame, MaskedControl, Content;
  }

  /** The quit frame is addressed to no one. */
  lemma {:induction false} QuitAddressed(status: QuitStatus, rest: seq<byte>)
    ensures StartsWith(QuitFrame(status) + rest, 0x80, [0xE8, QuitCode(status)], None, None)
  {
    FrameRoundTrip([UPGRADE_QUIT, QuitCode(status)], None, NORMAL_CONTROL, rest);
    assert MaskedControl(NORMAL_CONTROL, false) == 0x80;
    hide StartsWith, Accepts, Frame, MaskedControl;
  }

  /** In a segment it finds the command of its kind, the number and the checksum,
      each high byte first, and the data. */
  lemma {:induction false} SegmentSays(p: Packet, address: nat, rest: seq<byte>, control: byte, payload: seq<byte>)
    requires Sendable(p)
    ensures Accepts(FrameOf(p, address) + rest, control, payload) <==>
              && control == 0x85
              && payload == [if p.kind == VectorSlice then 0xE3 else 0xE6, p.no / 256 % 256, p.no % 256,
                             Crc.Checksum(p.payload) / 256, Crc.Checksum(p.payload) % 256] + p.payload
  {
    SegmentOnTheWire(p, address, rest, control, payload);
    assert MaskedControl(UPDATE_CONTROL, true) == 0x85;
    hide Accepts, FrameOf, MaskedControl, Crc.Checksum;
  }

  /** The content bytes say which segment they are. */
  lemma {:induction false} ContentInjective(p: Packet, q: Packet)
    requires Sendable(p) && Sendable(q) && Content(p) == Content(q)
    ensures p == q
  {
    hide Crc.Checksum;
    var (a, b) := (Content(p), Content(q));
    assert a[0] == b[0] && a[1] == b[1] && a[2] == b[2];
    assert p.payload == a[5..] == b[5..] == q.payload;
  }

  /** A receiver that reads the link with DeMux finds the content of the segment
      the host sent, and nothing else. */
  lemma {:induction false} SegmentOnTheWire(p: Packet, address: nat, rest: seq<byte>, control: byte, payload: seq<byte>)
    requires Sendable(p)
    ensures Accepts(FrameOf(p, address) + rest, control, payload)
            <==> control == MaskedControl(UPDATE_CONTROL, true) && payload == Content(p)
  {
    FrameRoundTrip(Content(p), Some(address), UPDATE_CONTROL, rest);
    var s := FrameOf(p, address) + rest;
    hide *;
    if Accepts(s, control, payload) {
      AcceptedUnique(s, control, payload, MaskedControl(UPDATE_CONTROL, true), Content(p));
    }
  }

  /** The job two images are cut into. */
  ghost predicate CutJob(job: Job, vec: seq<byte>, code: seq<byte>, page: nat) {
    page > 0 && exists v, c ::
      && Tiles(v, |vec|, 0, SLICE_LIMIT, page) && Tiles(c, |code|, |vec|, SLICE_LIMIT, page)
      && job.vectors == Payloads(v, vec) && job.codes == Payloads(c, code)
  }

  lemma {:induction false} CutJobUploadable(job: Job, vec: seq<byte>, code: seq<byte>, page: nat)
    requires CutJob(job, vec, code, page) && vec + code != []
    ensures Uploadable(job) && (code != [] <==> job.codes != []) && (vec == [] <==> job.vectors == [])
  {
    hide PageRoom, Zeros;
  }

  /** Success is reported only when the device holds the vector image, the code
      image and at most three zero bytes, however the link behaved, if there are no
      vector slices, at most one code slice, or the last vector slice and the
      first code slice are numbered differently. */
  lemma {:induction false} DeviceHoldsImages(job: Job, vec: seq<byte>, code: seq<byte>, page: nat, events: seq<Event>)
    requires CutJob(job, vec, code, page) && vec + code != []
    requires job.vectors == [] || |job.codes| <= 1 || (|job.codes| - 1) % 0x10000 != 0
    requires page % 4 == 0 && |vec| % 4 == 0
    requires Run(job, events).host.quit == UpgradeSuccess
    ensures var log := Run(job, events).device.log;
            && |log| == job.Count()
            && Flatten(log, |log|) == vec + code + Zeros(RoundUp(|code|) - |code|)
  {
    CutJobUploadable(job, vec, code, page);
    UploadSafeIff(job);
    assert Run(job, events).device.log == job.All();
    var v, c :| Tiles(v, |vec|, 0, SLICE_LIMIT, page) && Tiles(c, |code|, |vec|, SLICE_LIMIT, page)
                && job.vectors == Payloads(v, vec) && job.codes == Payloads(c, code);
    UploadedImage(v, c, vec, code, SLICE_LIMIT, page);
    hide Run, Tiles, Flatten, Payloads, Zeros, RoundUp;
  }

  /** The updater object starts the machine on the job of its images. */
  lemma {:induction false} UpdaterJobIsCut(u: AimyUpdater)
    requires u.Valid()
    ensures CutJob(u.JobOf(), u.vec, u.code, u.context.pageSize)
  {
    hide Tiles;
  }
}
