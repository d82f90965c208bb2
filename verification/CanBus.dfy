/** The CAN fragmenter and reassembler of imp/can-utils. */
module CanBus {
  import opened Bits
  import opened Bytes

  const CAN_HEAD_SIZE: nat := 6
  const MAX_CAN_PAYLOAD_SIZE: nat := 256
  const CACHE_CAPACITY: nat := 512

  const CAN_EFF_FLAG: bv32 := 0x80000000
  const CAN_ERR_FLAG: bv32 := 0x20000000
  const CAN_SFF_MASK: bv32 := 0x7ff
  const CAN_EFF_MASK: bv32 := 0x1fffffff

  // ---------------------------------------------------------------- ids

  function PhysicalAddrToCanId(idGroup: bv32, controlId: bv32): bv32 {
    var desAddr := idGroup & 0xffff;
    var desH := desAddr >> 8;
    var desL := desAddr & 0xff;
    var stdId := (desH << 3) | (desL >> 5);
    var extId := ((desL & 0x1f) << 13) | (controlId & 0x1f);
    ((stdId & 0x7ff) << 18) | (extId & 0x3ffff)
  }

  const GROUPS: set<bv32> := {0x0000, 0x0001, 0x3001, 0x3002, 0x3003, 0x3004, 0x2001, 0x2002, 0x2003, 0xffff}

  function CanIdToPhysicalAddr(canId: bv32): bv32 {
    var addrH := (canId >> 21) & 0xff;
    var addrL := (canId >> 13) & 0xff;
    var addr := (addrH << 8) | addrL;
    if addr in GROUPS then addr else 0
  }

  /** The id without the flags of the frame it came in. */
  function PlainId(id: bv32): bv32 {
    if id & CAN_ERR_FLAG != 0 then id & (CAN_EFF_MASK | CAN_ERR_FLAG)
    else if id & CAN_EFF_FLAG != 0 then id & CAN_EFF_MASK
    else id & CAN_SFF_MASK
  }

  /** The key of the cache a received id goes to. */
  function CacheKey(id: bv32): bv32 {
    PhysicalAddrToCanId(CanIdToPhysicalAddr(PlainId(id)), 1)
  }

  /** The fragment number in an id. */
  function Number(id: bv32): bv32 {
    (id >> 5) & 0xff
  }

  /** The ids differ at most in the fragment number. */
  predicate SameButNumber(a: bv32, b: bv32) {
    a & 0xffffe01f == b & 0xffffe01f
  }

  /** Whatever the fragment number, an id sent for a group comes back to it. */
  lemma {:induction false} GroupComesBack(group: bv32, controlId: bv32, id: bv32)
    requires group in GROUPS && SameButNumber(PhysicalAddrToCanId(group, controlId), id)
    ensures CanIdToPhysicalAddr(PlainId(id | CAN_EFF_FLAG)) == group
    ensures CacheKey(id | CAN_EFF_FLAG) == PhysicalAddrToCanId(group, 1)
  {
    GroupSmall(group);
    AddrComesBack(group, controlId, id);
  }

  lemma {:induction false} GroupSmall(group: bv32)
    requires group in GROUPS
    ensures group <= 0xffff
  {
  }

  lemma {:induction false} AddrComesBack(group: bv32, controlId: bv32, id: bv32)
    requires group <= 0xffff && SameButNumber(PhysicalAddrToCanId(group, controlId), id)
    ensures var p := PlainId(id | CAN_EFF_FLAG); (((p >> 21) & 0xff) << 8) | ((p >> 13) & 0xff) == group
  {
  }

  // ---------------------------------------------------------------- packing

  datatype ControlFrame = ControlFrame(data: seq<byte>, ids: seq<bv32>)

  /** A frame that says its own length and whose bytes from the check byte on,
      the check byte included, sum to 0. */
  ghost predicate WellFormed(f: seq<byte>) {
    && CAN_HEAD_SIZE + 2 < |f| < MAX_CAN_PAYLOAD_SIZE
    && f[0] == 0x55 && f[1] == 0xAA && f[3] + CAN_HEAD_SIZE == |f|
    && (f[2] + Sum(f[3..])) % 256 == 0
  }

  ghost predicate Carries(f: seq<byte>, data: seq<byte>, localAddr: nat, remoteAddr: nat) {
    && |f| == |data| + 8 && f[8..] == data
    && Word(f[4], f[5]) == localAddr && Word(f[6], f[7]) == remoteAddr
  }

  method PackCanFrame(data: seq<byte>, localAddr: nat, remoteAddr: nat, remoteCanId: bv32) returns (frame: ControlFrame)
    requires |data| <= 247 && localAddr < 65536 && remoteAddr < 65536 && Number(remoteCanId) == 0
    ensures data == [] ==> frame == ControlFrame([], [])
    ensures data != [] ==> WellFormed(frame.data) && Carries(frame.data, data, localAddr, remoteAddr)
    ensures data != [] ==> |frame.ids| == (|frame.data| + 7) / 8
    ensures forall i :: 0 <= i < |frame.ids| ==> SameButNumber(remoteCanId, frame.ids[i])
    ensures Numbered(frame.ids)
  {
    if |data| == 0 {
      return ControlFrame([], []);
    }
    var dataLen := |data| + 8;
    var d := new byte[dataLen + 1];
    FillFrame(d, data, localAddr, remoteAddr);
    var ids := PackIds(dataLen - 8, remoteCanId);
    frame := ControlFrame(d[..dataLen], ids);
  }

  method FillFrame(d: array<byte>, data: seq<byte>, localAddr: nat, remoteAddr: nat)
    requires 0 < |data| <= 247 && d.Length == |data| + 9 && localAddr < 65536 && remoteAddr < 65536
    modifies d
    ensures WellFormed(d[..|data| + 8]) && Carries(d[..|data| + 8], data, localAddr, remoteAddr)
  {
    d[0], d[1], d[3] := 0x55, 0xAA, |data| + 2;
    d[4], d[5] := localAddr / 256, localAddr % 256;
    d[6], d[7] := remoteAddr / 256, remoteAddr % 256;
    ghost var head := d[..8];
    CopyTo(d, 8, data);
    assert forall i :: 0 <= i < 8 ==> d[i] == d[..8][i] == head[i];
    var n := |data| + 8;
    var sum := SumFrom(d, 3, n);
    hide Sum;
    ghost var before := d[..n];
    d[2] := (0x100 - sum as nat) % 256;
    assert d[..n][3..] == before[3..] && d[..n][8..] == before[8..] == data;
    CheckMatches(d[2], Sum(d[..n][3..]), sum);
  }

  method SumFrom(d: array<byte>, from: nat, n: nat) returns (sum: byte)
    requires from <= n <= d.Length
    ensures sum == Sum(d[..n][from..]) % 256
  {
    sum := 0;
    for i := from to n
      invariant sum == Sum(d[from..i]) % 256
    {
      assert d[from..i + 1][..i - from] == d[from..i];
      sum := (sum + d[i]) % 256;
    }
    assert d[..n][from..] == d[from..n];
  }

  /** The number in each id says how many ids follow. */
  ghost predicate Numbered(ids: seq<bv32>) {
    forall i :: 0 <= i < |ids| ==> Counts(Number(ids[i]), |ids| - 1 - i)
  }

  ghost predicate Counts(index: bv32, n: nat) {
    index as nat == n
  }

  lemma {:induction false} CountNext(index: bv32, n: nat)
    requires Counts(index, n) && n < 31
    ensures Counts(index + 1, n + 1) && index < index + 1 < 256
  {
    assert index as nat < 31;
    assert index < 31 by {
      BelowAsBits(index);
    }
  }

  lemma {:induction false} BelowAsBits(index: bv32)
    requires index as nat < 31
    ensures index < 31
  {
  }

  lemma {:induction false} PushFront(ids: seq<bv32>, id: bv32)
    requires Numbered(ids) && Counts(Number(id), |ids|)
    ensures Numbered([id] + ids)
  {
    hide Number, Counts;
  }

  /** One id for each eight bytes, the last one first. */
  method PackIds(dataLen: nat, remoteCanId: bv32) returns (ids: seq<bv32>)
    requires 0 < dataLen <= 247 && Number(remoteCanId) == 0
    ensures |ids| == (dataLen + 15) / 8 && Numbered(ids)
    ensures forall i :: 0 <= i < |ids| ==> SameButNumber(remoteCanId, ids[i])
  {
    var index: bv32 := 0;
    NumberOf(remoteCanId, index);
    ids := [remoteCanId | (index << 5)];
    assert Numbered(ids) && Counts(index, 0);
    hide *;
    var offset := dataLen;
    while offset > 0
      invariant 0 <= offset <= dataLen && |ids| == 1 + (dataLen - offset) / 8 && (dataLen - offset) % 8 == 0
      invariant Counts(index, |ids| - 1) 
      invariant forall i :: 0 <= i < |ids| ==> SameButNumber(remoteCanId, ids[i])
      invariant Numbered(ids)
    {
      CountNext(index, |ids| - 1);
      index := index + 1;
      NumberOf(remoteCanId, index);
      PushFront(ids, remoteCanId | (index << 5));
      ids := [remoteCanId | (index << 5)] + ids;
      if offset < 8 {
        break;
      }
      offset := offset - 8;
    }
  }

  lemma {:induction false} NumberOf(remoteCanId: bv32, index: bv32)
    requires Number(remoteCanId) == 0 && index < 256
    ensures Number(remoteCanId | (index << 5)) == index && SameButNumber(remoteCanId, remoteCanId | (index << 5))
  {
  }

  // ---------------------------------------------------------------- sending

  datatype CanFrame = CanFrame(canId: bv32, data: seq<byte>)

  /** The pieces of eight bytes, the last one shorter, from offset on. */
  ghost function Chunks(data: seq<byte>, offset: nat): seq<seq<byte>>
    requires offset <= |data|
    decreases |data| - offset
  {
    if offset == |data| then []
    else
      var next := if offset + 8 <= |data| then offset + 8 else |data|;
      [data[offset..next]] + Chunks(data, next)
  }

  function Piece(id: bv32, data: seq<byte>): CanFrame {
    CanFrame(id | CAN_EFF_FLAG, data)
  }

  /** A frame as it goes over the bus: piece i under id i, while there are both. */
  ghost function Fragments(ids: seq<bv32>, chunks: seq<seq<byte>>): seq<CanFrame>
  {
    if ids == [] || chunks == [] then []
    else [Piece(ids[0], chunks[0])] + Fragments(ids[1..], chunks[1..])
  }

  ghost function AllFragments(frames: seq<ControlFrame>): seq<CanFrame> {
    if frames == [] then []
    else AllFragments(frames[..|frames| - 1])
         + Fragments(frames[|frames| - 1].ids, Chunks(frames[|frames| - 1].data, 0))
  }

  lemma {:induction false} FragmentsNext(ids: seq<bv32>, i: nat, data: seq<byte>, offset: nat)
    requires i < |ids| && offset < |data|
    ensures var next := if offset + 8 <= |data| then offset + 8 else |data|;
            Fragments(ids[i..], Chunks(data, offset))
            == [Piece(ids[i], data[offset..next])] + Fragments(ids[i + 1..], Chunks(data, next))
  {
    var next := if offset + 8 <= |data| then offset + 8 else |data|;
    assert Chunks(data, offset)[1..] == Chunks(data, next);
    assert ids[i..][1..] == ids[i + 1..];
  }

  lemma {:induction false} PieceSent(sent: seq<CanFrame>, ids: seq<bv32>, i: nat, data: seq<byte>, offset: nat)
    requires i < |ids| && offset < |data|
    ensures var next := if offset + 8 <= |data| then offset + 8 else |data|;
            sent + Fragments(ids[i..], Chunks(data, offset))
            == (sent + [Piece(ids[i], data[offset..next])]) + Fragments(ids[i + 1..], Chunks(data, next))
  {
    hide *;
    FragmentsNext(ids, i, data, offset);
  }

  lemma {:induction false} NoneLeft(ids: seq<bv32>, data: seq<byte>)
    ensures Fragments(ids, Chunks(data, |data|)) == []
  {
  }

  lemma {:induction false} NoIds(ids: seq<bv32>, chunks: seq<seq<byte>>)
    ensures ids == [] ==> Fragments(ids, chunks) == []
  {
  }

  class CanSender {
    var sendDataList: seq<ControlFrame>

    constructor ()
      ensures sendDataList == []
    {
      sendDataList := [];
    }

    /** The loop over the ids of one frame, when the bus takes every piece. */
    method SendFrame(frame: ControlFrame) returns (sent: seq<CanFrame>)
      ensures sent == Fragments(frame.ids, Chunks(frame.data, 0))
    {
      hide *;
      var offset, i := 0, 0;
      sent := [];
      assert frame.ids[0..] == frame.ids;
      assert [] + Fragments(frame.ids, Chunks(frame.data, 0)) == Fragments(frame.ids, Chunks(frame.data, 0));
      while i < |frame.ids|
        invariant 0 <= i <= |frame.ids| && 0 <= offset <= |frame.data|
        invariant sent + Fragments(frame.ids[i..], Chunks(frame.data, offset)) == Fragments(frame.ids, Chunks(frame.data, 0))
      {
        var sendLen := if offset + 8 <= |frame.data| then 8 else |frame.data| - offset;
        if sendLen == 0 {
          NoneLeft(frame.ids[i..], frame.data);
          break;
        }
        PieceSent(sent, frame.ids, i, frame.data, offset);
        sent := sent + [Piece(frame.ids[i], frame.data[offset..offset + sendLen])];
        offset := offset + sendLen;
        i := i + 1;
      }
      if i == |frame.ids| {
        NoIds(frame.ids[i..], Chunks(frame.data, offset));
      }
      assert sent + [] == sent;
    }

    /** on_write. */
    method OnWrite() returns (sent: seq<CanFrame>)
      modifies this
      ensures sendDataList == [] && sent == AllFragments(old(sendDataList))
    {
      ghost var all := sendDataList;
      ghost var n := 0;
      sent := [];
      while sendDataList != []
        invariant n <= |all| && sendDataList == all[n..] && sent == AllFragments(all[..n])
        decreases |sendDataList|
      {
        assert all[..n + 1][..n] == all[..n];
        var pieces := SendFrame(sendDataList[0]);
        sent := sent + pieces;
        sendDataList := sendDataList[1..];
        n := n + 1;
      }
      assert all[..n] == all;
    }
  }

  // ---------------------------------------------------------------- reassembly

  /** One attempt to take a frame out of what is cached: the frame or nothing, an
      error, and what stays cached. */
  datatype Attempt = Attempt(frame: seq<byte>, error: bool, rest: seq<byte>)

  /** Where the search for a frame start stops. */
  function Find(d: seq<byte>, offset: nat): (r: nat)
    ensures offset <= r
    ensures r + CAN_HEAD_SIZE < |d| ==> d[r] == 0x55
    ensures forall i :: offset <= i < r && i + CAN_HEAD_SIZE < |d| ==> d[i] != 0x55
    ensures r == offset || r + CAN_HEAD_SIZE <= |d|
    decreases |d| - offset
  {
    if offset + CAN_HEAD_SIZE >= |d| || d[offset] == 0x55 then offset else Find(d, offset + 1)
  }

  /** unpackCanFrame. The test of the second byte assigns it; the check byte is
      looked up at the front of the cache. */
  function Unpacked(d: seq<byte>): Attempt {
    if |d| < CAN_HEAD_SIZE then Attempt([], false, d)
    else
      var o := Find(d, 0);
      if o + CAN_HEAD_SIZE >= |d| then Attempt([], true, d[o..])
      else Taken(d[o + 1 := 0xAA], o)
  }

  function Taken(d: seq<byte>, o: nat): Attempt
    requires o + CAN_HEAD_SIZE < |d|
  {
    var n := d[o + 3] + CAN_HEAD_SIZE;
    if o + n > |d| then Attempt([], false, if |d| >= MAX_CAN_PAYLOAD_SIZE then d[o + 2..] else d[o..])
    else if (d[2] + Sum(d[o + 3..o + n])) % 256 == 0 then Attempt(d[o..o + n], false, d[o + n..])
    else Attempt([], true, d[o + 2..])
  }

  /** All frames that can be taken out, and what stays. */
  ghost function Drained(d: seq<byte>): (r: (seq<seq<byte>>, seq<byte>))
    decreases |d|
  {
    var u := Unpacked(d);
    if u.error || u.frame == [] || |u.rest| >= |d| then ([], u.rest)
    else var more := Drained(u.rest); ([u.frame] + more.0, more.1)
  }

  lemma {:induction false} DrainedStep(d: seq<byte>)
    ensures var u := Unpacked(d);
            if u.error || u.frame == [] then Drained(d) == ([], u.rest)
            else |u.rest| < |d| && Drained(d) == ([u.frame] + Drained(u.rest).0, Drained(u.rest).1)
  {
    hide Sum;
  }

  /** What one received piece does to a cache. */
  ghost function Fed(cache: seq<byte>, piece: seq<byte>): (seq<seq<byte>>, seq<byte>) {
    if |cache| + |piece| > CACHE_CAPACITY then ([], cache) else Drained(cache + piece)
  }

  ghost function FedAll(cache: seq<byte>, pieces: seq<seq<byte>>): (seq<seq<byte>>, seq<byte>)
    decreases |pieces|
  {
    if pieces == [] then ([], cache)
    else
      var first := Fed(cache, pieces[0]);
      var more := FedAll(first.1, pieces[1..]);
      (first.0 + more.0, more.1)
  }

  lemma {:induction false} FedAllSplit(cache: seq<byte>, a: seq<seq<byte>>, b: seq<seq<byte>>)
    ensures FedAll(cache, a + b) == (FedAll(cache, a).0 + FedAll(FedAll(cache, a).1, b).0, FedAll(FedAll(cache, a).1, b).1)
    decreases |a|
  {
    hide Fed;
    if a == [] {
      assert a + b == b;
      assert [] + FedAll(cache, b).0 == FedAll(cache, b).0;
    } else {
      assert (a + b)[1..] == a[1..] + b;
      var first := Fed(cache, a[0]);
      FedAllSplit(first.1, a[1..], b);
      var rest := FedAll(first.1, a[1..]);
      assert first.0 + (rest.0 + FedAll(rest.1, b).0) == (first.0 + rest.0) + FedAll(rest.1, b).0;
    }
  }

  /** As long as the frame is not whole, nothing comes out and nothing is lost. */
  lemma {:induction false} Waits(f: seq<byte>, n: nat)
    requires WellFormed(f) && 8 <= n < |f|
    ensures Drained(f[..n]) == ([], f[..n])
  {
    var d := f[..n];
    assert Find(d, 0) == 0;
    assert d[1 := 0xAA] == d;
    hide Sum, Find;
  }

  /** When it is whole, it comes out and leaves nothing. */
  lemma {:induction false} Completes(f: seq<byte>)
    requires WellFormed(f)
    ensures Drained(f) == ([f], [])
  {
    assert Find(f, 0) == 0;
    assert f[1 := 0xAA] == f;
    assert f[3..|f|] == f[3..];
    hide Sum, Find;
    assert Unpacked(f) == Attempt(f, false, []);
    assert Drained([]) == ([], []);
    assert [f] + [] == [f];
  }

  lemma {:induction false} FedFrame(f: seq<byte>, offset: nat)
    requires WellFormed(f) && offset < |f| && (offset == 0 || offset >= 8)
    ensures FedAll(f[..offset], Chunks(f, offset)) == ([f], [])
    decreases |f| - offset
  {
    var next := if offset + 8 <= |f| then offset + 8 else |f|;
    assert f[..offset] + f[offset..next] == f[..next];
    hide Drained;
    if next < |f| {
      Waits(f, next);
      FedFrame(f, next);
      assert [] + [f] == [f];
    } else {
      assert f[..next] == f;
      Completes(f);
      assert Chunks(f, next) == [] && FedAll([], []) == ([], []);
      assert [f] + [] == [f];
    }
  }

  // ---------------------------------------------------------------- bytes that do not belong

  /** A wrong second byte is never noticed. */
  lemma {:induction false} SecondByteIgnored(f: seq<byte>, x: byte)
    requires WellFormed(f)
    ensures Unpacked(f[1 := x]) == Unpacked(f)
  {
    assert f[1 := x][1 := 0xAA] == f && f[1 := 0xAA] == f;
    assert Find(f, 0) == 0 && Find(f[1 := x], 0) == 0;
    hide Taken, Sum, Find;
  }

  lemma {:induction false} FindBehind(q: seq<byte>, d: seq<byte>)
    requires (forall i :: 0 <= i < |q| ==> q[i] != 0x55) && |d| > CAN_HEAD_SIZE && d[0] == 0x55
    ensures Find(q + d, 0) == |q|
  {
    var r := Find(q + d, 0);
    assert (q + d)[|q|] == 0x55;
    assert forall i :: 0 <= i < |q| ==> (q + d)[i] == q[i];
    hide Find;
  }

  /** A whole frame behind bytes without a start byte comes out if and only if the
      byte that stands where a check byte would is the frame's check byte. */
  lemma {:induction false} CheckAtFront(q: seq<byte>, f: seq<byte>)
    requires WellFormed(f) && forall i :: 0 <= i < |q| ==> q[i] != 0x55
    ensures Unpacked(q + f).frame == f <==> (q + f)[2] == f[2]
  {
    var d, o := q + f, |q|;
    FindBehind(q, f);
    hide Find, Sum;
    TakenBehind(q, f);
  }

  lemma {:induction false} TakenBehind(q: seq<byte>, f: seq<byte>)
    requires WellFormed(f)
    ensures (q + f)[|q| + 1 := 0xAA] == q + f && f != []
    ensures Taken(q + f, |q|).frame == if (q + f)[2] == f[2] then f else []
  {
    var d, o := q + f, |q|;
    assert d[o + 3] == f[3] && d[o + 3..] == f[3..] && d[o..] == f && |d| == o + |f|;
    assert d[o + 3..|d|] == d[o + 3..] && d[o..|d|] == d[o..];
    hide Sum;
  }

  /** Directly behind one such byte that is so only for the check byte 0xAA. */
  lemma {:induction false} OneByteBefore(x: byte, f: seq<byte>)
    requires WellFormed(f) && x != 0x55
    ensures Unpacked([x] + f).frame == f <==> f[2] == 0xAA
  {
    CheckAtFront([x], f);
    hide Unpacked, WellFormed;
    assert ([x] + f)[2] == f[1];
    Flags(f);
  }

  lemma {:induction false} Flags(f: seq<byte>)
    requires WellFormed(f)
    ensures 8 < |f| < MAX_CAN_PAYLOAD_SIZE && f[0] == 0x55 && f[1] == 0xAA
  {
  }

  /** But when the frame comes in pieces, the bytes before it are dropped while the
      cache waits for the second piece, so they do no harm. */
  lemma {:induction false} StrayHarmless(q: seq<byte>, f: seq<byte>)
    requires WellFormed(f) && |q| + 8 < MAX_CAN_PAYLOAD_SIZE && forall i :: 0 <= i < |q| ==> q[i] != 0x55
    ensures FedAll(q, Chunks(f, 0)) == ([f], [])
  {
    Flags(f);
    var first := f[..8];
    assert Chunks(f, 0) == [f[0..8]] + Chunks(f, 8) && f[0..8] == first;
    WaitsBehind(q, f);
    FedFrame(f, 8);
    assert ([first] + Chunks(f, 8))[1..] == Chunks(f, 8);
    assert [] + [f] == [f];
    hide Drained, Chunks, Unpacked;
  }

  lemma {:induction false} WaitsBehind(q: seq<byte>, f: seq<byte>)
    requires WellFormed(f) && |q| + 8 < MAX_CAN_PAYLOAD_SIZE && forall i :: 0 <= i < |q| ==> q[i] != 0x55
    ensures Drained(q + f[..8]) == ([], f[..8])
  {
    var d, o := q + f[..8], |q|;
    FindBehind(q, f[..8]);
    assert d[o + 1 := 0xAA] == d && d[o..] == f[..8] && d[o + 3] == f[3];
    hide Find, Sum;
  }

  ghost function Total(parts: seq<seq<byte>>): nat {
    if parts == [] then 0 else |parts[0]| + Total(parts[1..])
  }

  lemma {:induction false} TotalAppend(a: seq<seq<byte>>, b: seq<seq<byte>>)
    ensures Total(a + b) == Total(a) + Total(b)
  {
    if a == [] {
      assert a + b == b;
    } else {
      TotalAppend(a[1..], b);
      assert (a + b)[1..] == a[1..] + b;
    }
  }

  /** No more comes out and stays than was there. */
  lemma {:induction false} DrainedSize(d: seq<byte>)
    ensures Total(Drained(d).0) + |Drained(d).1| <= |d|
    decreases |d|
  {
    var u := Unpacked(d);
    DrainedStep(d);
    UnpackedSize(d);
    hide Unpacked, Drained;
    if !u.error && u.frame != [] {
      DrainedSize(u.rest);
      TotalAppend([u.frame], Drained(u.rest).0);
      assert Total([u.frame]) == |u.frame|;
    } else {
      assert Total([]) == 0;
    }
  }

  lemma {:induction false} UnpackedSize(d: seq<byte>)
    ensures |Unpacked(d).frame| + |Unpacked(d).rest| <= |d|
  {
    hide Sum;
  }

  lemma {:induction false} FedAllSize(cache: seq<byte>, pieces: seq<seq<byte>>)
    ensures Total(FedAll(cache, pieces).0) + |FedAll(cache, pieces).1| <= |cache| + Total(pieces)
    decreases |pieces|
  {
    hide Drained;
    if pieces == [] {
    } else {
      var first := Fed(cache, pieces[0]);
      DrainedSize(cache + pieces[0]);
      FedAllSize(first.1, pieces[1..]);
      TotalAppend(first.0, FedAll(first.1, pieces[1..]).0);
    }
  }

  lemma {:induction false} ChunksTotal(f: seq<byte>, k: nat)
    requires k <= |f|
    ensures Total(Chunks(f, k)) == |f| - k
    decreases |f| - k
  {
    if k < |f| {
      var next := if k + 8 <= |f| then k + 8 else |f|;
      ChunksTotal(f, next);
      assert Chunks(f, k)[1..] == Chunks(f, next);
    }
  }

  /** A stray start byte and the first k bytes of a frame. */
  ghost function Stray(f: seq<byte>, k: nat): seq<byte>
    requires k <= |f|
  {
    if k == 0 then [0x55] else [0x55, 0xAA] + f[1..k]
  }

  lemma {:induction false} StrayNext(f: seq<byte>, k: nat, next: nat)
    requires WellFormed(f) && k < next <= |f| && next >= 8
    ensures var d := Stray(f, k) + f[k..next];
            && |d| == next + 1 == |Stray(f, next)| && CAN_HEAD_SIZE < |d| <= MAX_CAN_PAYLOAD_SIZE
            && Unpacked(d) == Taken(Stray(f, next), 0) && |Stray(f, k)| + 8 <= CACHE_CAPACITY && MAX_CAN_PAYLOAD_SIZE == 256
  {
    var d := Stray(f, k) + f[k..next];
    Flags(f);
    StrayGrows(f, k, next);
    StrayShort(f, k);
    hide Stray, Unpacked, Taken, WellFormed;
    StartAtFront(d);
  }

  lemma {:induction false} StrayShort(f: seq<byte>, k: nat)
    requires k <= |f|
    ensures |Stray(f, k)| <= |f| + 1
  {
  }

  lemma {:induction false} StrayGrows(f: seq<byte>, k: nat, next: nat)
    requires WellFormed(f) && k < next <= |f| && next >= 8
    ensures var d := Stray(f, k) + f[k..next];
            |d| == next + 1 && d[0] == 0x55 && d[1 := 0xAA] == Stray(f, next) && |Stray(f, next)| == next + 1
  {
    if k == 0 {
      StrayFirst(f, next);
    } else {
      StrayLater(f, k, next);
    }
    hide WellFormed;
  }

  lemma {:induction false} StrayFirst(f: seq<byte>, next: nat)
    requires 0 < next <= |f|
    ensures ([0x55] + f[0..next])[1 := 0xAA] == [0x55, 0xAA] + f[1..next]
  {
    var first: seq<byte>, rest := [f[0]], f[1..next];
    assert f[0..next] == first + rest;
    assert ([0x55] + (first + rest))[1 := 0xAA] == [0x55, 0xAA] + rest;
  }

  lemma {:induction false} StrayLater(f: seq<byte>, k: nat, next: nat)
    requires 0 < k <= next <= |f|
    ensures ([0x55, 0xAA] + f[1..k] + f[k..next])[1 := 0xAA] == [0x55, 0xAA] + f[1..next]
  {
    var a, b := f[1..k], f[k..next];
    assert f[1..next] == a + b;
    assert ([0x55, 0xAA] + a + b)[1 := 0xAA] == [0x55, 0xAA] + (a + b);
  }

  lemma {:induction false} StartAtFront(d: seq<byte>)
    requires |d| >= 9 && d[0] == 0x55
    ensures Unpacked(d) == Taken(d[1 := 0xAA], 0) && CAN_HEAD_SIZE < 9
  {
    hide Taken;
  }

  /** A stray start byte in front of a frame loses it. */
  lemma {:induction false} StrayLoses(f: seq<byte>, k: nat)
    requires WellFormed(f) && k < |f| && (k == 0 || k >= 8)
    ensures FedAll(Stray(f, k), Chunks(f, k)) != ([f], [])
    decreases |f| - k
  {
    hide *;
    var next := if k + 8 <= |f| then k + 8 else |f|;
    Flags(f);
    StrayNext(f, k, next);
    var d := Stray(f, k) + f[k..next];
    var u := Unpacked(d);
    TakenSizes(Stray(f, next));
    DrainedStep(d);
    FedPiece(Stray(f, k), f, k, next);
    var first := Drained(d);
    var more := FedAll(first.1, Chunks(f, next));
    if u.error {
      FedAllSize(first.1, Chunks(f, next));
      ChunksTotal(f, next);
      TooShort(more.0, f);
    } else if u.frame == [] {
      LastFed(first.1, f, next);
      assert [] + more.0 == more.0;
      if next < |f| {
        StrayLoses(f, next);
      }
    } else if first.0 + more.0 == [f] {
      assert (first.0 + more.0)[0] == u.frame;
      OneByteStays(u.rest, f, next);
    }
  }

  lemma {:induction false} TakenSizes(d: seq<byte>)
    requires CAN_HEAD_SIZE < |d| <= MAX_CAN_PAYLOAD_SIZE
    ensures var u := Taken(d, 0);
            && (u.error ==> u.frame == [] && |u.rest| == |d| - 2)
            && (u.frame == [] && !u.error && |d| < MAX_CAN_PAYLOAD_SIZE ==> u.rest == d)
            && (u.frame != [] ==> |u.frame| + |u.rest| == |d|)
  {
    hide Sum;
    assert d[0..] == d;
  }

  lemma {:induction false} FedPiece(cache: seq<byte>, f: seq<byte>, k: nat, next: nat)
    requires k < |f| && next == (if k + 8 <= |f| then k + 8 else |f|) && |cache| + 8 <= CACHE_CAPACITY
    ensures var d := cache + f[k..next]; var more := FedAll(Drained(d).1, Chunks(f, next));
            FedAll(cache, Chunks(f, k)) == (Drained(d).0 + more.0, more.1)
  {
    hide Drained;
    assert Chunks(f, k)[1..] == Chunks(f, next) && Chunks(f, k)[0] == f[k..next];
  }

  lemma {:induction false} TooShort(frames: seq<seq<byte>>, f: seq<byte>)
    requires Total(frames) < |f|
    ensures frames != [f]
  {
    assert Total([f]) == |f| + Total([]);
  }

  lemma {:induction false} LastFed(cache: seq<byte>, f: seq<byte>, next: nat)
    requires next <= |f|
    ensures next == |f| ==> FedAll(cache, Chunks(f, next)) == ([], cache)
  {
  }

  /** When the stray byte and all of the frame but one byte come out as a frame,
      that byte stays. */
  lemma {:induction false} OneByteStays(rest: seq<byte>, f: seq<byte>, next: nat)
    requires next <= |f| && |rest| + |f| == next + 1
    ensures FedAll(Drained(rest).1, Chunks(f, next)).1 != []
  {
    if next == |f| {
      assert Drained(rest) == ([], rest);
    } else {
      assert rest == [] && next == |f| - 1;
      assert Drained([]) == ([], []);
      var b := f[next..|f|];
      assert Chunks(f, next) == [b] + Chunks(f, |f|);
      assert [] + b == b && Drained(b) == ([], b);
      assert FedAll([], [b]) == (Drained(b).0 + [], b);
    }
  }

  /** So one stray byte in front of a frame is harmless if and only if it is no
      start byte. */
  lemma {:induction false} StrayByteIff(x: byte, f: seq<byte>)
    requires WellFormed(f)
    ensures FedAll([x], Chunks(f, 0)) == ([f], []) <==> x != 0x55
  {
    Flags(f);
    if x != 0x55 {
      StrayHarmless([x], f);
    } else {
      StrayLoses(f, 0);
    }
  }

  // ---------------------------------------------------------------- receiving

  class FrameCache {
    const data: array<byte>
    var dataLen: nat
    // The frames handled so far.
    ghost var handled: seq<seq<byte>>

    constructor ()
      ensures fresh(data) && Valid() && Content() == [] && handled == []
    {
      data := new byte[CACHE_CAPACITY + 1];
      dataLen := 0;
      handled := [];
    }

    ghost predicate Valid()
      reads this
    {
      data.Length == CACHE_CAPACITY + 1 && dataLen <= CACHE_CAPACITY
    }

    ghost function Content(): seq<byte>
      requires Valid()
      reads this, data
    {
      data[..dataLen]
    }

    method Append(piece: seq<byte>)
      requires Valid() && dataLen + |piece| <= CACHE_CAPACITY
      modifies this`dataLen, data
      ensures Valid() && Content() == old(Content()) + piece
    {
      CopyTo(data, dataLen, piece);
      assert data[..dataLen + |piece|] == data[..dataLen] + data[dataLen..dataLen + |piece|];
      dataLen := dataLen + |piece|;
    }

    /** The end of unpackCanFrame: what is behind offset moves to the front. */
    method Discard(offset: nat)
      requires Valid() && offset <= dataLen
      modifies this`dataLen, data
      ensures Valid() && Content() == old(Content()[offset..])
    {
      if offset > 0 {
        ghost var d := Content();
        var leftLen := dataLen - offset;
        for i := 0 to leftLen
          invariant forall k :: 0 <= k < i ==> data[k] == d[offset + k]
          invariant forall k :: i <= k < |d| ==> data[k] == d[k]
        {
          data[i] := data[offset + i];
        }
        dataLen := leftLen;
      }
    }

    method FindStart() returns (offset: nat)
      requires Valid() && dataLen >= CAN_HEAD_SIZE
      ensures offset == Find(Content(), 0) && offset + CAN_HEAD_SIZE <= dataLen
    {
      offset := 0;
      while offset + CAN_HEAD_SIZE < dataLen && data[offset] != 0x55
        invariant offset + CAN_HEAD_SIZE <= dataLen && Find(Content(), offset) == Find(Content(), 0)
      {
        offset := offset + 1;
      }
    }

    method UnpackCanFrame() returns (frame: seq<byte>, error: bool)
      requires Valid()
      modifies this`dataLen, data
      ensures Valid() && Attempt(frame, error, Content()) == Unpacked(old(Content()))
    {
      hide Sum, Taken, Find;
      frame, error := [], false;
      if dataLen < CAN_HEAD_SIZE {
        return;
      }
      ghost var d := Content();
      var offset := FindStart();
      if offset + CAN_HEAD_SIZE >= dataLen {
        error := true;
        Discard(offset);
        return;
      }
      data[offset + 1] := 0xAA;
      assert Content() == d[offset + 1 := 0xAA];
      frame, error := TakeAt(offset);
    }

    method Check(offset: nat, frameLen: nat) returns (ok: bool)
      requires Valid() && 3 <= frameLen && offset + frameLen <= dataLen
      ensures ok <==> (Content()[2] + Sum(Content()[offset + 3..offset + frameLen])) % 256 == 0
    {
      hide Sum;
      ghost var d := Content();
      var sum := SumFrom(data, offset + 3, offset + frameLen);
      assert data[..offset + frameLen][offset + 3..] == d[offset + 3..offset + frameLen];
      CheckMatches(d[2], Sum(d[offset + 3..offset + frameLen]), sum);
      ok := (0x100 - sum as nat) % 256 == data[2];
    }

    /** The second half of unpackCanFrame. */
    method TakeAt(offset: nat) returns (frame: seq<byte>, error: bool)
      requires Valid() && offset + CAN_HEAD_SIZE < dataLen
      modifies this`dataLen, data
      ensures Valid() && Attempt(frame, error, Content()) == Taken(old(Content()), offset)
    {
      hide *;
      Inside(offset);
      frame, error := [], false;
      ghost var d := Content();
      var frameLen := data[offset + 3] as nat + 6;
      TakenCases(d, offset, frameLen);
      if offset + frameLen > dataLen {
        Discard(if dataLen >= 256 then offset + 2 else offset);
        return;
      }
      var ok := Check(offset, frameLen);
      if ok {
        frame := data[offset..offset + frameLen];
        FrameInside(offset, frameLen);
        Discard(offset + frameLen);
      } else {
        error := true;
        Discard(offset + 2);
      }
    }

    /** The rest of handCanFrame: the piece is kept, then every whole frame is taken
        out and handled. */
    method Receive(piece: seq<byte>)
      requires Valid()
      modifies this, data
      ensures Valid() && Content() == Fed(old(Content()), piece).1
      ensures handled == old(handled) + Fed(old(Content()), piece).0
    {
      if dataLen + |piece| > CACHE_CAPACITY {
        return;
      }
      Append(piece);
      HandleFrames();
    }

    /** The loop of handCanFrame. */
    method HandleFrames()
      requires Valid()
      modifies this, data
      ensures Valid() && Content() == Drained(old(Content())).1
      ensures handled == old(handled) + Drained(old(Content())).0
    {
      hide Unpacked;
      ghost var all := Drained(Content());
      ghost var before := handled;
      while true
        invariant Valid() && before + all.0 == handled + Drained(Content()).0 && all.1 == Drained(Content()).1
        decreases dataLen
      {
        ghost var d := Content();
        var frame, error := UnpackCanFrame();
        DrainedStep(d);
        if error || frame == [] {
          assert handled + [] == handled;
          break;
        }
        assert handled + ([frame] + Drained(Content()).0) == (handled + [frame]) + Drained(Content()).0;
        handled := handled + [frame];
      }
    }

    lemma {:induction false} Inside(offset: nat)
      requires Valid() && offset + CAN_HEAD_SIZE < dataLen
      ensures offset + 6 < dataLen == |Content()| <= data.Length && Content()[offset + 3] == data[offset + 3]
    {
    }

    lemma {:induction false} FrameInside(offset: nat, frameLen: nat)
      requires Valid() && offset + frameLen <= dataLen
      ensures dataLen <= data.Length && |Content()| == dataLen
      ensures data[offset..offset + frameLen] == Content()[offset..offset + frameLen]
    {
    }
  }

  lemma {:induction false} TakenCases(d: seq<byte>, o: nat, n: nat)
    requires o + 6 < |d| && n == d[o + 3] as nat + 6
    ensures Taken(d, o) == (
              if o + n > |d| then Attempt([], false, if |d| >= 256 then d[o + 2..] else d[o..])
              else if (d[2] + Sum(d[o + 3..o + n])) % 256 == 0 then Attempt(d[o..o + n], false, d[o + n..])
              else Attempt([], true, d[o + 2..]))
  {
    hide Sum;
  }

  lemma {:induction false} CheckMatches(check: byte, total: nat, sum: byte)
    requires sum == total % 256
    ensures (0x100 - sum as nat) % 256 == check <==> (check + total) % 256 == 0
  {
  }

  class CanReceiver {
    const canFrameCache: map<nat, FrameCache>

    constructor (canFrameCache: map<nat, FrameCache>)
      ensures this.canFrameCache == canFrameCache
    {
      this.canFrameCache := canFrameCache;
    }

    /** There is one cache for each group, and they share nothing. */
    ghost predicate Valid()
      reads canFrameCache.Values
    {
      && (forall g :: g in GROUPS ==> Key(PhysicalAddrToCanId(g, 1)) in canFrameCache)
      && (forall k :: k in canFrameCache ==> canFrameCache[k].Valid())
      && (forall j, k :: j in canFrameCache && k in canFrameCache && j != k ==>
            canFrameCache[j] != canFrameCache[k] && canFrameCache[j].data != canFrameCache[k].data)
    }

    /** handCanFrame: the piece goes to the cache of its group; the others stay
        as they are. */
    method HandCanFrame(frame: CanFrame)
      requires Valid()
      modifies canFrameCache.Values, set k | k in canFrameCache :: canFrameCache[k].data
      ensures Valid()
      ensures forall k :: k in canFrameCache ==>
                (canFrameCache[k].Content(), canFrameCache[k].handled) ==
                if k == Key(CacheKey(frame.canId)) then
                  var fed := Fed(old(canFrameCache[k].Content()), frame.data);
                  (fed.1, old(canFrameCache[k].handled) + fed.0)
                else (old(canFrameCache[k].Content()), old(canFrameCache[k].handled))
    {
      KeyKnown(frame.canId);
      hide CacheKey, Key, Fed, PhysicalAddrToCanId, CanIdToPhysicalAddr, PlainId;
      var key := Key(CacheKey(frame.canId));
      Known(frame.canId);
      canFrameCache[key].Receive(frame.data);
    }

    /** The cache with key k has been fed the pieces of its group. */
    ghost predicate CaughtUp(k: nat, content: seq<byte>, handled: seq<seq<byte>>, frames: seq<CanFrame>)
      requires k in canFrameCache && canFrameCache[k].Valid()
      reads canFrameCache[k], canFrameCache[k].data
    {
      var fed := FedAll(content, PiecesOf(frames, k));
      canFrameCache[k].Content() == fed.1 && canFrameCache[k].handled == handled + fed.0
    }

    ghost predicate AllCaughtUp(contents: map<nat, seq<byte>>, handled: map<nat, seq<seq<byte>>>, frames: seq<CanFrame>)
      requires Valid()
      reads canFrameCache.Values, set k | k in canFrameCache :: canFrameCache[k].data
    {
      && contents.Keys == canFrameCache.Keys == handled.Keys
      && forall k :: k in canFrameCache ==> CaughtUp(k, contents[k], handled[k], frames)
    }

    /** A whole run: each cache sees just the pieces of its group, whatever comes
        in between. */
    method HandAll(frames: seq<CanFrame>)
      requires Valid()
      modifies canFrameCache.Values, set k | k in canFrameCache :: canFrameCache[k].data
      ensures Valid()
      ensures forall k :: k in canFrameCache ==>
                CaughtUp(k, old(canFrameCache[k].Content()), old(canFrameCache[k].handled), frames)
    {
      hide Fed, FedAll, CacheKey, PiecesOf, CaughtUp;
      ghost var contents := map k | k in canFrameCache :: canFrameCache[k].Content();
      ghost var handled := map k | k in canFrameCache :: canFrameCache[k].handled;
      Start(contents, handled);
      assert frames[..0] == [];
      hide AllCaughtUp;
      for i := 0 to |frames|
        invariant Valid() && AllCaughtUp(contents, handled, frames[..i])
      {
        OneLonger(frames, i);
        HandNext(frames[..i], frames[i], contents, handled);
      }
      assert frames[..|frames|] == frames;
      Finish(contents, handled, frames);
    }

    lemma {:induction false} Start(contents: map<nat, seq<byte>>, handled: map<nat, seq<seq<byte>>>)
      requires Valid() && contents.Keys == canFrameCache.Keys == handled.Keys
      requires forall k :: k in canFrameCache ==>
                 contents[k] == canFrameCache[k].Content() && handled[k] == canFrameCache[k].handled
      ensures AllCaughtUp(contents, handled, [])
    {
      NothingFed();
    }

    lemma {:induction false} Finish(contents: map<nat, seq<byte>>, handled: map<nat, seq<seq<byte>>>, frames: seq<CanFrame>)
      requires Valid() && AllCaughtUp(contents, handled, frames)
      ensures forall k :: k in canFrameCache ==>
                k in contents && k in handled && CaughtUp(k, contents[k], handled[k], frames)
    {
    }

    method HandNext(ghost frames: seq<CanFrame>, frame: CanFrame, ghost contents: map<nat, seq<byte>>,
                    ghost handled: map<nat, seq<seq<byte>>>)
      requires Valid() && AllCaughtUp(contents, handled, frames)
      modifies canFrameCache.Values, set k | k in canFrameCache :: canFrameCache[k].data
      ensures Valid() && AllCaughtUp(contents, handled, frames + [frame])
    {
      hide Fed, FedAll, CacheKey, Key, PiecesOf;
      HandCanFrame(frame);
      forall k | k in canFrameCache ensures CaughtUp(k, contents[k], handled[k], frames + [frame]) {
        FedNext(contents[k], handled[k], frames, frame, k);
      }
    }

    lemma {:induction false} Known(id: bv32)
      requires Valid() && CacheKey(id) == PhysicalAddrToCanId(CanIdToPhysicalAddr(PlainId(id)), 1)
      requires CanIdToPhysicalAddr(PlainId(id)) in GROUPS
      ensures Key(CacheKey(id)) in canFrameCache && canFrameCache[Key(CacheKey(id))].Valid()
    {
    }
  }

  /** Ids as numbers. */
  function Key(id: bv32): nat {
    id as nat
  }

  lemma {:induction false} KeyKnown(id: bv32)
    ensures CacheKey(id) == PhysicalAddrToCanId(CanIdToPhysicalAddr(PlainId(id)), 1)
    ensures CanIdToPhysicalAddr(PlainId(id)) in GROUPS
  {
  }

  /** The pieces that go to the cache with key k. */
  ghost function PiecesOf(frames: seq<CanFrame>, k: nat): seq<seq<byte>> {
    if frames == [] then []
    else
      var last := frames[|frames| - 1];
      PiecesOf(frames[..|frames| - 1], k) + (if Key(CacheKey(last.canId)) == k then [last.data] else [])
  }

  lemma {:induction false} OneLonger(frames: seq<CanFrame>, i: nat)
    requires i < |frames|
    ensures frames[..i + 1] == frames[..i] + [frames[i]]
  {
  }

  lemma {:induction false} NothingFed()
    ensures forall k :: PiecesOf([], k) == []
    ensures forall cache :: FedAll(cache, []) == ([], cache)
  {
  }

  lemma {:induction false} FedNext(cache: seq<byte>, handled: seq<seq<byte>>, frames: seq<CanFrame>, frame: CanFrame, k: nat)
    ensures var before := FedAll(cache, PiecesOf(frames, k));
            var after := FedAll(cache, PiecesOf(frames + [frame], k));
            var fed := Fed(before.1, frame.data);
            if Key(CacheKey(frame.canId)) == k then
              after.1 == fed.1 && handled + after.0 == handled + before.0 + fed.0
            else after == before
  {
    PiecesNext(frames, frame, k);
    hide *;
    var pieces := PiecesOf(frames, k);
    if Key(CacheKey(frame.canId)) == k {
      FedAllSplit(cache, pieces, [frame.data]);
      FedOne(FedAll(cache, pieces).1, frame.data);
      assert handled + (FedAll(cache, pieces).0 + Fed(FedAll(cache, pieces).1, frame.data).0)
          == handled + FedAll(cache, pieces).0 + Fed(FedAll(cache, pieces).1, frame.data).0;
    }
  }

  lemma {:induction false} PiecesNext(frames: seq<CanFrame>, frame: CanFrame, k: nat)
    ensures PiecesOf(frames + [frame], k)
         == if Key(CacheKey(frame.canId)) == k then PiecesOf(frames, k) + [frame.data] else PiecesOf(frames, k)
  {
    assert (frames + [frame])[..|frames|] == frames;
    hide CacheKey, Key;
  }

  lemma {:induction false} FedOne(cache: seq<byte>, piece: seq<byte>)
    ensures FedAll(cache, [piece]) == Fed(cache, piece)
  {
    hide Fed;
    var first := Fed(cache, piece);
    assert FedAll(first.1, []) == ([], first.1);
    assert first.0 + [] == first.0;
  }

  // ---------------------------------------------------------------- round trip

  ghost predicate Leads(id: bv32, k: nat) {
    Key(CacheKey(id | CAN_EFF_FLAG)) == k
  }

  /** All ids of the frame lead to one cache, and there are as many as pieces. */
  ghost predicate Addressed(f: ControlFrame, k: nat) {
    && WellFormed(f.data) && |f.ids| == (|f.data| + 7) / 8
    && forall i :: 0 <= i < |f.ids| ==> Leads(f.ids[i], k)
  }

  /** What packCanFrame makes for a group is addressed to its cache. */
  lemma {:induction false} PackedAddressed(f: ControlFrame, group: bv32, controlId: bv32)
    requires WellFormed(f.data) && |f.ids| == (|f.data| + 7) / 8 && group in GROUPS
    requires forall i :: 0 <= i < |f.ids| ==> SameButNumber(PhysicalAddrToCanId(group, controlId), f.ids[i])
    ensures Addressed(f, Key(PhysicalAddrToCanId(group, 1)))
  {
    hide *;
    forall i | 0 <= i < |f.ids| ensures Leads(f.ids[i], Key(PhysicalAddrToCanId(group, 1))) {
      PackedLeads(f.ids[i], group, controlId);
    }
    MakeAddressed(f, Key(PhysicalAddrToCanId(group, 1)));
  }

  lemma {:induction false} PackedLeads(id: bv32, group: bv32, controlId: bv32)
    requires group in GROUPS && SameButNumber(PhysicalAddrToCanId(group, controlId), id)
    ensures Leads(id, Key(PhysicalAddrToCanId(group, 1)))
  {
    GroupComesBack(group, controlId, id);
  }

  lemma {:induction false} MakeAddressed(f: ControlFrame, k: nat)
    requires WellFormed(f.data) && |f.ids| == (|f.data| + 7) / 8 && forall i :: 0 <= i < |f.ids| ==> Leads(f.ids[i], k)
    ensures Addressed(f, k)
  {
    hide Leads, WellFormed;
  }

  lemma {:induction false} ChunkCount(data: seq<byte>, offset: nat)
    requires offset <= |data|
    ensures |Chunks(data, offset)| == (|data| - offset + 7) / 8
    decreases |data| - offset
  {
    if offset == |data| {
    } else {
      ChunkCount(data, if offset + 8 <= |data| then offset + 8 else |data|);
    }
  }

  lemma {:induction false} PiecesSplit(a: seq<CanFrame>, b: seq<CanFrame>, k: nat)
    ensures PiecesOf(a + b, k) == PiecesOf(a, k) + PiecesOf(b, k)
    decreases |b|
  {
    hide CacheKey, Key;
    if b == [] {
      assert a + b == a;
    } else {
      assert (a + b)[..|a + b| - 1] == a + b[..|b| - 1];
      PiecesSplit(a, b[..|b| - 1], k);
    }
  }

  lemma {:induction false} PiecesOfFragments(ids: seq<bv32>, chunks: seq<seq<byte>>, to: nat, k: nat)
    requires |ids| == |chunks| && forall i :: 0 <= i < |ids| ==> Leads(ids[i], to)
    ensures PiecesOf(Fragments(ids, chunks), k) == if to == k then chunks else []
    decreases |ids|
  {
    hide CacheKey, Key, PiecesOf, Fragments;
    if ids == [] {
      NothingFed();
      NoIds(ids, chunks);
    } else {
      var first := CanFrame(ids[0] | CAN_EFF_FLAG, chunks[0]);
      PiecesOfFragments(ids[1..], chunks[1..], to, k);
      FirstFragment(ids, chunks);
      PiecesSplit([first], Fragments(ids[1..], chunks[1..]), k);
      OnePiece(first, k);
      assert Leads(ids[0], to);
      assert chunks == [chunks[0]] + chunks[1..];
    }
  }

  lemma {:induction false} FirstFragment(ids: seq<bv32>, chunks: seq<seq<byte>>)
    requires ids != [] && chunks != []
    ensures Fragments(ids, chunks) == [CanFrame(ids[0] | CAN_EFF_FLAG, chunks[0])] + Fragments(ids[1..], chunks[1..])
  {
  }

  lemma {:induction false} OnePiece(frame: CanFrame, k: nat)
    ensures PiecesOf([frame], k) == if Key(CacheKey(frame.canId)) == k then [frame.data] else []
  {
    hide CacheKey, Key;
    assert [frame][..0] == [];
  }

  /** The frames among the first n that are sent to the cache with key k. */
  ghost function SentTo(queue: seq<ControlFrame>, to: seq<nat>, k: nat): seq<seq<byte>>
    requires |to| == |queue|
  {
    if queue == [] then []
    else
      var n := |queue| - 1;
      SentTo(queue[..n], to[..n], k) + (if to[n] == k then [queue[n].data] else [])
  }

  /** Whatever frames are queued, each group's cache hands out exactly the frames
      sent to the group, in order, and is empty again. */
  lemma {:induction false} RoundTrip(queue: seq<ControlFrame>, to: seq<nat>, k: nat)
    requires |to| == |queue| && forall i :: 0 <= i < |queue| ==> Addressed(queue[i], to[i])
    ensures FedAll([], PiecesOf(AllFragments(queue), k)) == (SentTo(queue, to, k), [])
    decreases |queue|
  {
    hide Addressed, FedAll, PiecesOf, CacheKey, Key, Fragments, Chunks;
    if queue == [] {
      NothingFed();
    } else {
      var n := |queue| - 1;
      RoundTrip(queue[..n], to[..n], k);
      var last := Fragments(queue[n].ids, Chunks(queue[n].data, 0));
      PiecesSplit(AllFragments(queue[..n]), last, k);
      FedAllSplit([], PiecesOf(AllFragments(queue[..n]), k), PiecesOf(last, k));
      FedLast(queue[n], to[n], k);
    }
  }

  lemma {:induction false} FedLast(f: ControlFrame, to: nat, k: nat)
    requires Addressed(f, to)
    ensures FedAll([], PiecesOf(Fragments(f.ids, Chunks(f.data, 0)), k)) == (if to == k then [f.data] else [], [])
  {
    hide CacheKey, Key, WellFormed, Chunks, FedAll, PiecesOf, Fragments;
    ChunkCount(f.data, 0);
    PiecesOfFragments(f.ids, Chunks(f.data, 0), to, k);
    if to == k {
      assert f.data[..0] == [];
      WellFormedLong(f.data);
      FedFrame(f.data, 0);
    } else {
      NothingFed();
    }
  }

  lemma {:induction false} WellFormedLong(f: seq<byte>)
    requires WellFormed(f)
    ensures |f| > 0
  {
  }
}
