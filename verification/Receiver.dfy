/** The receive cache of imp/device-update/device_updater.cpp: what is read is put
    behind what is there, and DeMux is asked about the whole. */
module Receiver {
  import opened Bits
  import opened Containers
  import opened Framing

  /** A frame that was handled: its control byte, its payload and who sent it. */
  datatype Handled = Handled(control: byte, payload: seq<byte>, sender: Option<nat>)

  // ---------------------------------------------------------------- meaning

  function FrontFrame(d: seq<byte>): Handled
    requires Complete(d) && HEAD_SIZE + d[4] <= |d|
  {
    Handled(d[3], d[HEAD_SIZE..HEAD_SIZE + d[4]], SourceAt(d))
  }

  /** What handleDataCache makes of the bytes in the cache: the frame handled, if
      any, and what stays. */
  ghost function Asked(d: seq<byte>): (seq<Handled>, seq<byte>) {
    if Complete(d) then
      CompleteAccepted(d);
      ([FrontFrame(d)], [])
    else ([], d)
  }

  /** A run of reads. */
  ghost function Fed(cache: seq<byte>, pieces: seq<seq<byte>>): (seq<Handled>, seq<byte>)
    decreases |pieces|
  {
    if pieces == [] then ([], cache)
    else
      var first := Asked(cache + pieces[0]);
      var more := Fed(first.1, pieces[1..]);
      (first.0 + more.0, more.1)
  }

  ghost function Joined(pieces: seq<seq<byte>>): seq<byte> {
    if pieces == [] then [] else pieces[0] + Joined(pieces[1..])
  }

  // ---------------------------------------------------------------- the code

  class ReadCache {
    const readCache: array<byte>
    var dataLen: nat
    // The frames handled so far.
    ghost var handled: seq<Handled>

    constructor (capacity: nat)
      ensures Valid() && Content() == [] && handled == [] && readCache.Length == capacity
      ensures fresh(readCache)
    {
      readCache := new byte[capacity](_ => 0);
      dataLen, handled := 0, [];
    }

    ghost predicate Valid()
      reads this`dataLen
    {
      dataLen <= readCache.Length
    }

    ghost function Content(): seq<byte>
      reads this`dataLen, readCache
      requires Valid()
    {
      readCache[..dataLen]
    }

    /** handleDataCache. Its loop moves on to the next byte only for a result that
        is neither 0 nor 1; DeMux keeps its result in a bool, so there is none. */
    method HandleDataCache()
      requires Valid()
      modifies this
      ensures Valid() && (handled, Content()) == (old(handled) + Asked(old(Content())).0, Asked(old(Content())).1)
    {
      ghost var d := Content();
      hide Asked, Accepts, AcceptsNothing, SentFrom;
      if dataLen == 0 {
        NothingThere(d);
        assert handled + [] == handled;
        return;
      }
      var r := DeMux(readCache, dataLen);
      match r {
        case Accepted(payload, control, sender) =>
          AcceptedFrame(d, control, payload, sender);
          handled := handled + [Handled(control, payload, sender)];
          dataLen := 0;
          assert Content() == [];
        case NotAccepted =>
          NothingAccepted(d);
          assert handled + [] == handled;
      }
    }

    /** The end of on_read, when the read bytes fit the cache. */
    method OnRead(piece: seq<byte>)
      requires Valid() && dataLen + |piece| <= readCache.Length
      modifies this, readCache
      ensures Valid()
      ensures var asked := Asked(old(Content()) + piece); (handled, Content()) == (old(handled) + asked.0, asked.1)
    {
      ghost var d := Content();
      forall i | 0 <= i < |piece| {
        readCache[dataLen + i] := piece[i];
      }
      dataLen := dataLen + |piece|;
      assert Content() == d + piece;
      HandleDataCache();
    }
  }

  lemma {:induction false} AcceptedFrame(d: seq<byte>, control: byte, payload: seq<byte>, sender: Option<nat>)
    requires SentFrom(d, control, payload, sender)
    ensures Asked(d) == ([Handled(control, payload, sender)], [])
  {
    SentAccepted(d, control, payload, sender);
    OnlyCompleteAccepted(d);
    CompleteParts(d);
    assert Complete(d);
    hide Complete, Accepts, SentFrom;
    CompleteAccepted(d);
    SourceRead(d);
    AcceptedUnique(d, control, payload, d[3], d[HEAD_SIZE..HEAD_SIZE + d[4]]);
    SourceUnique(d, control, payload, sender, SourceAt(d));
  }

  lemma {:induction false} SentAccepted(d: seq<byte>, control: byte, payload: seq<byte>, sender: Option<nat>)
    requires SentFrom(d, control, payload, sender)
    ensures Accepts(d, control, payload)
  {
    hide StartsWith, AddressRead;
  }

  lemma {:induction false} NothingThere(d: seq<byte>)
    requires d == []
    ensures Asked(d) == ([], d)
  {
  }

  lemma {:induction false} NothingAccepted(d: seq<byte>)
    requires AcceptsNothing(d)
    ensures Asked(d) == ([], d)
  {
    hide Complete, Accepts;
    if Complete(d) {
      CompleteAccepted(d);
    }
  }

  // ---------------------------------------------------------------- bytes that stay for good

  /** Whatever is read next, no frame is found. */
  ghost predicate Stuck(d: seq<byte>) {
    forall more :: !Complete(d + more)
  }

  /** A flag is wrong, the source address is empty, or all parts are there and the
      check byte is not theirs. */
  predicate Doomed(d: seq<byte>) {
    || (|d| > 1 && d[1] != FLAG_1)
    || (|d| > 2 && d[2] != FLAG_2)
    || (|d| > HEAD_SIZE && SrcBit(d[3]) && AfterDst(d) < |d| && d[AfterDst(d)] == 0)
    || (HasAllParts(d) && d[AfterSrc(d)] != XorRange(d, 3, AfterSrc(d)))
  }

  /** Bytes behind do not move the parts that are there. */
  lemma {:induction false} PartsStay(d: seq<byte>, more: seq<byte>)
    requires |d| > HEAD_SIZE
    ensures AfterDst(d) < |d| ==> AfterDst(d + more) == AfterDst(d)
    ensures HasAllParts(d) ==> HasAllParts(d + more) && AfterSrc(d + more) == AfterSrc(d)
  {
    var e := d + more;
    assert forall i :: 0 <= i < |d| ==> e[i] == d[i];
    hide SrcBit, DstBit;
  }

  lemma {:induction false} DoomedStays(d: seq<byte>, more: seq<byte>)
    requires Doomed(d)
    ensures !Complete(d + more)
  {
    var e := d + more;
    assert forall i :: 0 <= i < |d| ==> e[i] == d[i];
    if |d| > HEAD_SIZE {
      PartsStay(d, more);
      if HasAllParts(d) {
        XorRangeSame(d, e, 3, AfterSrc(d));
      }
    }
    hide SrcBit, DstBit, XorRange;
  }

  /** The byte that can come next. */
  function NextByte(d: seq<byte>): byte {
    if |d| == 1 then FLAG_1
    else if |d| == 2 then FLAG_2
    else if |d| >= HEAD_SIZE && AfterSrc(d + [1]) == |d| then XorRange(d, 3, |d|)
    else 1
  }

  const LONGEST: nat := 773

  lemma {:induction false} EndBelow(d: seq<byte>)
    requires |d| >= LONGEST
    ensures AfterDst(d) < |d| && AfterSrc(d) < |d|
  {
    hide SrcBit, DstBit;
  }

  /** The next part of d ends where it does whatever the next byte is. */
  lemma {:induction false} EndKnown(d: seq<byte>, b: byte)
    requires |d| >= HEAD_SIZE
    ensures AfterSrc(d + [b]) == |d| <==> AfterSrc(d + [1]) == |d|
    ensures AfterDst(d + [b]) == |d| <==> AfterDst(d + [1]) == |d|
  {
    var e, f := d + [b], d + [1];
    assert forall i :: 0 <= i < |d| ==> e[i] == d[i] == f[i];
    hide SrcBit, DstBit;
  }

  lemma {:induction false} NextStays(d: seq<byte>)
    requires !Doomed(d) && !Complete(d)
    ensures !Doomed(d + [NextByte(d)]) && |d| < LONGEST
  {
    var b := NextByte(d);
    var e := d + [b];
    assert forall i :: 0 <= i < |d| ==> e[i] == d[i];
    hide *;
    if |d| < HEAD_SIZE {
      ShortNext(d);
    } else {
      LongNext(d);
    }
  }

  lemma {:induction false} ShortNext(d: seq<byte>)
    requires |d| < HEAD_SIZE && !Doomed(d)
    ensures !Doomed(d + [NextByte(d)]) && |d| < LONGEST
  {
    var e := d + [NextByte(d)];
    assert forall i :: 0 <= i < |d| ==> e[i] == d[i];
    hide AfterSrc, AfterDst, XorRange;
  }

  lemma {:induction false} LongNext(d: seq<byte>)
    requires |d| >= HEAD_SIZE && !Doomed(d) && !Complete(d)
    ensures !Doomed(d + [NextByte(d)]) && |d| < LONGEST
  {
    var b := NextByte(d);
    var e := d + [b];
    assert forall i :: 0 <= i < |d| ==> e[i] == d[i];
    EndKnown(d, b);
    if |d| >= LONGEST {
      EndBelow(d);
    }
    if |d| > HEAD_SIZE {
      PartsStay(d, [b]);
    }
    XorRangeSame(d, e, 3, |d|);
    NewEnd(d, b);
    hide SrcBit, DstBit, XorRange, AfterSrc, AfterDst;
  }

  /** A part that only ends with the next byte there. */
  lemma {:induction false} NewEnd(d: seq<byte>, b: byte)
    requires |d| >= HEAD_SIZE
    ensures var e := d + [b];
            && (AfterDst(e) < |d| ==> |d| > HEAD_SIZE && AfterDst(d) == AfterDst(e))
            && (AfterSrc(e) < |d| ==> |d| > HEAD_SIZE && AfterSrc(d) == AfterSrc(e))
            && (SrcBit(e[3]) && AfterSrc(e) < |e| ==> AfterDst(e) < |d|)
            && (SrcBit(e[3]) && AfterDst(e) == |d| ==> AfterSrc(e) > |d|)
  {
    var e := d + [b];
    assert forall i :: 0 <= i < |d| ==> e[i] == d[i];
    hide SrcBit, DstBit;
  }

  lemma {:induction false} Completed(d: seq<byte>) returns (more: seq<byte>)
    requires !Doomed(d)
    ensures Complete(d + more)
    decreases LONGEST + 1 - |d|
  {
    hide *;
    if Complete(d) {
      more := [];
      assert d + [] == d;
    } else {
      NextStays(d);
      LongestIs();
      var b := NextByte(d);
      more := Completed(d + [b]);
      assert d + [b] + more == d + ([b] + more);
      more := [b] + more;
    }
  }

  lemma {:induction false} LongestIs()
    ensures LONGEST == 773
  {
  }

  /** The cache never finds a frame again exactly when it is doomed. */
  lemma {:induction false} StuckIff(d: seq<byte>)
    ensures Stuck(d) <==> Doomed(d)
  {
    hide Doomed, Complete;
    if Doomed(d) {
      forall more ensures !Complete(d + more) {
        DoomedStays(d, more);
      }
    } else {
      var more := Completed(d);
    }
  }

  /** Then all further reads only make it grow. */
  lemma {:induction false} StuckForGood(d: seq<byte>, pieces: seq<seq<byte>>)
    requires Doomed(d)
    ensures Fed(d, pieces) == ([], d + Joined(pieces))
    decreases |pieces|
  {
    if pieces == [] {
      assert d + [] == d;
    } else {
      var e := d + pieces[0];
      DoomedGrows(d, pieces[0]);
      hide Doomed, Complete;
      AskedPart(e);
      StuckForGood(e, pieces[1..]);
      assert [] + Fed(e, pieces[1..]).0 == Fed(e, pieces[1..]).0;
      assert e + Joined(pieces[1..]) == d + Joined(pieces);
    }
  }

  lemma {:induction false} DoomedGrows(d: seq<byte>, more: seq<byte>)
    requires Doomed(d)
    ensures Doomed(d + more) && !Complete(d + more)
  {
    forall rest ensures !Complete(d + more + rest) {
      DoomedStays(d, more + rest);
      assert d + more + rest == d + (more + rest);
    }
    DoomedStays(d, more);
    hide Doomed, Complete;
    StuckIff(d + more);
  }

  /** One stray byte in front of a frame dooms the cache. */
  lemma {:induction false} StrayByteDooms(x: byte, payload: seq<byte>, address: Option<nat>, control: byte, rest: seq<byte>)
    requires FrameSize(payload, address) <= 256
    ensures Doomed([x] + Frame(payload, address, control) + rest)
  {
    var f := Frame(payload, address, control);
    FrameWhole(payload, address, control);
    UncheckedAt(payload, address, control);
    assert ([x] + f + rest)[2] == f[1];
    hide Frame, Unchecked, HasAllParts, AfterSrc, AfterDst;
  }

  // ---------------------------------------------------------------- frames that arrive

  /** No proper beginning of a frame is taken for one. */
  lemma {:induction false} PartIncomplete(payload: seq<byte>, address: Option<nat>, control: byte, n: nat)
    requires n < FrameSize(payload, address) <= 256
    ensures !Complete(Frame(payload, address, control)[..n])
  {
    var f := Frame(payload, address, control);
    FrameWhole(payload, address, control);
    UncheckedAt(payload, address, control);
    hide Frame, Unchecked, LengthByte, MaskedControl, Complete;
    assert forall i :: 0 <= i < n ==> f[..n][i] == f[i];
    EndBeyond(f[..n], payload, address, control);
  }

  lemma {:induction false} EndBeyond(p: seq<byte>, payload: seq<byte>, address: Option<nat>, control: byte)
    requires |p| < FrameSize(payload, address)
    requires |p| > HEAD_SIZE ==> p[3] == MaskedControl(control, address.Some?) && p[4] == |payload|
    requires |p| > HEAD_SIZE + |payload| && address.Some? ==> p[HEAD_SIZE + |payload|] == 2
    ensures !Complete(p)
  {
    hide MaskedControl;
  }

  /** However a frame is cut into reads, it is handled once, and leaves nothing. */
  lemma {:induction false} FrameArrives(payload: seq<byte>, address: Option<nat>, control: byte, n: nat, pieces: seq<seq<byte>>)
    requires n < FrameSize(payload, address) <= 256
    requires Frame(payload, address, control)[n..] == Joined(pieces) && (forall i :: 0 <= i < |pieces| ==> pieces[i] != [])
    ensures Fed(Frame(payload, address, control)[..n], pieces)
         == ([Handled(MaskedControl(control, address.Some?), payload, None)], [])
    decreases |pieces|
  {
    var f := Frame(payload, address, control);
    hide *;
    FrameWhole(payload, address, control);
    FrameHandled(payload, address, control, []);
    SomePiece(f, n, pieces);
    var next, h := n + |pieces[0]|, Handled(MaskedControl(control, address.Some?), payload, None);
    if next < |f| {
      PartIncomplete(payload, address, control, next);
      AskedPart(f[..next]);
      FrameArrives(payload, address, control, next, pieces[1..]);
      ArrivesLater(f[..n], f[..next], pieces, h);
    } else {
      assert f[..next] == f && f + [] == f;
      NoneJoined(pieces[1..]);
      ArrivesNow(f[..n], f, pieces, h);
    }
  }

  lemma {:induction false} ArrivesLater(d: seq<byte>, e: seq<byte>, pieces: seq<seq<byte>>, h: Handled)
    requires pieces != [] && d + pieces[0] == e && Asked(e) == ([], e) && Fed(e, pieces[1..]) == ([h], [])
    ensures Fed(d, pieces) == ([h], [])
  {
    hide *;
    FedNext(d, pieces);
    assert [] + [h] == [h];
  }

  lemma {:induction false} ArrivesNow(d: seq<byte>, e: seq<byte>, pieces: seq<seq<byte>>, h: Handled)
    requires pieces != [] && d + pieces[0] == e && Asked(e) == ([h], []) && pieces[1..] == []
    ensures Fed(d, pieces) == ([h], [])
  {
    hide *;
    FedNext(d, pieces);
    assert [h] + [] == [h];
  }

  lemma {:induction false} SomePiece(f: seq<byte>, n: nat, pieces: seq<seq<byte>>)
    requires n < |f| && f[n..] == Joined(pieces) && (forall i :: 0 <= i < |pieces| ==> pieces[i] != [])
    ensures pieces != [] && n < n + |pieces[0]| <= |f|
    ensures var next := n + |pieces[0]|; f[..n] + pieces[0] == f[..next] && f[next..] == Joined(pieces[1..])
  {
    assert f == f[..n] + f[n..];
    assert f[n..] == pieces[0] + Joined(pieces[1..]);
  }

  lemma {:induction false} FedNext(cache: seq<byte>, pieces: seq<seq<byte>>)
    requires pieces != []
    ensures var first := Asked(cache + pieces[0]); var more := Fed(first.1, pieces[1..]);
            Fed(cache, pieces) == (first.0 + more.0, more.1)
    ensures Fed([], []) == ([], [])
  {
    hide Asked;
  }

  lemma {:induction false} AskedPart(d: seq<byte>)
    requires !Complete(d)
    ensures Asked(d) == ([], d)
  {
    hide Complete;
  }

  lemma {:induction false} NoneJoined(pieces: seq<seq<byte>>)
    requires Joined(pieces) == [] && (forall i :: 0 <= i < |pieces| ==> pieces[i] != [])
    ensures pieces == []
  {
  }

  /** What follows a frame in the same read is lost with it. */
  lemma {:induction false} FrameHandled(payload: seq<byte>, address: Option<nat>, control: byte, rest: seq<byte>)
    requires FrameSize(payload, address) <= 256
    ensures Asked(Frame(payload, address, control) + rest) == ([Handled(MaskedControl(control, address.Some?), payload, None)], [])
  {
    hide Frame, MaskedControl, Accepts, Asked, SentFrom;
    FrameRoundTrip(payload, address, control, rest);
    NoSender(Frame(payload, address, control) + rest, MaskedControl(control, address.Some?), payload);
    AcceptedFrame(Frame(payload, address, control) + rest, MaskedControl(control, address.Some?), payload, None);
  }

  lemma {:induction false} NoSender(s: seq<byte>, control: byte, payload: seq<byte>)
    requires Accepts(s, control, payload) && !SrcBit(control)
    ensures SentFrom(s, control, payload, None)
  {
    var dst, src :| StartsWith(s, control, payload, dst, src);
    assert AddressRead(s, payload, dst, src, None);
  }

  /** A reply as it comes from the device with the address 0x1234: command 0xE3,
      no data. */
  lemma {:induction false} ReplyFrom1234()
    ensures Asked([10, 0x55, 0xAA, 0x88, 1, 0xE3, 2, 0x12, 0x34, 0x4E]) == ([Handled(0x88, [0xE3], Some(0x1234))], [])
  {
    var s: seq<byte> := [10, 0x55, 0xAA, 0x88, 1, 0xE3, 2, 0x12, 0x34, 0x4E];
    assert s[5..6] == [0xE3] && s[7..9] == [0x12, 0x34];
    ReplySum(s);
    hide *;
    ReplyRead(s, [0xE3], [0x12, 0x34]);
    AcceptedFrame(s, 0x88, [0xE3], Some(0x1234));
  }

  lemma {:induction false} ReplyRead(s: seq<byte>, payload: seq<byte>, src: seq<byte>)
    requires |s| == 10 && s[1] == 0x55 && s[2] == 0xAA && s[3] == 0x88 && s[4] == 1 && s[6] == 2
    requires s[5..6] == payload && s[7..9] == src && |src| == 2 && src[0] == 0x12 && src[1] == 0x34
    requires s[9] == XorRange(s, 3, 9)
    ensures SentFrom(s, 0x88, payload, Some(0x1234))
  {
    hide XorRange;
    assert |payload| == 1;
    assert SectionAt(s, 6, Some(src)) && StartsWith(s, 0x88, payload, None, Some(src));
    assert AddressRead(s, payload, None, Some(src), Some(0x1234));
  }

  lemma {:induction false} ReplySum(s: seq<byte>)
    requires s == [10, 0x55, 0xAA, 0x88, 1, 0xE3, 2, 0x12, 0x34, 0x4E]
    ensures XorRange(s, 3, 9) == 0x4E
  {
    assert s[3] == 0x88 && s[4] == 1 && s[5] == 0xE3 && s[6] == 2 && s[7] == 0x12 && s[8] == 0x34;
    ReplyXors();
    hide XorByte, Xor;
    assert XorRange(s, 3, 4) == 0x88;
    assert XorRange(s, 3, 6) == 0x6A;
    assert XorRange(s, 3, 8) == 0x7A;
  }

  lemma {:induction false} ReplyXors()
    ensures XorByte(0, 0x88) == 0x88 && XorByte(0x88, 1) == 0x89 && XorByte(0x89, 0xE3) == 0x6A
    ensures XorByte(0x6A, 2) == 0x68 && XorByte(0x68, 0x12) == 0x7A && XorByte(0x7A, 0x34) == 0x4E
  {
    FirstXors();
    SecondXors();
    hide Xor;
  }

  lemma {:induction false} FirstXors()
    ensures Xor(0, 0x88) == 0x88 && Xor(0x88, 1) == 0x89 && Xor(0x89, 0xE3) == 0x6A
  {
    XorZero(0x88);
    EvenXors();
    OddXors();
    hide Xor;
  }

  lemma {:induction false} EvenXors()
    ensures Xor(0x88, 1) == 0x89
  {
  }

  lemma {:induction false} OddXors()
    ensures Xor(0x89, 0xE3) == 0x6A
  {
    assert Xor(2, 3) == 1;
    assert Xor(8, 14) == 6;
    assert Xor(34, 56) == 26;
    assert Xor(68, 113) == 53;
  }

  lemma {:induction false} SecondXors()
    ensures Xor(0x6A, 2) == 0x68 && Xor(0x68, 0x12) == 0x7A && Xor(0x7A, 0x34) == 0x4E
  {
  }
}
