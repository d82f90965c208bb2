/** The length/XOR framing of imp/device-update/Protocol.cpp. */
module Framing {
  import opened Bits
  import opened Containers

  const FLAG_1: byte := 0x55
  const FLAG_2: byte := 0xAA
  const HEAD_SIZE: nat := 5
  const ADDRESS_SECTION: nat := 3

  // Bits of the control byte.
  predicate WriteBit(c: byte) { c % 2 == 1 }
  predicate DstBit(c: byte) { c / 4 % 2 == 1 }
  predicate SrcBit(c: byte) { c / 8 % 2 == 1 }
  predicate SwitchBit(c: byte) { c / 128 % 2 == 1 }

  /** The control bits Mux keeps, and the destination bit it adds. */
  function MaskedControl(control: byte, addressed: bool): (r: byte)
    ensures WriteBit(r) == WriteBit(control) && SwitchBit(r) == SwitchBit(control)
    ensures DstBit(r) == addressed && !SrcBit(r)
    ensures r / 16 % 8 == 0 && r / 2 % 2 == 0
  {
    (if WriteBit(control) then 1 else 0) + (if addressed then 4 else 0) + (if SwitchBit(control) then 128 else 0)
  }

  /** Exclusive or of the bytes from..to. */
  function XorRange(data: seq<byte>, from: nat, to: nat): byte
    requires to <= |data|
  {
    if to <= from then 0 else XorByte(XorRange(data, from, to - 1), data[to - 1])
  }

  lemma {:induction false} XorRangeSame(a: seq<byte>, b: seq<byte>, from: nat, to: nat)
    requires to <= |a| && to <= |b|
    requires forall i :: from <= i < to ==> a[i] == b[i]
    ensures XorRange(a, from, to) == XorRange(b, from, to)
  {
    if to <= from {
    } else {
      XorRangeSame(a, b, from, to - 1);
    }
  }

  /** A length byte and what it counts. */
  function Section(bytes: Option<seq<byte>>): seq<byte>
    requires bytes.Some? ==> |bytes.value| < 256
  {
    if bytes.None? then [] else [|bytes.value|] + bytes.value
  }

  function SectionSize(bytes: Option<seq<byte>>): nat {
    if bytes.None? then 0 else 1 + |bytes.value|
  }

  /** The section stands at position at. */
  predicate SectionAt(input: seq<byte>, at: nat, bytes: Option<seq<byte>>) {
    bytes.Some? ==>
      && at + 1 + |bytes.value| <= |input|
      && input[at] == |bytes.value|
      && input[at + 1..at + 1 + |bytes.value|] == bytes.value
  }

  /** Head, payload, destination and source sections and a check byte stand one
      after the other at the start of input. */
  ghost predicate StartsWith(input: seq<byte>, control: byte, payload: seq<byte>,
                             dst: Option<seq<byte>>, src: Option<seq<byte>>) {
    var at := HEAD_SIZE + |payload|;
    var next := at + SectionSize(dst);
    var end := next + SectionSize(src);
    && end < |input|
    && input[1] == FLAG_1 && input[2] == FLAG_2 && input[3] == control && input[4] == |payload|
    && input[HEAD_SIZE..at] == payload
    && dst.Some? == DstBit(control) && SectionAt(input, at, dst)
    && src.Some? == SrcBit(control) && SectionAt(input, next, src)
    && (src.Some? ==> src.value != [])
    && input[end] == XorRange(input, 3, end)
  }

  ghost predicate Accepts(input: seq<byte>, control: byte, payload: seq<byte>) {
    exists dst, src :: StartsWith(input, control, payload, dst, src)
  }

  /** The address read from the source section: its first two bytes, high first,
      or its only byte and the check byte behind it. */
  ghost predicate SentFrom(input: seq<byte>, control: byte, payload: seq<byte>, address: Option<nat>) {
    exists dst, src :: StartsWith(input, control, payload, dst, src) && AddressRead(input, payload, dst, src, address)
  }

  ghost predicate AddressRead(input: seq<byte>, payload: seq<byte>, dst: Option<seq<byte>>, src: Option<seq<byte>>, address: Option<nat>) {
    && (src.None? ==> address == None)
    && (src.Some? && |src.value| >= 2 ==> address == Some(256 * (src.value[0] as nat) + src.value[1] as nat))
    && (src.Some? && |src.value| == 1 ==>
          var end := HEAD_SIZE + |payload| + SectionSize(dst) + 2;
          end < |input| && address == Some(256 * (src.value[0] as nat) + input[end] as nat))
  }

  ghost predicate AcceptsNothing(input: seq<byte>) {
    forall control: byte, payload :: !Accepts(input, control, payload)
  }

  /** What Mux hands out; the address is sent as two bytes, high first. The check
      byte stands where the length byte says. */
  function Frame(payload: seq<byte>, address: Option<nat>, control: byte): (f: seq<byte>)
    requires LengthByte(payload, address) >= 3
    ensures |f| == LengthByte(payload, address) + 1
  {
    var unchecked, n := Unchecked(payload, address, control), LengthByte(payload, address);
    unchecked[..n] + [XorRange(unchecked, 3, n)]
  }

  function Unchecked(payload: seq<byte>, address: Option<nat>, control: byte): (f: seq<byte>)
    ensures |f| == FrameSize(payload, address) - 1
  {
    [LengthByte(payload, address), FLAG_1, FLAG_2, MaskedControl(control, address.Some?), |payload| % 256]
    + payload + Section(AddressBytes(address))
  }

  function FrameSize(payload: seq<byte>, address: Option<nat>): nat {
    HEAD_SIZE + |payload| + (if address.Some? then ADDRESS_SECTION else 0) + 1
  }

  /** The frame size less one, in the eight bits that Mux keeps it in. */
  function LengthByte(payload: seq<byte>, address: Option<nat>): (n: byte)
    ensures n < FrameSize(payload, address)
    ensures n == FrameSize(payload, address) - 1 <==> FrameSize(payload, address) <= 256
  {
    (FrameSize(payload, address) - 1) % 256
  }

  function AddressBytes(address: Option<nat>): Option<seq<byte>> {
    if address.None? then None else Some([address.value / 256 % 256, address.value % 256])
  }

  // ---------------------------------------------------------------- the code

  method GenCheckCode(data: array<byte>, from: nat, length: nat) returns (code: byte)
    requires from + length <= data.Length
    ensures code == XorRange(data[..], from, from + length)
  {
    code := 0;
    var i := 0;
    while i < length
      invariant 0 <= i <= length
      invariant code == XorRange(data[..], from, from + i)
    {
      code := XorByte(code, data[from + i]);
      i := i + 1;
    }
  }

  /** Mux. With a length byte below 3 the check code's loop would not end within
      the frame. */
  method Mux(input: seq<byte>, address: Option<nat>, control: byte, output: array<byte>) returns (outputLength: nat)
    requires LengthByte(input, address) >= 3 && FrameSize(input, address) <= output.Length
    modifies output
    ensures outputLength == LengthByte(input, address) + 1
    ensures output[..outputLength] == Frame(input, address, control)
    ensures forall k :: outputLength <= k < FrameSize(input, address) - 1 ==> output[k] == Unchecked(input, address, control)[k]
    ensures forall k :: outputLength <= k && FrameSize(input, address) - 1 <= k < output.Length ==> output[k] == old(output[k])
  {
    var length := WriteFields(input, address, control, output);
    ghost var unchecked := Unchecked(input, address, control);
    hide Unchecked, LengthByte, XorByte, MaskedControl;
    assert output[..|unchecked|] == unchecked;
    Agree(output[..], unchecked);
    XorRangeSame(output[..], unchecked, 3, length);
    var code := GenCheckCode(output, 3, length - 3);
    output[length] := code;
    outputLength := length + 1;
    assert output[..length] == unchecked[..length];
    assert output[..outputLength] == unchecked[..length] + [code];
  }

  lemma {:induction false} Agree(a: seq<byte>, b: seq<byte>)
    requires |b| <= |a| && a[..|b|] == b
    ensures forall i :: 0 <= i < |b| ==> a[i] == b[i]
  {
  }

  /** Mux, field by field, up to the check byte. */
  method WriteFields(input: seq<byte>, address: Option<nat>, control: byte, output: array<byte>) returns (length: nat)
    requires FrameSize(input, address) <= output.Length
    modifies output
    ensures length == LengthByte(input, address)
    ensures output[..FrameSize(input, address) - 1] == Unchecked(input, address, control)
    ensures forall k :: FrameSize(input, address) - 1 <= k < output.Length ==> output[k] == old(output[k])
  {
    hide Unchecked, Section, AddressBytes, MaskedControl;
    WriteHead(input, control, output);
    length := (HEAD_SIZE - 1 + |input| + 1) % 256;
    if address.Some? {
      output[3] := output[3] + 4;
      output[HEAD_SIZE + |input|] := 2;
      output[HEAD_SIZE + |input| + 1] := address.value / 256 % 256;
      output[HEAD_SIZE + |input| + 2] := address.value % 256;
      AddedLater(HEAD_SIZE + |input|, ADDRESS_SECTION);
      length := (length + ADDRESS_SECTION) % 256;
    }
    output[0] := length;
    KeptControl(control, address.Some?);
    hide LengthByte, WriteBit, SwitchBit;
    SameBytes(output[..FrameSize(input, address) - 1], input, address, control);
  }

  /** The fields before the address. */
  method WriteHead(input: seq<byte>, control: byte, output: array<byte>)
    requires HEAD_SIZE + |input| <= output.Length
    modifies output
    ensures output[1] == FLAG_1 && output[2] == FLAG_2 && output[4] == |input| % 256
    ensures output[3] == (if WriteBit(control) then 1 else 0) + (if SwitchBit(control) then 128 else 0)
    ensures forall i :: HEAD_SIZE <= i < HEAD_SIZE + |input| ==> output[i] == input[i - HEAD_SIZE]
    ensures forall k :: HEAD_SIZE + |input| <= k < output.Length ==> output[k] == old(output[k])
  {
    hide WriteBit, SwitchBit;
    output[1] := FLAG_1;
    output[2] := FLAG_2;
    output[3] := (if WriteBit(control) then 1 else 0) + (if SwitchBit(control) then 128 else 0);
    output[4] := |input| % 256;
    forall i | 0 <= i < |input| {
      output[HEAD_SIZE + i] := input[i];
    }
  }

  lemma {:induction false} KeptControl(control: byte, addressed: bool)
    ensures MaskedControl(control, addressed)
         == (if WriteBit(control) then 1 else 0) + (if SwitchBit(control) then 128 else 0) + (if addressed then 4 else 0)
  {
  }

  lemma {:induction false} AddedLater(a: nat, b: nat)
    ensures (a % 256 + b) % 256 == (a + b) % 256
  {
  }

  /** Bytes that agree with an unchecked frame position by position are one. */
  lemma {:induction false} SameBytes(s: seq<byte>, payload: seq<byte>, address: Option<nat>, control: byte)
    requires |s| == FrameSize(payload, address) - 1
    requires s[0] == LengthByte(payload, address) && s[1] == FLAG_1 && s[2] == FLAG_2
    requires s[3] == MaskedControl(control, address.Some?) && s[4] == |payload| % 256
    requires forall i :: HEAD_SIZE <= i < HEAD_SIZE + |payload| ==> s[i] == payload[i - HEAD_SIZE]
    requires address.Some? ==>
               var at := HEAD_SIZE + |payload|;
               && s[at] == 2 && s[at + 1] == address.value / 256 % 256 && s[at + 2] == address.value % 256
    ensures s == Unchecked(payload, address, control)
  {
    UncheckedAt(payload, address, control);
    hide Unchecked, MaskedControl, LengthByte;
    var u := Unchecked(payload, address, control);
    forall k | 0 <= k < |s| ensures s[k] == u[k] {
    }
  }

  /** The bytes of a frame by position. */
  lemma {:induction false} UncheckedAt(payload: seq<byte>, address: Option<nat>, control: byte)
    ensures var u := Unchecked(payload, address, control);
            && u[0] == LengthByte(payload, address) && u[1] == FLAG_1 && u[2] == FLAG_2
            && u[3] == MaskedControl(control, address.Some?) && u[4] == |payload| % 256
            && (forall i :: HEAD_SIZE <= i < HEAD_SIZE + |payload| ==> u[i] == payload[i - HEAD_SIZE])
            && (address.Some? ==>
                  var at := HEAD_SIZE + |payload|;
                  && u[at] == 2 && u[at + 1] == address.value / 256 % 256 && u[at + 2] == address.value % 256)
  {
    hide MaskedControl, LengthByte;
  }

  datatype Parsed = NotAccepted | Accepted(payload: seq<byte>, control: byte, address: Option<nat>)

  /** DeMux. Every failure reads as "not accepted": the function keeps its
      result code in a bool. */
  method DeMux(input: array<byte>, inputLength: nat) returns (r: Parsed)
    requires inputLength <= input.Length
    ensures r.Accepted? ==> Accepts(input[..inputLength], r.control, r.payload)
    ensures r.Accepted? ==> SentFrom(input[..inputLength], r.control, r.payload, r.address)
    ensures r.NotAccepted? ==> AcceptsNothing(input[..inputLength])
  {
    ghost var s := input[..inputLength];
    var end, address := FindEnd(input, inputLength);
    if end.None? {
      OnlyCompleteAccepted(s);
      return NotAccepted;
    }
    var code := GenCheckCode(input, 3, end.value - 3);
    assert Complete(s) <==> input[end.value] == code by {
      XorRangeSame(input[..], s, 3, end.value);
    }
    if input[end.value] != code {
      OnlyCompleteAccepted(s);
      return NotAccepted;
    }
    CompleteAccepted(s);
    SourceRead(s);
    SliceOfPrefix(input[..], inputLength, HEAD_SIZE, HEAD_SIZE + s[4]);
    r := Accepted(input[HEAD_SIZE..HEAD_SIZE + input[4]], input[3], address);
  }

  lemma {:induction false} SliceOfPrefix(s: seq<byte>, n: nat, a: nat, b: nat)
    requires a <= b <= n <= |s|
    ensures s[..n][a..b] == s[a..b]
  {
  }

  /** The part of DeMux that advances cur_length over the sections; None where
      DeMux gives up before it looks at the check byte. */
  method FindEnd(input: array<byte>, inputLength: nat) returns (end: Option<nat>, address: Option<nat>)
    requires inputLength <= input.Length
    ensures end.Some? == HasAllParts(input[..inputLength])
    ensures end.Some? ==> end.value == AfterSrc(input[..inputLength])
    ensures end.Some? ==> address == SourceAt(input[..inputLength])
  {
    end, address := None, None;
    if HEAD_SIZE >= inputLength {
      return;
    }
    if input[1] != FLAG_1 || input[2] != FLAG_2 {
      return;
    }
    var curLength := HEAD_SIZE + input[4];
    if DstBit(input[3]) {
      if curLength + 1 >= inputLength {
        return;
      }
      curLength := curLength + 1 + input[curLength];
    }
    if SrcBit(input[3]) {
      if curLength + 1 >= inputLength {
        return;
      }
      var size := input[curLength];
      if size == 0 {
        return;
      }
      if curLength + 1 + size >= inputLength {
        return;
      }
      var high: nat, low: nat := input[curLength + 1], input[curLength + 2];
      address := Some(high * 256 + low);
      curLength := curLength + 1 + size;
    }
    if curLength + 1 > inputLength {
      return;
    }
    end := Some(curLength);
  }

  // ---------------------------------------------------------------- positions

  /** Where the destination section ends; |s| when its size byte is missing. */
  function AfterDst(s: seq<byte>): nat
    requires |s| > HEAD_SIZE
  {
    var at := HEAD_SIZE + s[4];
    if !DstBit(s[3]) then at else if at < |s| then at + 1 + s[at] else |s|
  }

  function AfterSrc(s: seq<byte>): nat
    requires |s| > HEAD_SIZE
  {
    var at := AfterDst(s);
    if !SrcBit(s[3]) then at else if at < |s| then at + 1 + s[at] else |s|
  }

  /** The address in the source section, where its place says it is. */
  function SourceAt(s: seq<byte>): Option<nat>
    requires HasAllParts(s)
  {
    if SrcBit(s[3]) then Some(256 * (s[AfterDst(s) + 1] as nat) + s[AfterDst(s) + 2] as nat) else None
  }

  predicate HasAllParts(s: seq<byte>) {
    && |s| > HEAD_SIZE && s[1] == FLAG_1 && s[2] == FLAG_2
    && (SrcBit(s[3]) ==> AfterDst(s) < |s| && s[AfterDst(s)] != 0)
    && AfterSrc(s) < |s|
  }

  /** All parts are there, and the check byte agrees. */
  predicate Complete(s: seq<byte>) {
    HasAllParts(s) && s[AfterSrc(s)] == XorRange(s, 3, AfterSrc(s))
  }

  /** Reading the parts off their places finds the only frame there can be. */
  lemma {:induction false} Positions(s: seq<byte>, control: byte, payload: seq<byte>, dst: Option<seq<byte>>, src: Option<seq<byte>>)
    requires StartsWith(s, control, payload, dst, src)
    ensures Complete(s) && HEAD_SIZE + |payload| < |s|
    ensures control == s[3] && payload == s[HEAD_SIZE..HEAD_SIZE + s[4]]
    ensures AfterSrc(s) == HEAD_SIZE + |payload| + SectionSize(dst) + SectionSize(src)
  {
  }

  lemma {:induction false} OnlyCompleteAccepted(s: seq<byte>)
    ensures !Complete(s) ==> AcceptsNothing(s)
  {
    forall c: byte, p ensures Accepts(s, c, p) ==> Complete(s) {
      if dst, src :| StartsWith(s, c, p, dst, src) {
        Positions(s, c, p, dst, src);
      }
    }
  }

  lemma {:induction false} CompleteAccepted(s: seq<byte>)
    requires Complete(s)
    ensures HEAD_SIZE + s[4] <= |s| && Accepts(s, s[3], s[HEAD_SIZE..HEAD_SIZE + s[4]])
  {
    hide XorRange;
    var at, next, end := HEAD_SIZE + s[4], AfterDst(s), AfterSrc(s);
    var dst := if DstBit(s[3]) then Some(s[at + 1..next]) else None;
    var src := if SrcBit(s[3]) then Some(s[next + 1..end]) else None;
    assert SectionAt(s, at, dst) && SectionAt(s, next, src);
    assert StartsWith(s, s[3], s[HEAD_SIZE..at], dst, src);
  }

  lemma {:induction false} SourceRead(s: seq<byte>)
    requires Complete(s)
    ensures HEAD_SIZE + s[4] <= |s| && SentFrom(s, s[3], s[HEAD_SIZE..HEAD_SIZE + s[4]], SourceAt(s))
  {
    hide XorRange;
    var at, next, end := HEAD_SIZE + s[4], AfterDst(s), AfterSrc(s);
    var dst := if DstBit(s[3]) then Some(s[at + 1..next]) else None;
    var src := if SrcBit(s[3]) then Some(s[next + 1..end]) else None;
    assert SectionAt(s, at, dst) && SectionAt(s, next, src);
    assert StartsWith(s, s[3], s[HEAD_SIZE..at], dst, src);
    if SrcBit(s[3]) {
      assert src.value[0] == s[next + 1];
      if |src.value| >= 2 {
        assert src.value[1] == s[next + 2];
      }
    }
    hide StartsWith, AfterSrc, AfterDst;
    assert AddressRead(s, s[HEAD_SIZE..at], dst, src, SourceAt(s));
  }

  /** And only one address can be read. */
  lemma {:induction false} SourceUnique(s: seq<byte>, c: byte, p: seq<byte>, a: Option<nat>, b: Option<nat>)
    requires SentFrom(s, c, p, a) && SentFrom(s, c, p, b)
    ensures a == b
  {
    hide StartsWith, AddressRead;
    var d, f :| StartsWith(s, c, p, d, f) && AddressRead(s, p, d, f, a);
    var d', f' :| StartsWith(s, c, p, d', f') && AddressRead(s, p, d', f', b);
    SectionsUnique(s, c, p, d, f, d', f');
    AddressUnique(s, p, d, f, a, b);
  }

  lemma {:induction false} AddressUnique(s: seq<byte>, p: seq<byte>, d: Option<seq<byte>>, f: Option<seq<byte>>, a: Option<nat>, b: Option<nat>)
    requires AddressRead(s, p, d, f, a) && AddressRead(s, p, d, f, b) && (f.Some? ==> f.value != [])
    ensures a == b
  {
  }

  lemma {:induction false} SectionsUnique(s: seq<byte>, c: byte, p: seq<byte>, d: Option<seq<byte>>, f: Option<seq<byte>>,
                                          d': Option<seq<byte>>, f': Option<seq<byte>>)
    requires StartsWith(s, c, p, d, f) && StartsWith(s, c, p, d', f')
    ensures d == d' && f == f' && (f.Some? ==> f.value != [])
  {
    hide XorRange;
  }

  // ---------------------------------------------------------------- results

  /** No bytes start with two different frames. */
  lemma {:induction false} AcceptedUnique(s: seq<byte>, c: byte, p: seq<byte>, c': byte, p': seq<byte>)
    requires Accepts(s, c, p) && Accepts(s, c', p')
    ensures c == c' && p == p'
  {
    var d, f :| StartsWith(s, c, p, d, f);
    var d', f' :| StartsWith(s, c', p', d', f');
    Positions(s, c, p, d, f);
    Positions(s, c', p', d', f');
  }

  /** What Mux builds, DeMux reads back, whatever follows it in the buffer. */
  lemma {:induction false} FrameRoundTrip(payload: seq<byte>, address: Option<nat>, control: byte, rest: seq<byte>)
    requires FrameSize(payload, address) <= 256
    ensures Accepts(Frame(payload, address, control) + rest, MaskedControl(control, address.Some?), payload)
    ensures StartsWith(Frame(payload, address, control) + rest, MaskedControl(control, address.Some?), payload,
                       if address.None? then None else Some([address.value / 256 % 256, address.value % 256]), None)
  {
    hide XorRange;
    var f := Frame(payload, address, control);
    var s := f + rest;
    var u := Unchecked(payload, address, control);
    UncheckedAt(payload, address, control);
    assert forall i :: 0 <= i < |u| ==> s[i] == u[i];
    XorRangeSame(s, u, 3, |u|);
    assert s[|u|] == XorRange(u, 3, |u|);
    FrameStarts(s, u, payload, address, control);
  }

  lemma {:induction false} FrameStarts(s: seq<byte>, u: seq<byte>, payload: seq<byte>, address: Option<nat>, control: byte)
    requires u == Unchecked(payload, address, control) && |u| < |s| && |payload| < 256
    requires (forall i :: 0 <= i < |u| ==> s[i] == u[i]) && s[|u|] == XorRange(s, 3, |u|)
    ensures StartsWith(s, MaskedControl(control, address.Some?), payload, AddressBytes(address), None)
  {
    hide XorRange;
    UncheckedAt(payload, address, control);
    hide Unchecked, LengthByte;
    assert s[HEAD_SIZE..HEAD_SIZE + |payload|] == payload;
    if address.Some? {
      var at := HEAD_SIZE + |payload|;
      assert s[at + 1..at + 3] == AddressBytes(address).value;
    }
  }

  /** It does so exactly when the frame fits 256 bytes. */
  lemma {:induction false} ReadBackIff(payload: seq<byte>, address: Option<nat>, control: byte)
    requires LengthByte(payload, address) >= 3
    ensures Accepts(Frame(payload, address, control), MaskedControl(control, address.Some?), payload)
       <==> FrameSize(payload, address) <= 256
  {
    var f, c := Frame(payload, address, control), MaskedControl(control, address.Some?);
    if FrameSize(payload, address) <= 256 {
      FrameRoundTrip(payload, address, control, []);
      assert f + [] == f;
    } else {
      hide Frame, MaskedControl, XorRange;
    }
  }

  lemma {:induction false} XorRangeChanged(s: seq<byte>, i: nat, x: byte, from: nat, to: nat)
    requires from <= i < to <= |s|
    ensures XorRange(s[i := x], from, to) == XorRange(s, from, to) <==> x == s[i]
  {
    var t := s[i := x];
    if i == to - 1 {
      XorRangeSame(s, t, from, to - 1);
      XorCancel(XorRange(s, from, to - 1), x);
      XorCancel(XorRange(s, from, to - 1), s[i]);
    } else {
      XorRangeChanged(s, i, x, from, to - 1);
      XorCancel(XorRange(s, from, to - 1), s[to - 1]);
      XorCancel(XorRange(t, from, to - 1), s[to - 1]);
    }
  }

  /** Every byte of a frame but four is guarded: changing a flag, a payload
      byte, an address byte or the check byte leaves nothing DeMux accepts.
      The first byte is never read by DeMux, and the control, data length and
      address size bytes decide where the check byte is looked for. */
  lemma {:induction false} CorruptionRejected(payload: seq<byte>, address: Option<nat>, control: byte, rest: seq<byte>, i: nat, x: byte)
    requires FrameSize(payload, address) <= 256
    requires i < FrameSize(payload, address) && x != Frame(payload, address, control)[i]
    requires i !in {0, 3, 4} && (address.Some? ==> i != HEAD_SIZE + |payload|)
    ensures AcceptsNothing(Frame(payload, address, control)[i := x] + rest)
  {
    var f := Frame(payload, address, control);
    var u := Unchecked(payload, address, control);
    var s := f[i := x] + rest;
    FrameWhole(payload, address, control);
    hide *;
    assert s[..|f|] == f[i := x];
    OnlyCompleteAccepted(s);
    BytesBefore(s, payload, address, control, i, x);
    if i > 2 {
      EndUnmoved(s, payload, address, control);
      CheckByteMoved(f, u, s, i, x);
    }
    CompleteParts(s);
  }

  lemma {:induction false} BytesBefore(s: seq<byte>, payload: seq<byte>, address: Option<nat>, control: byte, i: nat, x: byte)
    requires FrameSize(payload, address) <= 256 && 0 < i < FrameSize(payload, address) <= |s|
    requires var f := Frame(payload, address, control); s[..|f|] == f[i := x] && x != f[i]
    ensures FrameSize(payload, address) > HEAD_SIZE + |payload|
    ensures i == 1 ==> s[1] != FLAG_1
    ensures i == 2 ==> s[2] != FLAG_2
    ensures i != 3 ==> s[3] == MaskedControl(control, address.Some?)
    ensures i != 4 ==> s[4] == |payload|
    ensures address.Some? && i != HEAD_SIZE + |payload| ==> s[HEAD_SIZE + |payload|] == 2
  {
    var f, u := Frame(payload, address, control), Unchecked(payload, address, control);
    UncheckedAt(payload, address, control);
    FrameWhole(payload, address, control);
    hide Frame, Unchecked, LengthByte, MaskedControl;
    assert forall k :: 0 <= k < |u| ==> s[k] == s[..|f|][k] == f[i := x][k] && f[k] == u[k];
  }

  lemma {:induction false} EndUnmoved(s: seq<byte>, payload: seq<byte>, address: Option<nat>, control: byte)
    requires |s| > HEAD_SIZE + |payload| && s[3] == MaskedControl(control, address.Some?) && s[4] == |payload|
    requires address.Some? ==> s[HEAD_SIZE + |payload|] == 2
    ensures AfterSrc(s) == FrameSize(payload, address) - 1
  {
    hide MaskedControl;
  }

  lemma {:induction false} CompleteParts(s: seq<byte>)
    ensures Complete(s) ==>
              && |s| > HEAD_SIZE && s[1] == FLAG_1 && s[2] == FLAG_2
              && AfterSrc(s) < |s| && s[AfterSrc(s)] == XorRange(s, 3, AfterSrc(s))
  {
    hide AfterSrc, XorRange;
  }

  /** A frame that fits is its fields and their check byte. */
  lemma {:induction false} FrameWhole(payload: seq<byte>, address: Option<nat>, control: byte)
    requires FrameSize(payload, address) <= 256
    ensures var f, u := Frame(payload, address, control), Unchecked(payload, address, control);
            f == u + [XorRange(u, 3, |u|)] && |f| == FrameSize(payload, address) == |u| + 1
  {
    hide XorRange, MaskedControl, Section, AddressBytes;
    var u := Unchecked(payload, address, control);
    assert u[..|u|] == u;
  }

  lemma {:induction false} CheckByteMoved(f: seq<byte>, u: seq<byte>, s: seq<byte>, i: nat, x: byte)
    requires f == u + [XorRange(u, 3, |u|)] && 3 <= i < |f| <= |s| && x != f[i]
    requires s[..|f|] == f[i := x]
    ensures s[|u|] != XorRange(s, 3, |u|)
  {
    hide XorByte;
    var g := f[i := x];
    assert forall k :: 0 <= k < |f| ==> s[k] == s[..|f|][k] == g[k];
    XorRangeSame(f, u, 3, |u|);
    XorRangeSame(s, g, 3, |u|);
    hide XorRange;
    if i < |u| {
      XorRangeChanged(f, i, x, 3, |u|);
    } else {
      XorRangeSame(g, f, 3, |u|);
    }
  }
}
