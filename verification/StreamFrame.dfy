/** The masked stream frame of imp/network/protocal_stream.cpp. */
module StreamFrame {
  import opened Bits
  import opened Bytes
  import opened Containers

  const VERSION: nat := 1
  const MIN_SIZE: nat := 16
  const MAX_TIME_DIFF: nat := 300_000
  const TWO_TO_THE_32: nat := 0x1_0000_0000
  const TWO_TO_THE_64: nat := 0x1_0000_0000_0000_0000

  datatype Header = Header(version: nat, reserved: nat, checkCode: byte, headerLength: nat, payloadLength: nat, timestamp: nat)

  // ---------------------------------------------------------------- meaning

  /** Exclusive or with the mask, again and again. */
  function Masked(data: seq<byte>, mask: seq<byte>): (r: seq<byte>)
    requires mask != []
    ensures |r| == |data| && forall i :: 0 <= i < |data| ==> r[i] == XorByte(data[i], mask[i % |mask|])
  {
    seq(|data|, i requires 0 <= i < |data| => XorByte(data[i], mask[i % |mask|]))
  }

  lemma {:induction false} MaskedTwice(data: seq<byte>, mask: seq<byte>)
    requires mask != []
    ensures Masked(Masked(data, mask), mask) == data
  {
    forall i | 0 <= i < |data| ensures Masked(Masked(data, mask), mask)[i] == data[i] {
      XorCancel(data[i], mask[i % |mask|]);
    }
  }

  /** The check byte: all bytes sum to 0 with it. */
  function CheckCode(header: seq<byte>, payload: seq<byte>): byte {
    (0x100 - (Sum(header) + Sum(payload)) % 256) % 256
  }

  /** The frame sent at a time stamp. */
  function Frame(header: seq<byte>, payload: seq<byte>, timestamp: nat): (f: seq<byte>)
    ensures |f| == MIN_SIZE + |header| + |payload|
  {
    [VERSION, CheckCode(header, payload)] + ToBigEndian(|header|, 2) + ToBigEndian(|payload|, 4)
    + ToBigEndian(timestamp, 8) + Masked(header + payload, ToBigEndian(timestamp, 8))
  }

  /** The fields at the front of data. */
  function HeaderOf(data: seq<byte>): Header
    requires |data| >= MIN_SIZE
  {
    Header(data[0] % 16, data[0] / 16, data[1], BigEndian(data[2..4]), BigEndian(data[4..8]), BigEndian(data[8..16]))
  }

  /** What bufferToFrame reads out of a whole buffer. */
  function Opened(data: seq<byte>): Option<(Header, seq<byte>, seq<byte>)> {
    if |data| < MIN_SIZE then None
    else
      var h := HeaderOf(data);
      if MIN_SIZE + h.headerLength + h.payloadLength != |data| then None
      else
        var body := Masked(data[MIN_SIZE..], data[8..16]);
        var header, payload := body[..h.headerLength], body[h.headerLength..];
        if CheckCode(header, payload) != h.checkCode then None else Some((h, header, payload))
  }

  /** decodeFrame at the sampled time now: how long the frame at the front is, 0
      when more bytes are needed, and more than there is when it cannot be one. */
  function DecodeFrame(data: seq<byte>, maxFrameSize: nat, now: nat): nat {
    if |data| < MIN_SIZE then 0
    else
      var h := HeaderOf(data);
      var needSize := (MIN_SIZE + h.headerLength + h.payloadLength) % TWO_TO_THE_32;
      if h.version != VERSION || h.reserved != 0 || needSize > maxFrameSize
         || (h.timestamp < now && now - h.timestamp > MAX_TIME_DIFF) then maxFrameSize + |data|
      else if needSize > |data| then 0
      else needSize
  }

  // ---------------------------------------------------------------- the code

  method CalculateCheckCode(header: seq<byte>, payload: seq<byte>) returns (code: byte)
    ensures code == CheckCode(header, payload)
  {
    var sum := SumUp(0, header);
    sum := SumUp(sum, payload);
    PartialSum(Sum(header), Sum(payload));
    code := (0x100 - sum as nat) % 256;
  }

  /** encryptPayload, in place. */
  method EncryptPayload(mask: seq<byte>, buf: array<byte>, dataAt: nat, dataLen: nat)
    requires mask != [] && dataAt + dataLen <= buf.Length
    modifies buf
    ensures buf[dataAt..dataAt + dataLen] == Masked(old(buf[dataAt..dataAt + dataLen]), mask)
    ensures buf[..dataAt] == old(buf[..dataAt])
  {
    ghost var before := buf[..];
    for offset := 0 to dataLen
      invariant forall k :: 0 <= k < dataAt || dataAt + offset <= k < buf.Length ==> buf[k] == before[k]
      invariant forall k :: 0 <= k < offset ==> buf[dataAt + k] == XorByte(before[dataAt + k], mask[k % |mask|])
    {
      hide Xor, XorByte;
      assert 0 <= offset % |mask| < |mask|;
      buf[dataAt + offset] := XorByte(buf[dataAt + offset], mask[offset % |mask|]);
    }
  }

  ghost function Concat(parts: seq<seq<byte>>): seq<byte> {
    if parts == [] then [] else Concat(parts[..|parts| - 1]) + parts[|parts| - 1]
  }

  /** encodeFrame: the seven parts one after the other, the last two masked with
      the fifth. */
  method EncodeFrame(parts: seq<seq<byte>>, maxFrameSize: nat) returns (buf: array?<byte>, len: nat)
    requires |Concat(parts)| < TWO_TO_THE_32
    requires |parts| <= 7 && (|parts| == 7 ==> parts[4] != [])
    ensures buf == null <==> |parts| < 7 || |Concat(parts)| > maxFrameSize
    ensures buf == null ==> len == 0
    ensures buf != null ==>
              && fresh(buf) && len == |Concat(parts)| && len < buf.Length
              && buf[..len] == Concat(parts[..5]) + Masked(parts[5] + parts[6], parts[4])
  {
    var totalLen := 0;
    for i := 0 to |parts|
      invariant totalLen == |Concat(parts[..i])|
    {
      assert parts[..i + 1][..i] == parts[..i];
      totalLen := totalLen + |parts[i]|;
    }
    assert parts[..|parts|] == parts;
    if |parts| < 7 || totalLen > maxFrameSize {
      return null, 0;
    }
    len := totalLen;
    buf := new byte[totalLen + 1];
    hide *;
    Fill(buf, parts);
  }

  /** The copies and the masking of encodeFrame. */
  method Fill(buf: array<byte>, parts: seq<seq<byte>>)
    requires |parts| == 7 && |Concat(parts)| <= buf.Length && parts[4] != []
    modifies buf
    ensures buf[..|Concat(parts)|] == Concat(parts[..5]) + Masked(parts[5] + parts[6], parts[4])
  {
    var timestampOffset := WriteParts(buf, parts);
    hide *;
    ghost var head, body, n := Concat(parts[..4]), parts[5] + parts[6], |Concat(parts)|;
    LastParts(parts);
    var at, dataLen := timestampOffset + |parts[4]|, |parts[5]| + |parts[6]|;
    Slices(buf[..n], head, parts[4], body);
    assert buf[..at] == buf[..n][..at] && buf[at..at + dataLen] == buf[..n][at..];
    EncryptPayload(parts[4], buf, at, dataLen);
    assert buf[..n] == buf[..at] + buf[at..at + dataLen];
  }

  lemma {:induction false} LastParts(parts: seq<seq<byte>>)
    requires |parts| == 7
    ensures Concat(parts) == Concat(parts[..4]) + parts[4] + (parts[5] + parts[6])
    ensures Concat(parts[..5]) == Concat(parts[..4]) + parts[4]
  {
    assert parts[..6] == parts[..7][..6] && parts[..6][..5] == parts[..5] && parts[..5][..4] == parts[..4];
    assert Concat(parts) == Concat(parts[..6]) + parts[6];
    assert Concat(parts[..6]) == Concat(parts[..5]) + parts[5];
  }

  lemma {:induction false} Slices(s: seq<byte>, a: seq<byte>, b: seq<byte>, c: seq<byte>)
    requires s == a + b + c
    ensures s[..|a| + |b|] == a + b && s[|a|..|a| + |b|] == b && s[|a| + |b|..] == c
  {
  }

  /** The copies into the fresh buffer; the answer is where the time stamp is. */
  method WriteParts(buf: array<byte>, parts: seq<seq<byte>>) returns (timestampOffset: nat)
    requires |parts| == 7 && |Concat(parts)| <= buf.Length
    modifies buf
    ensures buf[..|Concat(parts)|] == Concat(parts) && timestampOffset == |Concat(parts[..4])|
  {
    var offset := 0;
    timestampOffset := 0;
    assert parts[..0] == [];
    for i := 0 to |parts|
      invariant offset == |Concat(parts[..i])| && Concat(parts[..i]) <= Concat(parts) && buf[..offset] == Concat(parts[..i])
      invariant i > 4 ==> timestampOffset == |Concat(parts[..4])|
    {
      hide Concat;
      ConcatNext(parts, i);
      if i == 4 {
        timestampOffset := offset;
      }
      CopyTo(buf, offset, parts[i]);
      assert buf[..offset + |parts[i]|] == buf[..offset] + buf[offset..offset + |parts[i]|];
      offset := offset + |parts[i]|;
    }
    assert parts[..|parts|] == parts;
  }

  lemma {:induction false} ConcatNext(parts: seq<seq<byte>>, i: nat)
    requires i < |parts|
    ensures Concat(parts[..i + 1]) == Concat(parts[..i]) + parts[i] && Concat(parts[..i + 1]) <= Concat(parts)
  {
    assert parts[..i + 1][..i] == parts[..i];
    ConcatPrefix(parts, i + 1);
  }

  lemma {:induction false} ConcatPrefix(parts: seq<seq<byte>>, i: nat)
    requires i <= |parts|
    ensures Concat(parts[..i]) <= Concat(parts)
    decreases |parts|
  {
    if i == |parts| {
      assert parts[..i] == parts;
    } else {
      ConcatPrefix(parts[..|parts| - 1], i);
      assert parts[..|parts| - 1][..i] == parts[..i];
    }
  }

  /** packetFrame at the sampled time now. */
  method PacketFrame(header: seq<byte>, payload: seq<byte>, now: nat, maxFrameSize: nat) returns (buf: array?<byte>, len: nat)
    requires |header| < 0x1_0000 && MIN_SIZE + |header| + |payload| < TWO_TO_THE_32 && now < TWO_TO_THE_64
    ensures buf == null <==> MIN_SIZE + |header| + |payload| > maxFrameSize
    ensures buf != null ==> len == MIN_SIZE + |header| + |payload| < buf.Length && buf[..len] == Frame(header, payload, now)
  {
    hide Masked, CheckCode, ToBigEndian;
    var checkCode := CalculateCheckCode(header, payload);
    var inputList := [[VERSION], [checkCode], ToBigEndian(|header|, 2), ToBigEndian(|payload|, 4), ToBigEndian(now, 8), header, payload];
    Parts(inputList);
    buf, len := EncodeFrame(inputList, maxFrameSize);
  }

  lemma {:induction false} Parts(parts: seq<seq<byte>>)
    requires |parts| == 7
    ensures Concat(parts) == parts[0] + parts[1] + parts[2] + parts[3] + parts[4] + (parts[5] + parts[6])
    ensures Concat(parts[..5]) == parts[0] + parts[1] + parts[2] + parts[3] + parts[4]
  {
    LastParts(parts);
    assert parts[..4][..3] == parts[..3] && parts[..3][..2] == parts[..2] && parts[..2][..1] == parts[..1] && parts[..1][..0] == [];
    assert Concat(parts[..1]) == parts[0] && Concat(parts[..2]) == parts[0] + parts[1];
    assert Concat(parts[..3]) == parts[0] + parts[1] + parts[2];
  }

  /** Where bufferToFrame stops reading: its size test goes by the sum of the
      lengths in 32 bits, its check by the lengths. */
  function ReadEnd(h: Header, bufLen: nat): nat {
    if (MIN_SIZE + h.headerLength + h.payloadLength) % TWO_TO_THE_32 != bufLen then MIN_SIZE
    else MIN_SIZE + h.headerLength + h.payloadLength
  }

  /** bufferToFrame: the header is read, the rest is unmasked in place and
      checked. The answer's header and payload are what then stands in buf. */
  method BufferToFrame(buf: array<byte>, bufLen: nat) returns (ok: bool, header: Header)
    requires bufLen <= buf.Length && bufLen < TWO_TO_THE_32
    requires bufLen >= MIN_SIZE ==> ReadEnd(HeaderOf(buf[..bufLen]), bufLen) <= bufLen
    modifies buf
    ensures ok <==> Opened(old(buf[..bufLen])).Some?
    ensures ok ==> buf[..MIN_SIZE] == old(buf[..MIN_SIZE]) && bufLen == MIN_SIZE + header.headerLength + header.payloadLength
                   && Opened(old(buf[..bufLen])).value ==
                      (header, buf[MIN_SIZE..MIN_SIZE + header.headerLength], buf[MIN_SIZE + header.headerLength..bufLen])
  {
    ok, header := false, Header(0, 0, 0, 0, 0, 0);
    if bufLen < MIN_SIZE {
      return;
    }
    ghost var data := buf[..bufLen];
    header := HeaderOf(buf[..bufLen]);
    var size := (MIN_SIZE + header.headerLength + header.payloadLength) % TWO_TO_THE_32;
    if size != bufLen {
      return;
    }
    assert size == MIN_SIZE + header.headerLength + header.payloadLength;
    hide Masked, HeaderOf, CheckCode, ToBigEndian, BigEndian;
    ok := Check(buf, bufLen, header, data);
  }

  /** The unmasking and the check of bufferToFrame. */
  method Check(buf: array<byte>, bufLen: nat, header: Header, ghost data: seq<byte>) returns (ok: bool)
    requires bufLen <= buf.Length && data == buf[..bufLen] && |data| >= MIN_SIZE && header == HeaderOf(data)
    requires MIN_SIZE + header.headerLength + header.payloadLength == bufLen
    modifies buf
    ensures ok <==> Opened(data).Some?
    ensures ok ==> buf[..MIN_SIZE] == data[..MIN_SIZE]
                   && Opened(data).value ==
                      (header, buf[MIN_SIZE..MIN_SIZE + header.headerLength], buf[MIN_SIZE + header.headerLength..bufLen])
  {
    hide Masked, CheckCode, ToBigEndian, BigEndian;
    var decodeMask := ToBigEndian(header.timestamp, 8);
    ToBigEndianOf(data[8..16]);
    assert buf[MIN_SIZE..bufLen] == data[MIN_SIZE..] && buf[..MIN_SIZE] == data[..MIN_SIZE];
    EncryptPayload(decodeMask, buf, MIN_SIZE, header.payloadLength + header.headerLength);
    var at := MIN_SIZE + header.headerLength;
    Halves(buf[..], MIN_SIZE, at, bufLen);
    var checkCode := CalculateCheckCode(buf[MIN_SIZE..at], buf[at..bufLen]);
    ok := checkCode == header.checkCode;
  }

  lemma {:induction false} Halves(s: seq<byte>, a: nat, b: nat, c: nat)
    requires a <= b <= c <= |s|
    ensures s[a..c][..b - a] == s[a..b] && s[a..c][b - a..] == s[b..c]
  {
  }

  // ---------------------------------------------------------------- results

  /** What fits the header's fields. */
  ghost predicate Sendable(header: seq<byte>, payload: seq<byte>, timestamp: nat) {
    |header| < 0x1_0000 && MIN_SIZE + |header| + |payload| < TWO_TO_THE_32 && timestamp < TWO_TO_THE_64
  }

  /** Where the fields of a frame are. */
  lemma {:induction false} FieldsAt(header: seq<byte>, payload: seq<byte>, timestamp: nat)
    ensures var f := Frame(header, payload, timestamp);
            && f[0] == VERSION && f[1] == CheckCode(header, payload) && f[2..4] == ToBigEndian(|header|, 2)
            && f[4..8] == ToBigEndian(|payload|, 4) && f[8..16] == ToBigEndian(timestamp, 8)
            && f[16..] == Masked(header + payload, ToBigEndian(timestamp, 8))
  {
    hide ToBigEndian, Masked, CheckCode;
  }

  lemma {:induction false} HeaderOfFrame(header: seq<byte>, payload: seq<byte>, timestamp: nat)
    requires Sendable(header, payload, timestamp)
    ensures HeaderOf(Frame(header, payload, timestamp))
         == Header(VERSION, 0, CheckCode(header, payload), |header|, |payload|, timestamp)
  {
    hide ToBigEndian, Masked, CheckCode, Frame, BigEndian;
    FieldsAt(header, payload, timestamp);
    LimitValues();
    BigEndianOf(|header|, 2);
    BigEndianOf(|payload|, 4);
    BigEndianOf(timestamp, 8);
  }

  /** A frame opens to the header and payload it was made from. */
  lemma {:induction false} FrameOpens(header: seq<byte>, payload: seq<byte>, timestamp: nat)
    requires Sendable(header, payload, timestamp)
    ensures Opened(Frame(header, payload, timestamp))
         == Some((Header(VERSION, 0, CheckCode(header, payload), |header|, |payload|, timestamp), header, payload))
  {
    hide ToBigEndian, CheckCode, Frame, BigEndian, HeaderOf, Masked;
    FieldsAt(header, payload, timestamp);
    HeaderOfFrame(header, payload, timestamp);
    MaskedTwice(header + payload, ToBigEndian(timestamp, 8));
    assert (header + payload)[..|header|] == header && (header + payload)[|header|..] == payload;
  }

  /** Only frames open: but for the first byte, an accepted buffer is the frame of
      what it opens to. */
  lemma {:induction false} OnlyFramesOpen(data: seq<byte>)
    requires Opened(data).Some?
    ensures var (h, header, payload) := Opened(data).value;
            data == Frame(header, payload, h.timestamp)[0 := data[0]]
  {
    hide ToBigEndian, CheckCode, BigEndian, Masked;
    var (h, header, payload) := Opened(data).value;
    ToBigEndianOf(data[2..4]);
    ToBigEndianOf(data[4..8]);
    ToBigEndianOf(data[8..16]);
    var body := Masked(data[16..], data[8..16]);
    assert header + payload == body;
    MaskedTwice(data[16..], data[8..16]);
    FieldsAt(header, payload, h.timestamp);
    Reassembled(data, Frame(header, payload, h.timestamp));
  }

  lemma {:induction false} Reassembled(a: seq<byte>, b: seq<byte>)
    requires |a| == |b| >= MIN_SIZE && a[1] == b[1] && a[2..4] == b[2..4] && a[4..8] == b[4..8]
    requires a[8..16] == b[8..16] && a[16..] == b[16..]
    ensures a == b[0 := a[0]]
  {
    forall i | 1 <= i < |a| ensures a[i] == b[i] {
      if 2 <= i < 4 {
        assert a[i] == a[2..4][i - 2] == b[2..4][i - 2];
      } else if 4 <= i < 8 {
        assert a[i] == a[4..8][i - 4] == b[4..8][i - 4];
      } else if 8 <= i < 16 {
        assert a[i] == a[8..16][i - 8] == b[8..16][i - 8];
      } else if 16 <= i {
        assert a[i] == a[16..][i - 16] == b[16..][i - 16];
      }
    }
  }

  /** A buffer that opens no longer does once any one masked byte has changed. */
  lemma {:induction false} CorruptionRejected(data: seq<byte>, i: nat, b: byte)
    requires Opened(data).Some? && MIN_SIZE <= i < |data| && b != data[i]
    ensures Opened(data[i := b]) == None
  {
    var data' := data[i := b];
    hide ToBigEndian, CheckCode, BigEndian;
    var h := HeaderOf(data);
    assert data'[2..4] == data[2..4] && data'[4..8] == data[4..8] && data'[8..16] == data[8..16];
    assert HeaderOf(data') == h;
    var mask := data[8..16];
    var j := i - MIN_SIZE;
    ChangedUnderMask(data[MIN_SIZE..], mask, j, b);
    assert data'[MIN_SIZE..] == data[MIN_SIZE..][j := b];
    hide Masked, HeaderOf;
    CheckChanged(Masked(data[MIN_SIZE..], mask), h.headerLength, j, XorByte(b, mask[j % |mask|]));
  }

  lemma {:induction false} ChangedUnderMask(body: seq<byte>, mask: seq<byte>, j: nat, b: byte)
    requires mask != [] && j < |body| && b != body[j]
    ensures Masked(body[j := b], mask) == Masked(body, mask)[j := XorByte(b, mask[j % |mask|])]
    ensures XorByte(b, mask[j % |mask|]) != Masked(body, mask)[j]
  {
    XorCancel(b, mask[j % |mask|]);
    XorCancel(body[j], mask[j % |mask|]);
    hide Xor;
  }

  lemma {:induction false} CheckChanged(body: seq<byte>, n: nat, j: nat, b: byte)
    requires n <= |body| && j < |body| && b != body[j]
    ensures CheckCode(body[j := b][..n], body[j := b][n..]) != CheckCode(body[..n], body[n..])
  {
    hide Sum;
    SumUpdate(body, j, b);
    SumOfHalves(body, n);
    SumOfHalves(body[j := b], n);
    CodesDiffer(Sum(body), Sum(body[j := b]));
  }

  lemma {:induction false} SumOfHalves(s: seq<byte>, n: nat)
    requires n <= |s|
    ensures Sum(s[..n]) + Sum(s[n..]) == Sum(s)
  {
    hide Sum;
    var a, b := s[..n], s[n..];
    assert a + b == s;
    SumAppend(a, b);
  }

  lemma {:induction false} CodesDiffer(a: nat, b: nat)
    requires a != b && -256 < a - b < 256
    ensures (0x100 - a % 256) % 256 != (0x100 - b % 256) % 256
  {
  }

  /** The time stamp is not too old at the sampled time. */
  predicate Timely(timestamp: nat, now: nat) {
    now <= timestamp + MAX_TIME_DIFF
  }

  /** A frame is found at the front of whatever follows exactly when its time
      stamp is timely. */
  lemma {:induction false} FrameFound(header: seq<byte>, payload: seq<byte>, timestamp: nat, rest: seq<byte>, maxFrameSize: nat, now: nat)
    requires Sendable(header, payload, timestamp)
    requires MIN_SIZE + |header| + |payload| <= maxFrameSize
    ensures var f := Frame(header, payload, timestamp);
            DecodeFrame(f + rest, maxFrameSize, now) == if Timely(timestamp, now) then |f| else maxFrameSize + |f + rest|
  {
    hide Frame;
    HeaderOfFrame(header, payload, timestamp);
    HeaderKept(Frame(header, payload, timestamp), Frame(header, payload, timestamp) + rest);
    hide HeaderOf;
  }

  lemma {:induction false} HeaderKept(a: seq<byte>, b: seq<byte>)
    requires |a| >= MIN_SIZE && |b| >= MIN_SIZE && a[..MIN_SIZE] == b[..MIN_SIZE]
    ensures HeaderOf(a) == HeaderOf(b)
  {
    assert a[0] == a[..16][0] && a[1] == a[..16][1] && b[0] == b[..16][0] && b[1] == b[..16][1];
    assert a[2..4] == a[..16][2..4] && a[4..8] == a[..16][4..8] && a[8..16] == a[..16][8..16];
    assert b[2..4] == b[..16][2..4] && b[4..8] == b[..16][4..8] && b[8..16] == b[..16][8..16];
    hide BigEndian;
  }

  /** Part of a timely frame is not taken for one. */
  lemma {:induction false} PartWaits(header: seq<byte>, payload: seq<byte>, timestamp: nat, n: nat, maxFrameSize: nat, now: nat)
    requires Sendable(header, payload, timestamp) && n < MIN_SIZE + |header| + |payload| <= maxFrameSize
    requires Timely(timestamp, now)
    ensures DecodeFrame(Frame(header, payload, timestamp)[..n], maxFrameSize, now) == 0
  {
    var f := Frame(header, payload, timestamp);
    hide Frame;
    if n >= MIN_SIZE {
      assert f[..n][..16] == f[..16];
      HeaderKept(f, f[..n]);
      HeaderOfFrame(header, payload, timestamp);
      hide HeaderOf;
    }
  }

  /** Reading stays within the buffer exactly when the lengths do not make up its
      size by wrapping around. */
  lemma {:induction false} InsideIff(data: seq<byte>)
    requires MIN_SIZE <= |data| < TWO_TO_THE_32
    ensures var h := HeaderOf(data);
            ReadEnd(h, |data|) <= |data| <==> MIN_SIZE + h.headerLength + h.payloadLength != |data| + TWO_TO_THE_32
  {
    ToBigEndianOf(data[2..4]);
    ToBigEndianOf(data[4..8]);
    LimitValues();
    hide BigEndian, ToBigEndian, Limit;
  }

  /** As here: sixteen bytes, the lengths 1 and 2^32 - 1. */
  lemma {:induction false} SizeWraps()
    ensures var data := [1, 0, 0, 1, 255, 255, 255, 255, 0, 0, 0, 0, 0, 0, 0, 0];
            && HeaderOf(data).headerLength == 1 && HeaderOf(data).payloadLength == 0xffff_ffff
            && ReadEnd(HeaderOf(data), |data|) > |data|
  {
    var data: seq<byte> := [1, 0, 0, 1, 255, 255, 255, 255, 0, 0, 0, 0, 0, 0, 0, 0];
    assert data[2..4] == [0, 1] && data[4..8] == [255, 255, 255, 255];
    SmallNumbers();
    var h := HeaderOf(data);
    assert h.headerLength == 1 && h.payloadLength == 0xffff_ffff;
    hide HeaderOf;
  }

  lemma {:induction false} SmallNumbers()
    ensures BigEndian([0, 1]) == 1 && BigEndian([255, 255, 255, 255]) == 0xffff_ffff
  {
    assert [255, 255, 255, 255][..3] == [255, 255, 255] && [255, 255, 255][..2] == [255, 255] && [255, 255][..1] == [255];
    assert [0, 1][..1] == [0];
    assert BigEndian([]) == 0 && BigEndian([0]) == 0 && BigEndian([255]) == 255;
    assert BigEndian([255, 255]) == 0xffff;
    assert BigEndian([255, 255, 255]) == 0xff_ffff;
  }

  // ---------------------------------------------------------------- streams

  /** What a sender sends. */
  datatype Message = Message(header: seq<byte>, payload: seq<byte>, timestamp: nat)

  ghost function Wire(m: Message): seq<byte> {
    Frame(m.header, m.payload, m.timestamp)
  }

  ghost function Stream(messages: seq<Message>): seq<byte> {
    if messages == [] then [] else Wire(messages[0]) + Stream(messages[1..])
  }

  ghost predicate Fits(m: Message, maxFrameSize: nat) {
    Sendable(m.header, m.payload, m.timestamp) && MIN_SIZE + |m.header| + |m.payload| <= maxFrameSize
  }

  /** All whole frames at the front of what is buffered, and what stays. */
  ghost function Extracted(buffer: seq<byte>, maxFrameSize: nat, now: nat): (seq<seq<byte>>, seq<byte>)
    decreases |buffer|
  {
    var n := DecodeFrame(buffer, maxFrameSize, now);
    if n == 0 || n > |buffer| then ([], buffer)
    else var more := Extracted(buffer[n..], maxFrameSize, now); ([buffer[..n]] + more.0, more.1)
  }

  /** Bytes that arrive in chunks, each at its own time. */
  ghost function Received(buffer: seq<byte>, chunks: seq<seq<byte>>, times: seq<nat>, maxFrameSize: nat): (seq<seq<byte>>, seq<byte>)
    requires |chunks| == |times|
    decreases |chunks|
  {
    if chunks == [] then ([], buffer)
    else
      var first := Extracted(buffer + chunks[0], maxFrameSize, times[0]);
      var more := Received(first.1, chunks[1..], times[1..], maxFrameSize);
      (first.0 + more.0, more.1)
  }

  ghost function Joined(chunks: seq<seq<byte>>): seq<byte> {
    if chunks == [] then [] else chunks[0] + Joined(chunks[1..])
  }

  ghost function AllBytes(messages: seq<Message>): seq<seq<byte>> {
    seq(|messages|, i requires 0 <= i < |messages| => Wire(messages[i]))
  }

  ghost predicate AllTimely(messages: seq<Message>, now: nat) {
    forall i :: 0 <= i < |messages| ==> Timely(messages[i].timestamp, now)
  }

  /** From a part of a stream, its whole frames come out; what stays is less than
      the next frame. */
  lemma {:induction false} ExtractPrefix(messages: seq<Message>, buffer: seq<byte>, after: seq<byte>, maxFrameSize: nat, now: nat)
    returns (k: nat)
    requires buffer + after == Stream(messages) && AllTimely(messages, now)
    requires forall i :: 0 <= i < |messages| ==> Fits(messages[i], maxFrameSize)
    ensures k <= |messages|
    ensures var e := Extracted(buffer, maxFrameSize, now);
            && e.0 == AllBytes(messages[..k]) && e.1 + after == Stream(messages[k..])
            && (after == [] ==> k == |messages|)
    decreases |messages|
  {
    hide Frame, DecodeFrame, Extracted;
    if messages == [] {
      EmptyWaits(buffer, maxFrameSize, now);
      k := 0;
    } else {
      var m := messages[0];
      var f := Wire(m);
      if |buffer| >= |f| {
        FrontPart(buffer, after, f, Stream(messages[1..]));
        FrameFound(m.header, m.payload, m.timestamp, buffer[|f|..], maxFrameSize, now);
        ExtractNext(buffer, |f|, maxFrameSize, now);
        k := ExtractPrefix(messages[1..], buffer[|f|..], after, maxFrameSize, now);
        assert AllBytes(messages[..k + 1]) == [f] + AllBytes(messages[1..][..k]);
        k := k + 1;
      } else {
        ShortPart(buffer, after, f, Stream(messages[1..]));
        PartWaits(m.header, m.payload, m.timestamp, |buffer|, maxFrameSize, now);
        ExtractNone(buffer, maxFrameSize, now);
        k := 0;
      }
    }
  }

  lemma {:induction false} FrontPart(buffer: seq<byte>, after: seq<byte>, f: seq<byte>, rest: seq<byte>)
    requires buffer + after == f + rest && |buffer| >= |f|
    ensures buffer == f + buffer[|f|..] && buffer[..|f|] == f && buffer[|f|..] + after == rest
  {
    assert buffer[..|f|] == (f + rest)[..|f|] && buffer[|f|..] + after == (f + rest)[|f|..];
  }

  lemma {:induction false} ShortPart(buffer: seq<byte>, after: seq<byte>, f: seq<byte>, rest: seq<byte>)
    requires buffer + after == f + rest && |buffer| < |f|
    ensures buffer == f[..|buffer|] && after != []
  {
    assert buffer == (f + rest)[..|buffer|];
    assert |buffer| + |after| == |f| + |rest|;
  }

  lemma {:induction false} ExtractNext(buffer: seq<byte>, n: nat, maxFrameSize: nat, now: nat)
    requires n == DecodeFrame(buffer, maxFrameSize, now) && 0 < n <= |buffer|
    ensures var more := Extracted(buffer[n..], maxFrameSize, now);
            Extracted(buffer, maxFrameSize, now) == ([buffer[..n]] + more.0, more.1)
  {
    hide DecodeFrame;
  }

  lemma {:induction false} ExtractNone(buffer: seq<byte>, maxFrameSize: nat, now: nat)
    requires DecodeFrame(buffer, maxFrameSize, now) == 0
    ensures Extracted(buffer, maxFrameSize, now) == ([], buffer)
  {
    hide DecodeFrame;
  }

  lemma {:induction false} EmptyWaits(buffer: seq<byte>, maxFrameSize: nat, now: nat)
    requires buffer == []
    ensures Extracted(buffer, maxFrameSize, now) == ([], [])
  {
  }

  /** However a stream of frames is cut into chunks, and whenever these arrive
      while the frames are timely, exactly the frames sent come out, in order. */
  lemma {:induction false} ChunkingHarmless(messages: seq<Message>, buffer: seq<byte>, chunks: seq<seq<byte>>, times: seq<nat>, maxFrameSize: nat)
    requires |chunks| == |times| && chunks != [] && buffer + Joined(chunks) == Stream(messages)
    requires forall i :: 0 <= i < |messages| ==> Fits(messages[i], maxFrameSize)
    requires forall t :: t in times ==> AllTimely(messages, t)
    ensures Received(buffer, chunks, times, maxFrameSize) == (AllBytes(messages), [])
    decreases |chunks|
  {
    hide Frame, Extracted, Fits;
    var after := Joined(chunks[1..]);
    assert (buffer + chunks[0]) + after == Stream(messages);
    var k := ExtractPrefix(messages, buffer + chunks[0], after, maxFrameSize, times[0]);
    var first := Extracted(buffer + chunks[0], maxFrameSize, times[0]);
    if |chunks| == 1 {
      assert messages[..k] == messages;
      assert first.1 == [] && AllBytes(messages) + [] == AllBytes(messages);
      assert Received(first.1, chunks[1..], times[1..], maxFrameSize) == ([], first.1);
    } else {
      forall t | t in times[1..] ensures AllTimely(messages[k..], t) {
        assert t in times;
      }
      ChunkingHarmless(messages[k..], first.1, chunks[1..], times[1..], maxFrameSize);
      assert AllBytes(messages[..k]) + AllBytes(messages[k..]) == AllBytes(messages);
    }
  }

  // ---------------------------------------------------------------- bytes

  /** The frame of the header A1 and the payload B2 at the time 0x0102030405060708,
      byte by byte. */
  lemma {:induction false} SampleFrame()
    ensures Frame([0xA1], [0xB2], 0x0102_0304_0506_0708)
         == [1, 0xAD, 0, 1, 0, 0, 0, 1, 1, 2, 3, 4, 5, 6, 7, 8, 0xA0, 0xB0]
  {
    SampleCheck();
    SampleLengths();
    SampleTime();
    SampleMask([0xA1] + [0xB2], [1, 2, 3, 4, 5, 6, 7, 8]);
    hide CheckCode, ToBigEndian, Masked;
  }

  lemma {:induction false} SampleCheck()
    ensures CheckCode([0xA1], [0xB2]) == 0xAD
  {
    assert [0xA1][..0] == [] && [0xB2][..0] == [];
    assert Sum([]) == 0 && Sum([0xA1]) == 0xA1 && Sum([0xB2]) == 0xB2;
  }

  lemma {:induction false} SampleLengths()
    ensures ToBigEndian(1, 2) == [0, 1] && ToBigEndian(1, 4) == [0, 0, 0, 1]
  {
    assert ToBigEndian(0, 1) == [0];
    assert ToBigEndian(0, 3) == [0, 0, 0];
  }

  lemma {:induction false} SampleTime()
    ensures ToBigEndian(0x0102_0304_0506_0708, 8) == [1, 2, 3, 4, 5, 6, 7, 8]
  {
    assert ToBigEndian(0x0102, 2) == [1, 2];
    assert ToBigEndian(0x0102_0304, 4) == [1, 2, 3, 4];
    assert ToBigEndian(0x0102_0304_0506, 6) == [1, 2, 3, 4, 5, 6];
  }

  lemma {:induction false} SampleMask(data: seq<byte>, mask: seq<byte>)
    requires data == [0xA1, 0xB2] && mask == [1, 2, 3, 4, 5, 6, 7, 8]
    ensures Masked(data, mask) == [0xA0, 0xB0]
  {
    FirstMasked();
    SecondMasked();
    hide Xor;
  }

  lemma {:induction false} FirstMasked()
    ensures Xor(0xA1, 1) == 0xA0
  {
    assert Xor(0x28, 0) == 0x28;
  }

  lemma {:induction false} SecondMasked()
    ensures Xor(0xB2, 2) == 0xB0
  {
    assert Xor(0x2C, 0) == 0x2C;
  }

  /** What is at the front of at least sixteen bytes is refused when its first byte is
      not 1, when the lengths and 16 make more than the maximum, or when its time
      stamp is more than five minutes old; else its size is the answer once it is
      all there. */
  lemma {:induction false} DecodeMeans(data: seq<byte>, maxFrameSize: nat, now: nat)
    requires |data| >= 16
    ensures var size := (16 + BigEndian(data[2..4]) + BigEndian(data[4..8])) % 0x1_0000_0000;
            DecodeFrame(data, maxFrameSize, now) ==
            if data[0] != 1 || size > maxFrameSize || now > BigEndian(data[8..16]) + 300_000 then maxFrameSize + |data|
            else if size > |data| then 0 else size
  {
    hide BigEndian;
  }

  /** What a buffer opens to: the lengths fit, and the bytes behind the head,
      unmasked, and the check byte sum to 0. */
  lemma {:induction false} OpenedMeans(data: seq<byte>)
    requires |data| >= 16
    ensures var n, m := BigEndian(data[2..4]), BigEndian(data[4..8]);
            && (Opened(data).Some? <==> 16 + n + m == |data| && (data[1] + Sum(Masked(data[16..], data[8..16]))) % 256 == 0)
            && (Opened(data).Some? ==>
                  var (h, header, payload) := Opened(data).value;
                  && |header| == n && header + payload == Masked(data[16..], data[8..16])
                  && h.timestamp == BigEndian(data[8..16]))
  {
    hide BigEndian, Masked, Sum;
    var body, n := Masked(data[16..], data[8..16]), BigEndian(data[2..4]);
    if 16 + n + BigEndian(data[4..8]) == |data| {
      SumOfHalves(body, n);
      assert body[..n] + body[n..] == body;
    }
  }
}
