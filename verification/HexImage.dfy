/** The Intel HEX window reader of imp/device-update/update-type-def.cpp. */
module HexImage {
  import opened Bits
  import opened Bytes
  import opened Containers
  import opened CText

  datatype Record = Record(address: nat, kind: nat, payload: seq<byte>)

  const TWO_TO_THE_32: nat := 0x1_0000_0000

  const RECORD_TYPE_DATA: nat := 0
  const RECORD_TYPE_EOF: nat := 1
  const RECORD_TYPE_EX_SEG_ADDR: nat := 2
  const RECORD_TYPE_START_SEG_ADDR: nat := 3
  const RECORD_TYPE_EX_LINEAR_ADDR: nat := 4
  const RECORD_TYPE_START_LINEAR_ADDR: nat := 5

  // ---------------------------------------------------------------- meaning

  /** Whether data records count, and the upper half of their addresses. */
  datatype Mode = Mode(active: bool, base: nat)

  /** The mode after a record. */
  function Advance(m: Mode, r: Record): Mode {
    if r.kind == RECORD_TYPE_EX_LINEAR_ADDR then
      if |r.payload| == 2 then Mode(true, BigEndian(r.payload) * 65536) else m
    else if r.kind == RECORD_TYPE_START_LINEAR_ADDR then
      if |r.payload| == 4 then Mode(false, BigEndian(r.payload)) else m
    else if r.kind == RECORD_TYPE_EOF || r.kind == RECORD_TYPE_EX_SEG_ADDR || r.kind == RECORD_TYPE_START_SEG_ADDR then
      m.(active := false)
    else m
  }

  /** The mode before record i. */
  function ModeAt(records: seq<Record>, i: nat): Mode
    requires i <= |records|
  {
    if i == 0 then Mode(false, 0) else Advance(ModeAt(records, i - 1), records[i - 1])
  }

  /** Record i is a data record that counts. */
  predicate IsData(records: seq<Record>, i: nat)
    requires i < |records|
  {
    records[i].kind == RECORD_TYPE_DATA && ModeAt(records, i).active
  }

  function Start(records: seq<Record>, i: nat): nat
    requires i < |records|
  {
    ModeAt(records, i).base + records[i].address
  }

  function End(records: seq<Record>, i: nat): nat
    requires i < |records|
  {
    Start(records, i) + |records[i].payload|
  }

  /** The memory map: what the last of the first n records that covers address a
      puts there. */
  function Image(records: seq<Record>, n: nat, a: nat): Option<byte>
    requires n <= |records|
  {
    if n == 0 then None
    else if IsData(records, n - 1) && Start(records, n - 1) <= a < End(records, n - 1) then
      Some(records[n - 1].payload[a - Start(records, n - 1)])
    else Image(records, n - 1, a)
  }

  /** Data stays within 32-bit addresses. */
  ghost predicate NoWrap(records: seq<Record>) {
    forall i :: 0 <= i < |records| && IsData(records, i) ==> End(records, i) < TWO_TO_THE_32
  }

  // ---------------------------------------------------------------- text

  /** Where fgets stops: after a line feed, at the end, or after n characters. */
  function LineEnd(text: string, pos: nat, n: nat): (r: nat)
    requires pos <= |text|
    ensures pos <= r <= |text| && (n > 0 && pos < |text| ==> pos < r) && r <= pos + n
    decreases n
  {
    if pos == |text| || n == 0 then pos
    else if text[pos] == '\n' then pos + 1
    else LineEnd(text, pos + 1, n - 1)
  }

  /** strlen. */
  function Length(s: string): (n: nat)
    ensures n <= |s|
  {
    if s == [] || s[0] == '\0' then 0 else 1 + Length(s[1..])
  }

  const LINE_SPACE: nat := 255

  /** The line without its end, or nothing when it cannot be a record. */
  function Stripped(cache: string): Option<string> {
    var n := Length(cache);
    if n < 11 || cache[0] != ':' then None
    else
      var m := if cache[n - 1] != '\n' then n else if cache[n - 2] == '\r' then n - 2 else n - 1;
      if m < 11 then None else Some(cache[..m])
  }

  /** The number in the two characters at i, kept to a byte. */
  function ByteAt(line: string, i: nat): (b: byte)
    requires i + 2 <= |line|
  {
    HexNumber(line[i..i + 2]) % 256
  }

  function Payload(line: string, n: nat): (p: seq<byte>)
    requires 9 + 2 * n <= |line|
    ensures |p| == n
    ensures forall i :: 0 <= i < n ==> p[i] == ByteAt(line, 9 + 2 * i)
  {
    if n == 0 then [] else Payload(line, n - 1) + [ByteAt(line, 9 + 2 * (n - 1))]
  }

  /** The record on a line, if the line is a whole record with the right sum. */
  function Decode(line: string): Option<Record>
    requires |line| >= 11
  {
    var n := ByteAt(line, 1);
    if |line| != 11 + 2 * n then None
    else
      var address := HexNumber(line[3..7]) % 65536;
      var r := Record(address, ByteAt(line, 7), Payload(line, n));
      if (ByteAt(line, 9 + 2 * n) + n + address / 256 + address % 256 + r.kind + Sum(r.payload)) % 256 != 0 then None
      else Some(r)
  }

  /** The records from pos on, up to the first line that is not one. */
  function Records(text: string, pos: nat): seq<Record>
    requires pos <= |text|
    decreases |text| - pos
  {
    if pos == |text| then []
    else
      var next := LineEnd(text, pos, LINE_SPACE);
      match Stripped(text[pos..next])
      case None => []
      case Some(line) =>
        match Decode(line)
        case None => []
        case Some(r) => [r] + Records(text, next)
  }

  // ---------------------------------------------------------------- the code

  function Word32(x: int): nat {
    x % TWO_TO_THE_32
  }

  /** memcpy of the n bytes of data from offset from, and memset of their flags. */
  method CopyAndMark(buf: array<byte>, flag: array<byte>, at: nat, data: seq<byte>, from: nat, n: nat)
    requires buf.Length == flag.Length && at + n <= buf.Length && from + n <= |data| && buf != flag
    modifies buf, flag
    ensures forall j :: 0 <= j < buf.Length ==> buf[j] == if at <= j < at + n then data[from + j - at] else old(buf[j])
    ensures forall j :: 0 <= j < flag.Length ==> flag[j] == if at <= j < at + n then 1 else old(flag[j])
  {
    for i := 0 to n
      invariant forall j :: 0 <= j < buf.Length ==> buf[j] == if at <= j < at + i then data[from + j - at] else old(buf[j])
      invariant forall j :: 0 <= j < flag.Length ==> flag[j] == if at <= j < at + i then 1 else old(flag[j])
    {
      buf[at + i], flag[at + i] := data[from + i], 1;
    }
  }

  /** The case of a data record: what it covers of the window is written, and
      nothing else. */
  method Write(buf: array<byte>, flag: array<byte>, startAddr: nat, lastExLinearAddr: nat, r: Record) returns (touched: bool)
    requires buf.Length == flag.Length && buf != flag && startAddr + buf.Length < TWO_TO_THE_32
    requires lastExLinearAddr + r.address + |r.payload| < TWO_TO_THE_32
    modifies buf, flag
    ensures var s := lastExLinearAddr + r.address;
            && (forall j :: 0 <= j < buf.Length ==>
                  buf[j] == if s <= startAddr + j < s + |r.payload| then r.payload[startAddr + j - s] else old(buf[j]))
            && (forall j :: 0 <= j < flag.Length ==> flag[j] == if s <= startAddr + j < s + |r.payload| then 1 else old(flag[j]))
            && touched == (s <= startAddr + buf.Length && startAddr <= s + |r.payload|)
  {
    Small(startAddr + buf.Length);
    Small(lastExLinearAddr + r.address);
    Small(lastExLinearAddr + r.address + |r.payload|);
    hide *;
    var endAddr := Word32(startAddr + buf.Length);
    var dataStartAddr := Word32(lastExLinearAddr + r.address);
    var dataEndAddr := Word32(dataStartAddr + |r.payload|);
    touched := false;
    if dataStartAddr < startAddr {
      if dataEndAddr < startAddr {
      } else {
        touched := true;
        var actualEndAddr := if dataEndAddr < endAddr then dataEndAddr else endAddr;
        var offset := startAddr - dataStartAddr;
        var copyLen := actualEndAddr - startAddr;
        CopyAndMark(buf, flag, 0, r.payload, offset, copyLen);
      }
    } else {
      if dataStartAddr > endAddr {
      } else {
        touched := true;
        var actualEndAddr := if dataEndAddr < endAddr then dataEndAddr else endAddr;
        var offset := dataStartAddr - startAddr;
        var copyLen := actualEndAddr - dataStartAddr;
        CopyAndMark(buf, flag, offset, r.payload, 0, copyLen);
      }
    }
  }

  lemma {:induction false} Small(a: nat)
    requires a < TWO_TO_THE_32
    ensures Word32(a) == a
  {
  }

  /** The parsing of one line: each field is read from the next characters. */
  method ReadRecord(line: string) returns (r: Option<Record>)
    requires |line| >= 11
    ensures r == Decode(line)
  {
    hide *;
    var payloadLen: nat := ByteAt(line, 1);
    var needLen := 11 + payloadLen * 2;
    if |line| != needLen {
      DecodeOther(line);
      return None;
    }
    var offsetAddress := HexNumber(line[3..7]) % 65536;
    var kind := ByteAt(line, 7);
    var tmp := ReadPayload(line, payloadLen);
    var checkCode := ByteAt(line, 9 + 2 * payloadLen);
    DecodeWhole(line, payloadLen);
    var sum := SumUp((checkCode + payloadLen + offsetAddress / 256 + offsetAddress % 256 + kind) % 256, tmp);
    PartialSum(checkCode + payloadLen + offsetAddress / 256 + offsetAddress % 256 + kind, Sum(tmp));
    if sum != 0 {
      return None;
    }
    return Some(Record(offsetAddress, kind, tmp));
  }

  lemma {:induction false} DecodeOther(line: string)
    requires |line| >= 11 && |line| != 11 + 2 * ByteAt(line, 1)
    ensures Decode(line) == None
  {
  }

  lemma {:induction false} DecodeWhole(line: string, n: nat)
    requires |line| == 11 + 2 * n && n == ByteAt(line, 1)
    ensures var address := HexNumber(line[3..7]) % 65536;
            var r := Record(address, ByteAt(line, 7), Payload(line, n));
            Decode(line) ==
            if (ByteAt(line, 9 + 2 * n) + n + address / 256 + address % 256 + r.kind + Sum(r.payload)) % 256 != 0 then None
            else Some(r)
  {
    hide ByteAt, HexNumber, Payload, Sum;
  }

  lemma {:induction false} DecodeParts(line: string, r: Record)
    requires |line| == 11 + 2 * |r.payload| && |r.payload| == ByteAt(line, 1)
    requires HexNumber(line[3..7]) == r.address < 65536 && ByteAt(line, 7) == r.kind && Payload(line, |r.payload|) == r.payload
    requires (ByteAt(line, 9 + 2 * |r.payload|) + |r.payload| + r.address / 256 + r.address % 256 + r.kind + Sum(r.payload)) % 256 == 0
    ensures Decode(line) == Some(r)
  {
    hide ByteAt, HexNumber, Payload, Sum;
  }

  method ReadPayload(line: string, payloadLen: nat) returns (tmp: seq<byte>)
    requires 9 + 2 * payloadLen <= |line|
    ensures tmp == Payload(line, payloadLen)
  {
    hide ByteAt;
    var parseOffset := 9;
    tmp := [];
    for i := 0 to payloadLen
      invariant parseOffset == 9 + 2 * i && tmp == Payload(line, i)
    {
      tmp := tmp + [ByteAt(line, parseOffset)];
      parseOffset := parseOffset + 2;
    }
  }

  // ---------------------------------------------------------------- the window

  predicate Covered(records: seq<Record>, n: nat, a: nat)
    requires n <= |records|
  {
    Image(records, n, a).Some?
  }

  /** The memory map with zeros where it says nothing. */
  function Content(records: seq<Record>, n: nat, a: nat): byte
    requires n <= |records|
  {
    match Image(records, n, a) case None => 0 case Some(b) => b
  }

  /** The window at startAddr shows the first n records. */
  ghost predicate Shows(buf: array<byte>, flag: array<byte>, startAddr: nat, records: seq<Record>, n: nat)
    requires n <= |records| && buf.Length == flag.Length
    reads buf, flag
  {
    && (forall j :: 0 <= j < buf.Length ==> buf[j] == Content(records, n, startAddr + j))
    && (forall j :: 0 <= j < flag.Length ==> flag[j] == if Covered(records, n, startAddr + j) then 1 else 0)
  }

  /** Some data record among the first n touches the closed window. */
  ghost predicate Touches(records: seq<Record>, n: nat, startAddr: nat, length: nat)
    requires n <= |records|
  {
    exists i :: 0 <= i < n && IsData(records, i) && Start(records, i) <= startAddr + length && startAddr <= End(records, i)
  }

  predicate Between(a: nat, low: nat, length: nat) {
    low <= a <= low + length
  }

  /** That is to say: it and the window, each with the address behind its last byte,
      have an address in common. */
  lemma {:induction false} TouchesIff(records: seq<Record>, startAddr: nat, length: nat)
    ensures Touches(records, |records|, startAddr, length) <==>
            exists i, a :: 0 <= i < |records| && IsData(records, i)
                           && Between(a, Start(records, i), |records[i].payload|) && Between(a, startAddr, length)
  {
    hide IsData, Start;
    if i :| 0 <= i < |records| && IsData(records, i) && Start(records, i) <= startAddr + length && startAddr <= End(records, i) {
      var a := if startAddr <= Start(records, i) then Start(records, i) else startAddr;
      assert Between(a, Start(records, i), |records[i].payload|) && Between(a, startAddr, length);
    }
  }

  /** n is how many bytes of the window, from its start, the records cover. */
  ghost predicate IsPrefixLength(records: seq<Record>, startAddr: nat, length: nat, n: nat) {
    && n <= length
    && (forall a: nat :: startAddr <= a < startAddr + n ==> Covered(records, |records|, a))
    && (n < length ==> !Covered(records, |records|, startAddr + n))
  }

  /** readData: the window is filled from the records before the first line that
      is not one, and the answer is how far it is covered from its start. */
  method ReadData(text: string, dataAddr: nat, buf: array<byte>) returns (ret: int, readLen: nat)
    requires dataAddr + buf.Length < TWO_TO_THE_32 && NoWrap(Records(text, 0))
    modifies buf
    ensures forall j :: 0 <= j < buf.Length ==> buf[j] == Content(Records(text, 0), |Records(text, 0)|, dataAddr + j)
    ensures IsPrefixLength(Records(text, 0), dataAddr, buf.Length, readLen)
    ensures ret == if Touches(Records(text, 0), |Records(text, 0)|, dataAddr, buf.Length) then 1 else -1
  {
    hide Records, Image, Covered, Content, Touches, NoWrap;
    var flag := new byte[buf.Length];
    Clear(buf);
    Clear(flag);
    ret := ReadAll(text, dataAddr, buf, flag);
    readLen := 0;
    while readLen < buf.Length && flag[readLen] != 0
      invariant readLen <= buf.Length
      invariant forall a: nat :: dataAddr <= a < dataAddr + readLen ==> Covered(Records(text, 0), |Records(text, 0)|, a)
    {
      readLen := readLen + 1;
    }
  }

  method Clear(a: array<byte>)
    modifies a
    ensures forall j :: 0 <= j < a.Length ==> a[j] == 0
  {
    for i := 0 to a.Length
      invariant forall j :: 0 <= j < i ==> a[j] == 0
    {
      a[i] := 0;
    }
  }

  /** The loop over the lines. */
  method ReadAll(text: string, dataAddr: nat, buf: array<byte>, flag: array<byte>) returns (ret: int)
    requires buf.Length == flag.Length && buf != flag && dataAddr + buf.Length < TWO_TO_THE_32 && NoWrap(Records(text, 0))
    requires forall j :: 0 <= j < buf.Length ==> buf[j] == 0 && flag[j] == 0
    modifies buf, flag
    ensures Shows(buf, flag, dataAddr, Records(text, 0), |Records(text, 0)|)
    ensures ret == if Touches(Records(text, 0), |Records(text, 0)|, dataAddr, buf.Length) then 1 else -1
  {
    ghost var records := Records(text, 0);
    ghost var n := 0;
    ret := -1;
    var findLinearAddr, lastExLinearAddr, pos := false, 0, 0;
    Blank(buf, flag, dataAddr, records);
    hide *;
    while pos < |text|
      invariant pos <= |text| && n <= |records| && records[n..] == Records(text, pos)
      invariant Mode(findLinearAddr, lastExLinearAddr) == ModeAt(records, n)
      invariant Shows(buf, flag, dataAddr, records, n)
      invariant ret == if Touches(records, n, dataAddr, buf.Length) then 1 else -1
    {
      var r, next := NextRecord(text, pos);
      if r == None {
        assert n == |records|;
        break;
      }
      assert records[n] == records[n..][0] && records[n + 1..] == records[n..][1..];
      var touched;
      findLinearAddr, lastExLinearAddr, touched :=
        Apply(buf, flag, dataAddr, findLinearAddr, lastExLinearAddr, r.value, records, n);
      if touched {
        ret := 1;
      }
      n, pos := n + 1, next;
    }
    AtEnd(text);
  }

  lemma {:induction false} AtEnd(text: string)
    ensures Records(text, |text|) == []
  {
  }

  lemma {:induction false} Blank(buf: array<byte>, flag: array<byte>, dataAddr: nat, records: seq<Record>)
    requires buf.Length == flag.Length && forall j :: 0 <= j < buf.Length ==> buf[j] == 0 && flag[j] == 0
    ensures Shows(buf, flag, dataAddr, records, 0) && ModeAt(records, 0) == Mode(false, 0)
    ensures !Touches(records, 0, dataAddr, buf.Length)
  {
  }

  /** One line: the record on it, or nothing when reading ends there. */
  method NextRecord(text: string, pos: nat) returns (r: Option<Record>, next: nat)
    requires pos < |text|
    ensures pos < next <= |text|
    ensures Records(text, pos) == match r case None => [] case Some(v) => [v] + Records(text, next)
  {
    hide Decode, Length;
    next := LineEnd(text, pos, LINE_SPACE);
    var line := Stripped(text[pos..next]);
    if line == None {
      return None, next;
    }
    r := ReadRecord(line.value);
  }

  /** What record n adds. */
  lemma {:induction false} OneMore(records: seq<Record>, n: nat)
    requires n < |records|
    ensures ModeAt(records, n + 1) == Advance(ModeAt(records, n), records[n])
    ensures IsData(records, n) <==> records[n].kind == RECORD_TYPE_DATA && ModeAt(records, n).active
    ensures Start(records, n) == ModeAt(records, n).base + records[n].address
    ensures End(records, n) == Start(records, n) + |records[n].payload|
    ensures forall a: nat {:trigger Content(records, n + 1, a)} :: Content(records, n + 1, a) ==
              if IsData(records, n) && Start(records, n) <= a < End(records, n) then records[n].payload[a - Start(records, n)]
              else Content(records, n, a)
    ensures forall a: nat {:trigger Covered(records, n + 1, a)} :: Covered(records, n + 1, a) <==>
              (IsData(records, n) && Start(records, n) <= a < End(records, n)) || Covered(records, n, a)
  {
    forall a: nat
      ensures Content(records, n + 1, a) ==
              if IsData(records, n) && Start(records, n) <= a < End(records, n) then records[n].payload[a - Start(records, n)]
              else Content(records, n, a)
      ensures Covered(records, n + 1, a) <==>
              (IsData(records, n) && Start(records, n) <= a < End(records, n)) || Covered(records, n, a)
    {
      assert Image(records, n + 1, a) ==
        if IsData(records, n) && Start(records, n) <= a < End(records, n)
        then Some(records[n].payload[a - Start(records, n)]) else Image(records, n, a);
    }
  }

  lemma {:induction false} TouchesNext(records: seq<Record>, n: nat, startAddr: nat, length: nat)
    requires n < |records|
    ensures Touches(records, n + 1, startAddr, length) <==>
            Touches(records, n, startAddr, length)
            || (IsData(records, n) && Start(records, n) <= startAddr + length && startAddr <= End(records, n))
  {
    hide IsData, Start, End;
  }

  lemma {:induction false} DataFits(records: seq<Record>, n: nat)
    requires NoWrap(records) && n < |records| && IsData(records, n)
    ensures End(records, n) < TWO_TO_THE_32
  {
  }

  /** A data record does not change the mode. */
  lemma {:induction false} SameMode(m: Mode, r: Record)
    requires r.kind == RECORD_TYPE_DATA
    ensures Advance(m, r) == m
  {
  }

  /** One turn of the loop: record n. */
  method Apply(buf: array<byte>, flag: array<byte>, dataAddr: nat, findLinearAddr: bool, lastExLinearAddr: nat,
               r: Record, ghost records: seq<Record>, ghost n: nat)
    returns (find: bool, last: nat, touched: bool)
    requires buf.Length == flag.Length && buf != flag && dataAddr + buf.Length < TWO_TO_THE_32 && NoWrap(records)
    requires n < |records| && r == records[n] && Mode(findLinearAddr, lastExLinearAddr) == ModeAt(records, n)
    requires Shows(buf, flag, dataAddr, records, n)
    modifies buf, flag
    ensures Shows(buf, flag, dataAddr, records, n + 1) && Mode(find, last) == ModeAt(records, n + 1)
    ensures Touches(records, n + 1, dataAddr, buf.Length) <==> Touches(records, n, dataAddr, buf.Length) || touched
  {
    hide Image, Content, Covered, ModeAt, Advance, IsData, Start, End, Touches, NoWrap;
    find, last, touched := findLinearAddr, lastExLinearAddr, false;
    OneMore(records, n);
    TouchesNext(records, n, dataAddr, buf.Length);
    if r.kind == RECORD_TYPE_DATA {
      SameMode(Mode(find, last), r);
      if findLinearAddr {
        DataFits(records, n);
        touched := Write(buf, flag, dataAddr, lastExLinearAddr, r);
      }
    } else {
      find, last := SwitchMode(findLinearAddr, lastExLinearAddr, r);
    }
  }

  /** The other cases of the switch. */
  method SwitchMode(findLinearAddr: bool, lastExLinearAddr: nat, r: Record) returns (find: bool, last: nat)
    requires r.kind != RECORD_TYPE_DATA
    ensures Mode(find, last) == Advance(Mode(findLinearAddr, lastExLinearAddr), r)
  {
    find, last := findLinearAddr, lastExLinearAddr;
    if r.kind == RECORD_TYPE_EOF {
      find := false;
    } else if r.kind == RECORD_TYPE_EX_LINEAR_ADDR {
      if |r.payload| != 2 {
        return;
      }
      find := true;
      last := BigEndian(r.payload) * 65536;
    } else if r.kind == RECORD_TYPE_START_LINEAR_ADDR {
      if |r.payload| != 4 {
        return;
      }
      find := false;
      last := BigEndian(r.payload);
    } else if r.kind == RECORD_TYPE_EX_SEG_ADDR || r.kind == RECORD_TYPE_START_SEG_ADDR {
      find := false;
    }
  }

  // ---------------------------------------------------------------- results

  /** Records that change where data goes: end of file, segment records, and
      linear ones of the right length. */
  predicate Switches(r: Record) {
    r.kind in {1, 2, 3} || (r.kind == 4 && |r.payload| == 2) || (r.kind == 5 && |r.payload| == 4)
  }

  lemma {:induction false} ModeStays(records: seq<Record>, j: nat, i: nat)
    requires j <= i <= |records| && forall k :: j <= k < i ==> !Switches(records[k])
    ensures ModeAt(records, i) == ModeAt(records, j)
    decreases i
  {
    if j < i {
      ModeStays(records, j, i - 1);
    }
  }

  lemma {:induction false} TwoBytes(h: byte, l: byte)
    ensures BigEndian([h, l]) == 256 * (h as nat) + l as nat
  {
    assert [h, l][..1] == [h] && [h][..0] == [];
    assert BigEndian([]) == 0 && BigEndian([h]) == h;
  }

  /** Data goes where the extended linear address record before it says: its two
      bytes are the upper half of the address. */
  lemma {:induction false} LinearAddress(records: seq<Record>, j: nat, i: nat, h: byte, l: byte)
    requires j < i < |records| && records[j].kind == 4 && records[j].payload == [h, l]
    requires records[i].kind == 0 && forall k :: j < k < i ==> !Switches(records[k])
    ensures IsData(records, i)
    ensures Start(records, i) == 0x1_0000 * (256 * (h as nat) + l as nat) + records[i].address
  {
    ModeStays(records, j + 1, i);
    TwoBytes(h, l);
    hide BigEndian;
  }

  /** After any other of these records, or without one, it is ignored. */
  lemma {:induction false} OtherwiseIgnored(records: seq<Record>, j: nat, i: nat)
    requires j <= i < |records| && forall k :: j <= k < i ==> !Switches(records[k])
    requires j > 0 ==> Switches(records[j - 1]) && records[j - 1].kind != 4
    ensures !IsData(records, i)
  {
    ModeStays(records, j, i);
    hide BigEndian;
  }

  /** So record i counts exactly when it holds data and the nearest of these records
      before it is an extended linear address. */
  lemma {:induction false} CountsIff(records: seq<Record>, i: nat)
    requires i < |records|
    ensures IsData(records, i) <==>
            records[i].kind == 0
            && exists j :: 0 <= j < i && records[j].kind == 4 && |records[j].payload| == 2 && NoneBetween(records, j, i)
  {
    var j := LastSwitch(records, i);
    if records[i].kind == 0 {
      if j > 0 && records[j - 1].kind == 4 {
        var p := records[j - 1].payload;
        assert p == [p[0], p[1]];
        LinearAddress(records, j - 1, i, p[0], p[1]);
        assert NoneBetween(records, j - 1, i);
      } else {
        OtherwiseIgnored(records, j, i);
        forall k | 0 <= k < i && records[k].kind == 4 && |records[k].payload| == 2 ensures !NoneBetween(records, k, i) {
          assert k < j && Switches(records[j - 1]);
        }
      }
    }
    hide ModeAt;
  }

  ghost predicate NoneBetween(records: seq<Record>, j: nat, i: nat)
    requires i <= |records|
  {
    forall k :: j < k < i ==> !Switches(records[k])
  }

  lemma {:induction false} LastSwitch(records: seq<Record>, i: nat) returns (j: nat)
    requires i <= |records|
    ensures j <= i && (forall k :: j <= k < i ==> !Switches(records[k])) && (j > 0 ==> Switches(records[j - 1]))
  {
    j := i;
    while j > 0 && !Switches(records[j - 1])
      invariant j <= i && forall k :: j <= k < i ==> !Switches(records[k])
    {
      j := j - 1;
    }
  }

  ghost predicate Covers(records: seq<Record>, i: nat, a: nat)
    requires i < |records|
  {
    IsData(records, i) && Start(records, i) <= a < End(records, i)
  }

  /** The memory map says what the last active data record over an address says, */
  lemma {:induction false} LastRecordWins(records: seq<Record>, n: nat, a: nat, i: nat)
    requires i < n <= |records| && Covers(records, i, a) && forall k :: i < k < n ==> !Covers(records, k, a)
    ensures Image(records, n, a) == Some(records[i].payload[a - Start(records, i)])
  {
    if i == n - 1 {
    } else {
      LastRecordWins(records, n - 1, a, i);
      assert !Covers(records, n - 1, a);
    }
  }

  /** and nothing where there is none. */
  lemma {:induction false} UncoveredIsEmpty(records: seq<Record>, n: nat, a: nat)
    requires n <= |records| && forall i :: 0 <= i < n ==> !Covers(records, i, a)
    ensures Image(records, n, a) == None
  {
    if n == 0 {
    } else {
      UncoveredIsEmpty(records, n - 1, a);
      assert !Covers(records, n - 1, a);
    }
  }

  /** A record that fits one read of a line. */
  predicate Writable(r: Record) {
    r.address < 65536 && r.kind < 256 && |r.payload| <= 121
  }

  function Pairs(p: seq<byte>): (s: string)
    ensures |s| == 2 * |p|
  {
    if p == [] then [] else Pairs(p[..|p| - 1]) + HexPair(p[|p| - 1])
  }

  function CheckByte(r: Record): byte {
    (256 - (|r.payload| + r.address / 256 + r.address % 256 + r.kind + Sum(r.payload)) % 256) % 256
  }

  /** A record written as a line. */
  function Encode(r: Record): (s: string)
    requires Writable(r)
    ensures |s| == 11 + 2 * |r.payload|
  {
    ":" + HexPair(|r.payload|) + HexPair(r.address / 256) + HexPair(r.address % 256) + HexPair(r.kind)
    + Pairs(r.payload) + HexPair(CheckByte(r))
  }

  function EncodeAll(records: seq<Record>): string
    requires forall i :: 0 <= i < |records| ==> Writable(records[i])
  {
    if records == [] then [] else Encode(records[0]) + "\r\n" + EncodeAll(records[1..])
  }

  lemma {:induction false} ByteAtPair(line: string, i: nat, b: nat)
    requires i + 2 <= |line| && b < 256 && line[i..i + 2] == HexPair(b)
    ensures ByteAt(line, i) == b
  {
    HexPairNumber(b);
  }

  lemma {:induction false} PairsAt(p: seq<byte>, i: nat)
    requires i < |p|
    ensures Pairs(p)[2 * i..2 * i + 2] == HexPair(p[i])
  {
    if i == |p| - 1 {
    } else {
      PairsAt(p[..|p| - 1], i);
      assert Pairs(p)[2 * i..2 * i + 2] == Pairs(p[..|p| - 1])[2 * i..2 * i + 2];
    }
  }

  lemma {:induction false} SliceOfSlice(s: string, a: nat, b: nat, c: nat, d: nat)
    requires a <= b <= |s| && c <= d <= b - a
    ensures s[a..b][c..d] == s[a + c..a + d]
  {
    var t := s[a..b];
    assert forall i :: 0 <= i < d - c ==> t[c..d][i] == t[c + i] == s[a + c + i];
  }

  lemma {:induction false} PairRead(line: string, p: seq<byte>, i: nat)
    requires |line| == 11 + 2 * |p| && line[9..9 + 2 * |p|] == Pairs(p) && i < |p|
    ensures ByteAt(line, 9 + 2 * i) == p[i]
  {
    PairsAt(p, i);
    hide *;
    SliceOfSlice(line, 9, 9 + 2 * |p|, 2 * i, 2 * i + 2);
    ByteAtPair(line, 9 + 2 * i, p[i]);
  }

  lemma {:induction false} PayloadRead(line: string, p: seq<byte>, k: nat)
    requires |line| == 11 + 2 * |p| && line[9..9 + 2 * |p|] == Pairs(p) && k <= |p|
    ensures Payload(line, k) == p[..k]
  {
    hide ByteAt, Pairs;
    if k == 0 {
    } else {
      PayloadRead(line, p, k - 1);
      PairRead(line, p, k - 1);
      assert p[..k] == p[..k - 1] + [p[k - 1]];
    }
  }

  /** Where the fields of a written record are. */
  lemma {:induction false} Fields(r: Record)
    requires Writable(r)
    ensures var line, n := Encode(r), |r.payload|;
            && line[0] == ':' && line[1..3] == HexPair(n) && line[3..7] == HexPair(r.address / 256) + HexPair(r.address % 256)
            && line[7..9] == HexPair(r.kind) && line[9..9 + 2 * n] == Pairs(r.payload)
            && line[9 + 2 * n..9 + 2 * n + 2] == HexPair(CheckByte(r))
  {
    hide HexPair, Pairs, CheckByte;
    PairLengths();
    var a := ":" + HexPair(|r.payload|) + HexPair(r.address / 256) + HexPair(r.address % 256) + HexPair(r.kind);
    assert a[1..3] == HexPair(|r.payload|) && a[7..9] == HexPair(r.kind);
    assert a[3..7] == HexPair(r.address / 256) + HexPair(r.address % 256);
    assert Encode(r) == a + Pairs(r.payload) + HexPair(CheckByte(r));
  }

  lemma {:induction false} PairLengths()
    ensures forall b: nat :: b < 256 ==> |HexPair(b)| == 2
  {
  }

  lemma {:induction false} LengthRead(r: Record)
    requires Writable(r)
    ensures ByteAt(Encode(r), 1) == |r.payload|
  {
    Fields(r);
    hide *;
    WritableParts(r);
    ByteAtPair(Encode(r), 1, |r.payload|);
  }

  lemma {:induction false} AddressRead(r: Record)
    requires Writable(r)
    ensures HexNumber(Encode(r)[3..7]) == r.address
  {
    Fields(r);
    hide *;
    WritableParts(r);
    HexQuadNumber(r.address / 256, r.address % 256);
  }

  lemma {:induction false} KindRead(r: Record)
    requires Writable(r)
    ensures ByteAt(Encode(r), 7) == r.kind
  {
    Fields(r);
    hide *;
    WritableParts(r);
    ByteAtPair(Encode(r), 7, r.kind);
  }

  lemma {:induction false} PayloadAllRead(r: Record)
    requires Writable(r)
    ensures Payload(Encode(r), |r.payload|) == r.payload
  {
    Fields(r);
    hide *;
    PayloadRead(Encode(r), r.payload, |r.payload|);
    assert r.payload[..|r.payload|] == r.payload;
  }

  lemma {:induction false} CheckRead(r: Record)
    requires Writable(r)
    ensures ByteAt(Encode(r), 9 + 2 * |r.payload|) == CheckByte(r)
  {
    Fields(r);
    hide *;
    ByteAtPair(Encode(r), 9 + 2 * |r.payload|, CheckByte(r));
  }

  /** A written record reads back as itself. */
  lemma {:induction false} DecodeEncode(r: Record)
    requires Writable(r)
    ensures Decode(Encode(r)) == Some(r)
  {
    hide *;
    WritableParts(r);
    LengthRead(r);
    AddressRead(r);
    KindRead(r);
    PayloadAllRead(r);
    CheckRead(r);
    CheckCloses(r);
    DecodeParts(Encode(r), r);
  }

  lemma {:induction false} WritableParts(r: Record)
    requires Writable(r)
    ensures r.address < 65536 && r.kind < 256 && |r.payload| < 256
  {
  }

  lemma {:induction false} CheckCloses(r: Record)
    ensures (CheckByte(r) + |r.payload| + r.address / 256 + r.address % 256 + r.kind + Sum(r.payload)) % 256 == 0
  {
  }

  lemma {:induction false} LineEndAt(text: string, pos: nat, k: nat, n: nat)
    requires pos + k < |text| && text[pos + k] == '\n' && k < n
    requires forall i :: pos <= i < pos + k ==> text[i] != '\n'
    ensures LineEnd(text, pos, n) == pos + k + 1
    decreases n
  {
    if k == 0 {
    } else {
      LineEndAt(text, pos + 1, k - 1, n - 1);
    }
  }

  lemma {:induction false} LengthWhole(s: string)
    requires '\0' !in s
    ensures Length(s) == |s|
  {
    if s == [] {
    } else {
      LengthWhole(s[1..]);
    }
  }

  /** A line has none of the characters that end one. */
  lemma {:induction false} EncodePlain(r: Record)
    requires Writable(r)
    ensures forall i :: 0 <= i < |Encode(r)| ==> Encode(r)[i] == ':' || IsHex(Encode(r)[i])
  {
    PairsPlain(r.payload);
    hide HexDigit, Pairs, CheckByte;
  }

  lemma {:induction false} PairsPlain(p: seq<byte>)
    ensures forall i :: 0 <= i < |Pairs(p)| ==> IsHex(Pairs(p)[i])
  {
    hide HexDigit;
    if p == [] {
    } else {
      PairsPlain(p[..|p| - 1]);
    }
  }

  lemma {:induction false} StrippedLine(r: Record)
    requires Writable(r)
    ensures Stripped(Encode(r) + "\r\n") == Some(Encode(r))
  {
    EncodePlain(r);
    var cache := Encode(r) + "\r\n";
    Fields(r);
    hide Encode, Length;
    LengthWhole(cache);
    assert cache[..|Encode(r)|] == Encode(r);
  }

  /** A written file reads back as its records. */
  lemma {:induction false} RecordsOfEncoded(records: seq<Record>)
    requires forall i :: 0 <= i < |records| ==> Writable(records[i])
    ensures Records(EncodeAll(records), 0) == records
  {
    var text := EncodeAll(records);
    assert text[0..] == text;
    RecordsFrom(text, 0, records);
  }

  lemma {:induction false} RecordsFrom(text: string, pos: nat, records: seq<Record>)
    requires forall i :: 0 <= i < |records| ==> Writable(records[i])
    requires pos <= |text| && text[pos..] == EncodeAll(records)
    ensures Records(text, pos) == records
    decreases |records|
  {
    hide *;
    if records == [] {
      NothingLeft(text, pos);
    } else {
      var r := records[0];
      SplitFirst(text, pos, records);
      var next := pos + |Encode(r)| + 2;
      FirstLine(text, pos, r);
      StrippedLine(r);
      DecodeEncode(r);
      RecordsStep(text, pos, Encode(r), r, next);
      RecordsFrom(text, next, records[1..]);
      assert records == [r] + records[1..];
    }
  }

  lemma {:induction false} NothingLeft(text: string, pos: nat)
    requires pos <= |text| && text[pos..] == EncodeAll([])
    ensures Records(text, pos) == []
  {
  }

  lemma {:induction false} SplitFirst(text: string, pos: nat, records: seq<Record>)
    requires records != [] && forall i :: 0 <= i < |records| ==> Writable(records[i])
    requires pos <= |text| && text[pos..] == EncodeAll(records)
    ensures pos + |Encode(records[0])| + 2 <= |text|
    ensures text[pos..pos + |Encode(records[0])| + 2] == Encode(records[0]) + "\r\n"
    ensures text[pos + |Encode(records[0])| + 2..] == EncodeAll(records[1..])
  {
    hide Encode, Writable;
    var n := |Encode(records[0])| + 2;
    assert text[pos..][..n] == Encode(records[0]) + "\r\n";
    assert text[pos..][n..] == EncodeAll(records[1..]);
    assert text[pos..pos + n] == text[pos..][..n] && text[pos + n..] == text[pos..][n..];
  }

  lemma {:induction false} RecordsStep(text: string, pos: nat, line: string, r: Record, next: nat)
    requires pos < |text| && next == LineEnd(text, pos, LINE_SPACE) && |line| >= 11
    requires Stripped(text[pos..next]) == Some(line) && Decode(line) == Some(r)
    ensures Records(text, pos) == [r] + Records(text, next)
  {
    hide Stripped, Decode, LineEnd;
  }

  lemma {:induction false} FirstLine(text: string, pos: nat, r: Record)
    requires Writable(r) && pos + |Encode(r)| + 2 <= |text|
    requires text[pos..pos + |Encode(r)| + 2] == Encode(r) + "\r\n"
    ensures LineEnd(text, pos, LINE_SPACE) == pos + |Encode(r)| + 2
  {
    EncodePlain(r);
    var k := |Encode(r)|;
    var cache := text[pos..pos + k + 2];
    hide Encode;
    forall i | pos <= i < pos + k + 1 ensures text[i] != '\n' {
      assert text[i] == cache[i - pos];
    }
    assert text[pos + k + 1] == cache[k + 1];
    LineEndAt(text, pos, k + 1, LINE_SPACE);
  }

  // ---------------------------------------------------------------- one file

  /** Two lines that put DE AD BE EF at 0x08000000. */
  lemma {:induction false} TwoLines()
    ensures var text := ":020000040800F2\r\n:04000000DEADBEEFC4\r\n";
            && Records(text, 0) == [Record(0, 4, [0x08, 0x00]), Record(0, 0, [0xDE, 0xAD, 0xBE, 0xEF])]
            && Image(Records(text, 0), 2, 0x0800_0000) == Some(0xDE) && Image(Records(text, 0), 2, 0x0800_0001) == Some(0xAD)
            && Image(Records(text, 0), 2, 0x0800_0002) == Some(0xBE) && Image(Records(text, 0), 2, 0x0800_0003) == Some(0xEF)
            && Image(Records(text, 0), 2, 0x0800_0004) == None && Image(Records(text, 0), 2, 0x07ff_ffff) == None
  {
    var first, second := Record(0, 4, [0x08, 0x00]), Record(0, 0, [0xDE, 0xAD, 0xBE, 0xEF]);
    hide *;
    FirstWritten(first);
    SecondWritten(second);
    LinesJoined();
    BothWritten(first, second);
    RecordsOfEncoded([first, second]);
    assert [first, second][0].payload == [0x08, 0x00] && [first, second][1].payload == [0xDE, 0xAD, 0xBE, 0xEF];
    LinearAddress([first, second], 0, 1, 0x08, 0x00);
    ImageOfTwo([first, second]);
  }

  lemma {:induction false} LinesJoined()
    ensures ":020000040800F2" + "\r\n" + (":04000000DEADBEEFC4" + "\r\n") == ":020000040800F2\r\n:04000000DEADBEEFC4\r\n"
  {
  }

  lemma {:induction false} BothWritten(first: Record, second: Record)
    requires Writable(first) && Writable(second)
    ensures EncodeAll([first, second]) == Encode(first) + "\r\n" + (Encode(second) + "\r\n")
  {
    hide Encode, Writable;
    assert [first, second][1..] == [second] && [second][1..] == [];
    assert EncodeAll([]) == [];
    assert EncodeAll([second]) == Encode(second) + "\r\n" + [];
    assert Encode(second) + "\r\n" + [] == Encode(second) + "\r\n";
  }

  lemma {:induction false} ImageOfTwo(records: seq<Record>)
    requires |records| == 2 && IsData(records, 1) && Start(records, 1) == 0x0800_0000 && |records[1].payload| == 4
    requires records[0].kind == 4
    ensures forall a: nat :: Image(records, 2, a) ==
              if 0x0800_0000 <= a < 0x0800_0004 then Some(records[1].payload[a - 0x0800_0000]) else None
  {
    hide ModeAt, Start, BigEndian;
    forall a: nat ensures Image(records, 2, a) ==
              if 0x0800_0000 <= a < 0x0800_0004 then Some(records[1].payload[a - 0x0800_0000]) else None {
      assert !IsData(records, 0);
      assert Image(records, 1, a) == Image(records, 0, a) == None;
    }
  }

  lemma {:induction false} FirstWritten(r: Record)
    requires r == Record(0, 4, [0x08, 0x00])
    ensures Writable(r) && Encode(r) == ":020000040800F2"
  {
    var p := r.payload;
    assert p[..1] == [0x08] && [0x08][..0] == [];
    assert Sum([]) == 0 && Sum([0x08]) == 8 && Sum(p) == 8;
    assert Pairs([]) == [] && Pairs([0x08]) == "08" && Pairs(p) == "0800";
    assert CheckByte(r) == 0xF2;
    hide Pairs, CheckByte, Sum;
    assert HexPair(2) == "02" && HexPair(0) == "00" && HexPair(4) == "04" && HexPair(0xF2) == "F2";
  }

  lemma {:induction false} SecondWritten(r: Record)
    requires r == Record(0, 0, [0xDE, 0xAD, 0xBE, 0xEF])
    ensures Writable(r) && Encode(r) == ":04000000DEADBEEFC4"
  {
    SumOfBeef(r.payload);
    PairsOfBeef(r.payload);
    assert CheckByte(r) == 0xC4;
    hide Pairs, CheckByte, Sum;
    assert HexPair(4) == "04" && HexPair(0) == "00" && HexPair(0xC4) == "C4";
  }

  lemma {:induction false} SumOfBeef(p: seq<byte>)
    requires p == [0xDE, 0xAD, 0xBE, 0xEF]
    ensures Sum(p) == 0x338
  {
    assert Sum([]) == 0;
    hide *;
    var a: seq<byte>, b: seq<byte>, c: seq<byte> := [0xDE], [0xDE, 0xAD], [0xDE, 0xAD, 0xBE];
    SumLast([], 0xDE);
    SumLast(a, 0xAD);
    SumLast(b, 0xBE);
    SumLast(c, 0xEF);
    assert [] + [0xDE] == a && a + [0xAD] == b && b + [0xBE] == c && c + [0xEF] == p;
  }

  lemma {:induction false} PairsLast(p: seq<byte>, b: byte)
    ensures Pairs(p + [b]) == Pairs(p) + HexPair(b)
  {
    assert (p + [b])[..|p|] == p;
    hide HexPair;
  }

  lemma {:induction false} PairsOfBeef(p: seq<byte>)
    requires p == [0xDE, 0xAD, 0xBE, 0xEF]
    ensures Pairs(p) == "DEADBEEF"
  {
    assert HexPair(0xDE) == "DE" && HexPair(0xAD) == "AD" && HexPair(0xBE) == "BE" && HexPair(0xEF) == "EF" && Pairs([]) == [];
    hide *;
    var a: seq<byte>, b: seq<byte>, c: seq<byte> := [0xDE], [0xDE, 0xAD], [0xDE, 0xAD, 0xBE];
    PairsLast([], 0xDE);
    PairsLast(a, 0xAD);
    PairsLast(b, 0xBE);
    PairsLast(c, 0xEF);
    assert [] + [0xDE] == a && a + [0xAD] == b && b + [0xBE] == c && c + [0xEF] == p;
  }

  /** A record whose check byte is another is refused. */
  lemma {:induction false} WrongCheckRefused(r: Record, b: byte)
    requires Writable(r) && b != CheckByte(r)
    ensures var line := Encode(r); |line| >= 11 && Decode(line[..|line| - 2] + HexPair(b)) == None
  {
    hide *;
    var line, n := Encode(r), |r.payload|;
    var wrong := line[..|line| - 2] + HexPair(b);
    PairLengths();
    WritableParts(r);
    Fields(r);
    LengthRead(r);
    AddressRead(r);
    KindRead(r);
    assert forall i, j :: 0 <= i <= j <= |line| - 2 ==> wrong[i..j] == line[i..j];
    assert wrong[9 + 2 * n..9 + 2 * n + 2] == HexPair(b);
    SameByte(line, wrong, 1);
    SameByte(line, wrong, 7);
    PayloadRead(wrong, r.payload, n);
    assert r.payload[..n] == r.payload;
    ByteAtPair(wrong, 9 + 2 * n, b);
    CheckOpens(r, b);
    DecodeRefused(wrong, r, b);
  }

  lemma {:induction false} SameByte(a: string, b: string, i: nat)
    requires i + 2 <= |a| && i + 2 <= |b| && a[i..i + 2] == b[i..i + 2]
    ensures ByteAt(a, i) == ByteAt(b, i)
  {
  }

  lemma {:induction false} CheckOpens(r: Record, b: byte)
    requires b != CheckByte(r)
    ensures (b + |r.payload| + r.address / 256 + r.address % 256 + r.kind + Sum(r.payload)) % 256 != 0
  {
    hide Sum;
  }

  lemma {:induction false} DecodeRefused(line: string, r: Record, b: byte)
    requires r.address < 65536 && |line| == 11 + 2 * |r.payload| && ByteAt(line, 1) == |r.payload|
    requires HexNumber(line[3..7]) == r.address && ByteAt(line, 7) == r.kind && Payload(line, |r.payload|) == r.payload
    requires ByteAt(line, 9 + 2 * |r.payload|) == b
    requires (b + |r.payload| + r.address / 256 + r.address % 256 + r.kind + Sum(r.payload)) % 256 != 0
    ensures Decode(line) == None
  {
    hide ByteAt, HexNumber, Payload, Sum;
  }
}
