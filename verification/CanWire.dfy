/** The bytes and ids of imp/can-utils as they are on the bus. */
module CanWire {
  import opened Bits
  import opened Bytes
  import opened CanBus

  // ---------------------------------------------------------------- ids

  /** The ids of the groups, with the control number 1 and the first fragment
      number; behind the flag of long ids each leads back to its group's cache. */
  lemma {:induction false} GroupIds(group: bv32)
    ensures PhysicalAddrToCanId(0x0001, 1) | (1 << 5) == 0x00002021
    ensures PhysicalAddrToCanId(0x3003, 1) | (1 << 5) == 0x06006021
    ensures PhysicalAddrToCanId(0x3004, 1) | (1 << 5) == 0x06008021
    ensures PhysicalAddrToCanId(0x2001, 1) | (1 << 5) == 0x04002021
    ensures PhysicalAddrToCanId(0x2002, 1) | (1 << 5) == 0x04004021
    ensures PhysicalAddrToCanId(0x2003, 1) | (1 << 5) == 0x04006021
    ensures PhysicalAddrToCanId(0xffff, 1) | (1 << 5) == 0x1fffe021
  {
    hide GROUPS;
  }

  /** The id of a received frame: 29 bits behind the flag of long ids, 11 bits
      without it; the error flag is kept with 29 bits. */
  lemma {:induction false} IdRead(id: bv32)
    requires id & 0xe0000000 == 0
    ensures PlainId(0x80000000 | id) == id
    ensures PlainId(id) == id & 0x7ff
    ensures PlainId(0x20000000 | id) == 0x20000000 | id
    ensures PlainId(0xa0000000 | id) == 0x20000000 | id
  {
    LongId(id);
    ErrorId(id);
  }

  lemma {:induction false} LongId(id: bv32)
    requires id & 0xe0000000 == 0
    ensures PlainId(0x80000000 | id) == id
  {
  }

  lemma {:induction false} ErrorId(id: bv32)
    requires id & 0xe0000000 == 0
    ensures PlainId(0x20000000 | id) == 0x20000000 | id
    ensures PlainId(0xa0000000 | id) == 0x20000000 | id
  {
  }

  /** An id from the bus leads to the group in its bits 13 to 28 if that is one of
      nine, and to group 0 otherwise. */
  lemma {:induction false} GroupRead(group: bv32, number: bv32, controlId: bv32)
    requires group <= 0xffff && number <= 0xff && controlId <= 0x1f
    ensures var id := 0x80000000 | (group << 13) | (number << 5) | controlId;
            CanIdToPhysicalAddr(PlainId(id)) ==
            if group == 0x0001 || group == 0x3001 || group == 0x3002 || group == 0x3003 || group == 0x3004
               || group == 0x2001 || group == 0x2002 || group == 0x2003 || group == 0xffff then group else 0
  {
    BitsRead(group, number, controlId);
    Known(group);
  }

  lemma {:induction false} BitsRead(group: bv32, number: bv32, controlId: bv32)
    requires group <= 0xffff && number <= 0xff && controlId <= 0x1f
    ensures var p := PlainId(0x80000000 | (group << 13) | (number << 5) | controlId);
            (((p >> 21) & 0xff) << 8) | ((p >> 13) & 0xff) == group
  {
  }

  lemma {:induction false} Known(group: bv32)
    ensures group in GROUPS <==>
            group == 0x0000 || group == 0x0001 || group == 0x3001 || group == 0x3002 || group == 0x3003 || group == 0x3004
            || group == 0x2001 || group == 0x2002 || group == 0x2003 || group == 0xffff
  {
  }

  // ---------------------------------------------------------------- frames

  /** The one frame for data and addresses, byte by byte. */
  lemma {:induction false} FrameIs(f: seq<byte>, data: seq<byte>, localAddr: nat, remoteAddr: nat)
    requires localAddr < 65536 && remoteAddr < 65536
    requires WellFormed(f) && Carries(f, data, localAddr, remoteAddr)
    ensures f == [0x55, 0xAA, f[2], |data| + 2, localAddr / 256, localAddr % 256, remoteAddr / 256, remoteAddr % 256] + data
    ensures (f[2] as nat + (|data| + 2) + localAddr / 256 + localAddr % 256 + remoteAddr / 256 + remoteAddr % 256 + Sum(data)) % 256 == 0
  {
    var head := f[3..8];
    assert f[3..] == head + data;
    SumAppend(head, data);
    assert head == [f[3], f[4], f[5], f[6], f[7]];
    FiveSummed(f[3], f[4], f[5], f[6], f[7]);
  }

  lemma {:induction false} FiveSummed(a: byte, b: byte, c: byte, d: byte, e: byte)
    ensures Sum([a, b, c, d, e]) == a as nat + b + c + d + e
  {
    assert [a, b, c, d, e] == [] + [a] + [b] + [c] + [d] + [e];
    hide Sum;
    SumLast([], a);
    SumLast([] + [a], b);
    SumLast([] + [a] + [b], c);
    SumLast([] + [a] + [b] + [c], d);
    SumLast([] + [a] + [b] + [c] + [d], e);
    assert Sum([]) == 0 by {
      NothingSummed();
    }
  }

  lemma {:induction false} NothingSummed()
    ensures Sum([]) == 0
  {
  }

  /** Two bytes from the application to the boards of the first player: the frame,
      and the pieces it goes out in. */
  lemma {:induction false} SampleFrame(f: seq<byte>)
    requires WellFormed(f) && Carries(f, [0x01, 0xAB], 0x0001, 0x3003)
    ensures f == [0x55, 0xAA, 0x1C, 4, 0x00, 0x01, 0x30, 0x03, 0x01, 0xAB]
    ensures Chunks(f, 0) == [[0x55, 0xAA, 0x1C, 4, 0x00, 0x01, 0x30, 0x03], [0x01, 0xAB]]
  {
    FrameIs(f, [0x01, 0xAB], 0x0001, 0x3003);
    assert [0x01 as byte, 0xAB][..1] == [0x01] && [0x01 as byte][..0] == [];
    assert Sum([0x01, 0xAB]) == 0xAC;
    assert f[2] == 0x1C;
    Halves(f);
  }

  lemma {:induction false} Halves(f: seq<byte>)
    requires f == [0x55, 0xAA, 0x1C, 4, 0x00, 0x01, 0x30, 0x03, 0x01, 0xAB]
    ensures Chunks(f, 0) == [[0x55, 0xAA, 0x1C, 4, 0x00, 0x01, 0x30, 0x03], [0x01, 0xAB]]
  {
    assert Chunks(f, 10) == [];
    assert Chunks(f, 8) == [f[8..10]];
    assert Chunks(f, 0) == [f[0..8]] + Chunks(f, 8);
    hide Chunks;
    assert f[0..8] == [0x55, 0xAA, 0x1C, 4, 0x00, 0x01, 0x30, 0x03];
    assert |f[8..10]| == 2 && f[8..10][0] == 0x01 && f[8..10][1] == 0xAB;
    assert f[8..10] == [0x01, 0xAB];
  }

  // ---------------------------------------------------------------- the cache

  /** A piece that does not fit the 512 bytes of the cache is dropped. */
  lemma {:induction false} PieceTaken(cache: seq<byte>, piece: seq<byte>)
    ensures Fed(cache, piece) == if |cache| + |piece| <= 512 then Drained(cache + piece) else ([], cache)
  {
    hide Drained;
  }

  /** What one attempt makes of a cache with its first 0x55 at o. */
  lemma {:induction false} AttemptMeans(d: seq<byte>, o: nat)
    requires o + 6 < |d| && d[o] == 0x55 && forall i :: 0 <= i < o ==> d[i] != 0x55
    ensures var c := d[o + 1 := 0xAA]; var n := c[o + 3] as nat + 6;
            && (o + n > |d| && |d| < 256 ==> Unpacked(d) == Attempt([], false, c[o..]))
            && (o + n > |d| && |d| >= 256 ==> Unpacked(d) == Attempt([], false, c[o + 2..]))
            && (o + n <= |d| && (c[2] + Sum(c[o + 3..o + n])) % 256 == 0 ==> Unpacked(d) == Attempt(c[o..o + n], false, c[o + n..]))
            && (o + n <= |d| && (c[2] + Sum(c[o + 3..o + n])) % 256 != 0 ==> Unpacked(d) == Attempt([], true, c[o + 2..]))
  {
    hide Sum;
    assert Find(d, 0) == o;
  }

  /** And of one in which no frame begins. */
  lemma {:induction false} NothingBegins(d: seq<byte>)
    requires forall i :: 0 <= i && i + 6 < |d| ==> d[i] != 0x55
    ensures Unpacked(d) == if |d| < 6 then Attempt([], false, d) else Attempt([], true, d[|d| - 6..])
  {
    if |d| > 6 {
      var r := Find(d, 0);
      NothingFound(d, 0);
    } else if |d| == 6 {
      assert Find(d, 0) == 0 && d[0..] == d;
    }
  }

  lemma {:induction false} NothingFound(d: seq<byte>, from: nat)
    requires from + 6 <= |d| && forall i :: from <= i && i + 6 < |d| ==> d[i] != 0x55
    ensures Find(d, from) == |d| - 6
    decreases |d| - from
  {
    if from + 6 < |d| {
      NothingFound(d, from + 1);
    }
  }
}
