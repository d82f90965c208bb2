/** The bit-serial CRC-16 of imp/common/iutils.cpp.

    A natural number stands for the polynomial over GF(2) whose coefficients
    are its bits. The generator is x^16 + x^12 + x^5 + 1. */
module Crc {
  import opened Bits
  import opened Bytes

  const GENERATOR: nat := 0x11021

  /** Product of two polynomials over GF(2). */
  function Mul(q: nat, g: nat): nat {
    if q == 0 then 0
    else Xor(2 * Mul(q / 2, g), if q % 2 == 1 then g else 0)
  }

  /** r is what is left of n after division by the generator. */
  ghost predicate IsRemainder(n: nat, r: nat) {
    r < 0x10000 && exists q: nat :: IsQuotient(n, q, r)
  }

  ghost predicate IsQuotient(n: nat, q: nat, r: nat) {
    n == Xor(Mul(q, GENERATOR), r)
  }

  /** One shift of the register, with the reduction that follows it. */
  function Shift(c: nat, bit: nat): (r: nat)
    requires c < 0x10000 && bit < 2
    ensures r < 0x10000
  {
    var t := 2 * c + bit;
    if t < 0x10000 then t else ReduceBound(t); Xor(t, GENERATOR)
  }

  /** The register after all bits of n have been shifted in. */
  function Register(n: nat): (r: nat)
    ensures r < 0x10000
  {
    if n == 0 then 0 else Shift(Register(n / 2), n % 2)
  }

  lemma {:induction false} ReduceBound(t: nat)
    requires 0x10000 <= t < 0x20000
    ensures Xor(t, GENERATOR) < 0x10000
  {
    ShlWord(1);
    ShlZero(16);
    XorSplit(1, 1, t - 0x10000, 0x1021, 16);
    XorSelf(1);
    XorBound(t - 0x10000, 0x1021, 16);
  }

  // ---------------------------------------------------------------- algebra

  lemma {:induction false} MulDouble(q: nat, g: nat, b: nat)
    requires b < 2
    ensures Mul(2 * q + b, g) == Xor(2 * Mul(q, g), if b == 1 then g else 0)
  {
    XorZero(0);
    assert (2 * q + b) / 2 == q;
  }

  lemma {:induction false} XorTwice(a: nat, b: nat)
    ensures Xor(2 * a, 2 * b) == 2 * Xor(a, b)
  {
    XorHalf(2 * a, 2 * b);
  }

  lemma {:induction false} MulXor(p: nat, q: nat, g: nat)
    ensures Mul(Xor(p, q), g) == Xor(Mul(p, g), Mul(q, g))
    decreases p + q
  {
    if p == 0 && q == 0 {
      XorZero(0);
    } else {
      MulXor(p / 2, q / 2, g);
      XorHalf(p, q);
      MulXorStep(p, q, g, Mul(p / 2, g), Mul(q / 2, g));
      MulDouble(p / 2, g, p % 2);
      MulDouble(q / 2, g, q % 2);
      MulDouble(Xor(p / 2, q / 2), g, Xor(p, q) % 2);
    }
  }

  lemma {:induction false} MulXorStep(p: nat, q: nat, g: nat, mp: nat, mq: nat)
    ensures var gp := if p % 2 == 1 then g else 0;
            var gq := if q % 2 == 1 then g else 0;
            Xor(Xor(2 * mp, gp), Xor(2 * mq, gq))
            == Xor(2 * Xor(mp, mq), if p % 2 == q % 2 then 0 else g)
  {
    var gp := if p % 2 == 1 then g else 0;
    var gq := if q % 2 == 1 then g else 0;
    XorSwap(2 * mp, gp, 2 * mq, gq);
    XorTwice(mp, mq);
    XorSelf(gp);
    XorZero(g);
  }

  /** A non-zero multiple of the generator has degree 16 + deg(d). */
  lemma {:induction false} MulDegree(d: nat) returns (k: nat)
    requires d > 0
    ensures Shl(0x10000, k) <= Mul(d, GENERATOR) < Shl(0x20000, k)
  {
    if d == 1 {
      k := 0;
      MulDouble(0, GENERATOR, 1);
      XorZero(GENERATOR);
    } else {
      var j := MulDegree(d / 2);
      k := j + 1;
      MulDouble(d / 2, GENERATOR, d % 2);
      XorKeepsDegree(2 * Mul(d / 2, GENERATOR), if d % 2 == 1 then GENERATOR else 0, k);
    }
  }

  lemma {:induction false} XorKeepsDegree(m: nat, g: nat, k: nat)
    requires k > 0 && g < 0x20000 && Shl(0x10000, k) <= m < Shl(0x20000, k)
    ensures Shl(0x10000, k) <= Xor(m, g) < Shl(0x20000, k)
  {
    var top := Shl(1, 16 + k);
    ShlAdd(1, 16, k);
    ShlWord(1);
    ShlTwice(0x10000, k);
    WideEnough(k);
    XorAtTop(m - top, g, 16 + k);
  }

  lemma {:induction false} XorAtTop(x: nat, y: nat, k: nat)
    requires x < Shl(1, k) && y < Shl(1, k)
    ensures Shl(1, k) <= Xor(Shl(1, k) + x, y) < 2 * Shl(1, k)
  {
    XorSplit(1, 0, x, y, k);
    ShlZero(k);
    XorZero(1);
    XorBound(x, y, k);
  }

  lemma {:induction false} WideEnough(k: nat)
    requires k > 0
    ensures Shl(1, 16 + k) >= 0x20000
  {
    if k == 1 {
      ShlWord(1);
    } else {
      WideEnough(k - 1);
    }
  }

  lemma {:induction false} ShlTwice(a: nat, k: nat)
    ensures Shl(2 * a, k) == 2 * Shl(a, k)
  {
    ShlAdd(a, 1, k);
  }

  lemma {:induction false} XorShl(a: nat, b: nat, k: nat)
    ensures Xor(Shl(a, k), Shl(b, k)) == Shl(Xor(a, b), k)
  {
    ShlPositive(1, k);
    XorSplit(a, b, 0, 0, k);
  }

  lemma {:induction false} ShlZero(k: nat)
    ensures Shl(0, k) == 0
  {
    if k == 0 {
    } else {
      ShlZero(k - 1);
    }
  }

  /** Dividing a sum divides both parts. */
  lemma {:induction false} QuotientXor(m: nat, n: nat, q: nat, p: nat, r: nat, s: nat)
    requires IsQuotient(m, q, r) && IsQuotient(n, p, s)
    ensures IsQuotient(Xor(m, n), Xor(q, p), Xor(r, s))
  {
    hide Xor;
    XorSwap(Mul(q, GENERATOR), r, Mul(p, GENERATOR), s);
    MulXor(q, p, GENERATOR);
  }

  lemma {:induction false} XorWord(r: nat, s: nat)
    requires r < 0x10000 && s < 0x10000
    ensures Xor(r, s) < 0x10000
  {
    ShlWord(1);
    XorBound(r, s, 16);
  }

  /** Division by the generator leaves one remainder only. */
  lemma {:induction false} RemainderUnique(n: nat, r: nat, s: nat)
    requires IsRemainder(n, r) && IsRemainder(n, s)
    ensures r == s
  {
    var q: nat :| IsQuotient(n, q, r);
    var p: nat :| IsQuotient(n, p, s);
    QuotientXor(n, n, q, p, r, s);
    XorSelf(n);
    ZeroQuotient(Xor(q, p), Xor(r, s));
    XorWord(r, s);
    SmallMultiple(Xor(q, p));
    XorIsZero(r, s);
  }

  lemma {:induction false} ZeroQuotient(d: nat, e: nat)
    requires IsQuotient(0, d, e)
    ensures Mul(d, GENERATOR) == e
  {
    XorIsZero(Mul(d, GENERATOR), e);
  }

  lemma {:induction false} SmallMultiple(d: nat)
    requires Mul(d, GENERATOR) < 0x10000
    ensures d == 0 && Mul(d, GENERATOR) == 0
  {
    if d > 0 {
      var k := MulDegree(d);
      ShlPositive(0x10000, k);
      assert false;
    }
  }

  /** The register holds the polynomial remainder of everything shifted in. */
  lemma {:induction false} RegisterIsRemainder(n: nat)
    ensures IsRemainder(n, Register(n))
  {
    hide Shift, Xor;
    if n == 0 {
      XorZero(0);
      assert IsQuotient(n, 0, Register(n));
    } else {
      RegisterIsRemainder(n / 2);
      RegisterNext(n / 2, n % 2);
      hide *;
      ShiftIsRemainder(n / 2, Register(n / 2), n % 2);
    }
  }

  lemma {:induction false} ShiftIsRemainder(n: nat, c: nat, b: nat)
    requires IsRemainder(n, c) && b < 2
    ensures IsRemainder(2 * n + b, Shift(c, b))
  {
    hide Mul, Xor, IsQuotient;
    var q: nat :| IsQuotient(n, q, c);
    DoubledQuotient(n, q, c, b);
    if 2 * c + b >= 0x10000 {
      ReducedQuotient(2 * n + b, q, 2 * c + b);
    }
  }

  /** Taking the generator off once more. */
  lemma {:induction false} ReducedQuotient(n: nat, q: nat, t: nat)
    requires IsQuotient(n, 2 * q, t)
    ensures IsQuotient(n, 2 * q + 1, Xor(t, GENERATOR))
  {
    hide Mul, Xor;
    MulDouble(q, GENERATOR, 0);
    MulDouble(q, GENERATOR, 1);
    XorZero(2 * Mul(q, GENERATOR));
    XorMoved(2 * Mul(q, GENERATOR), GENERATOR, t);
  }

  lemma {:induction false} DoubledQuotient(n: nat, q: nat, c: nat, b: nat)
    requires IsQuotient(n, q, c) && b < 2
    ensures IsQuotient(2 * n + b, 2 * q, 2 * c + b)
  {
    hide Mul, Xor;
    XorHalf(2 * Mul(q, GENERATOR), 2 * c + b);
    MulDouble(q, GENERATOR, 0);
    XorZero(2 * Mul(q, GENERATOR));
  }

  lemma {:induction false} XorMoved(m: nat, g: nat, t: nat)
    ensures Xor(Xor(m, g), Xor(t, g)) == Xor(m, t)
  {
    XorSwap(m, g, t, g);
    XorSelf(g);
    XorZero(Xor(m, t));
  }

  /** The remainder of a sum is the sum of the remainders. */
  lemma {:induction false} RegisterXor(m: nat, n: nat)
    ensures Register(Xor(m, n)) == Xor(Register(m), Register(n))
  {
    RegisterIsRemainder(m);
    RegisterIsRemainder(n);
    RegisterIsRemainder(Xor(m, n));
    RemainderXor(m, n, Register(m), Register(n));
    RemainderUnique(Xor(m, n), Register(Xor(m, n)), Xor(Register(m), Register(n)));
  }

  lemma {:induction false} RemainderXor(m: nat, n: nat, r: nat, s: nat)
    requires IsRemainder(m, r) && IsRemainder(n, s)
    ensures IsRemainder(Xor(m, n), Xor(r, s))
  {
    var q: nat :| IsQuotient(m, q, r);
    var p: nat :| IsQuotient(n, p, s);
    QuotientXor(m, n, q, p, r, s);
    XorWord(r, s);
  }

  lemma {:induction false} RegisterSmall(n: nat)
    requires n < 0x10000
    ensures Register(n) == n
  {
    if n == 0 {
    } else {
      RegisterSmall(n / 2);
    }
  }

  /** Shifting in zero bits neither makes nor hides a zero remainder. */
  lemma {:induction false} RegisterZeros(n: nat, k: nat)
    ensures Register(Shl(n, k)) == 0 <==> Register(n) == 0
  {
    hide *;
    if k == 0 {
      NoShift(n);
    } else {
      RegisterZeros(n, k - 1);
      ShlNext(n, k);
      ShiftZero(Register(Shl(n, k - 1)));
      RegisterNext(Shl(n, k - 1), 0);
    }
  }

  lemma {:induction false} ShlNext(n: nat, k: nat)
    requires k > 0
    ensures Shl(n, k) == 2 * Shl(n, k - 1)
  {
  }

  lemma {:induction false} RegisterNext(n: nat, b: nat)
    requires b < 2
    ensures Register(2 * n + b) == Shift(Register(n), b)
  {
    assert (2 * n + b) / 2 == n;
  }

  lemma {:induction false} ShiftZero(c: nat)
    requires c < 0x10000
    ensures Shift(c, 0) == 0 <==> c == 0
  {
    XorIsZero(2 * c, GENERATOR);
  }

  // ---------------------------------------------------------------- the loop

  lemma {:induction false} BigEndianAppend(data: seq<byte>, b: byte)
    ensures BigEndian(data + [b]) == Shl(BigEndian(data), 8) + b
  {
    assert (data + [b])[..|data|] == data;
    ShlByte(BigEndian(data));
    hide Shl;
  }

  lemma {:induction false} NoShift(a: nat)
    ensures Shl(a, 0) == a
  {
  }

  method ShiftIn(crc: nat, bit: nat) returns (r: nat)
    requires crc < 0x10000 && bit < 2
    ensures r == Shift(crc, bit)
  {
    r := 2 * crc + bit;
    if r >= 0x10000 {
      r := Xor(r, GENERATOR);
    }
  }

  /** The inner loop: eight bits, highest first. */
  method ShiftInByte(crc: nat, b: byte, ghost v: nat) returns (r: nat)
    requires crc == Register(v)
    ensures r == Register(Shl(v, 8) + b)
  {
    hide Register, Shift;
    r := crc;
    var rc := 8;
    ShrByte(b);
    while rc > 0
      invariant 0 <= rc <= 8
      invariant r == Register(Shl(v, 8 - rc) + Shr(b, rc))
    {
      rc := rc - 1;
      RegisterNext(Shl(v, 7 - rc) + Shr(b, rc + 1), Shr(b, rc) % 2);
      r := ShiftIn(r, Shr(b, rc) % 2);
    }
  }

  /** crc_rc16. Its length counter is one byte wide, so the loop ends only for
      at most 255 bytes. */
  method Crc16(data: seq<byte>) returns (crc: nat)
    requires |data| <= 255
    ensures crc == Checksum(data)
    ensures IsRemainder(Shl(BigEndian(data), 16), crc)
  {
    hide *;
    crc := 0;
    NothingLeft();
    assert data[..0] == [];
    var i := 0;
    while i < |data|
      invariant 0 <= i <= |data|
      invariant crc == Register(BigEndian(data[..i]))
    {
      crc := ShiftInByte(crc, data[i], BigEndian(data[..i]));
      BigEndianAppend(data[..i], data[i]);
      assert data[..i + 1] == data[..i] + [data[i]];
      i := i + 1;
    }
    assert data[..i] == data;
    var k := 0;
    ghost var v := BigEndian(data);
    NoShift(v);
    while k < 16
      invariant 0 <= k <= 16
      invariant crc == Register(Shl(v, k))
    {
      RegisterNext(Shl(v, k), 0);
      ShlNext(v, k + 1);
      crc := ShiftIn(crc, 0);
      k := k + 1;
    }
    RegisterIsRemainder(Shl(BigEndian(data), 16));
    ChecksumIs(data);
  }

  // ---------------------------------------------------------------- results

  /** The checksum as a function of the bytes: the remainder of data * x^16. */
  function Checksum(data: seq<byte>): nat {
    Register(Shl(BigEndian(data), 16))
  }

  function XorBytes(a: seq<byte>, b: seq<byte>): (r: seq<byte>)
    requires |a| == |b|
    ensures |r| == |a|
    ensures forall i :: 0 <= i < |a| ==> r[i] == Xor(a[i], b[i])
  {
    if a == [] then []
    else XorBytes(a[..|a| - 1], b[..|b| - 1]) + [XorByte(a[|a| - 1], b[|b| - 1])]
  }

  lemma {:induction false} BigEndianXor(a: seq<byte>, b: seq<byte>)
    requires |a| == |b|
    ensures BigEndian(XorBytes(a, b)) == Xor(BigEndian(a), BigEndian(b))
  {
    hide Xor, Shl;
    if a == [] {
      XorZero(0);
    } else {
      var (a', b') := (a[..|a| - 1], b[..|b| - 1]);
      BigEndianXor(a', b');
      assert XorBytes(a, b)[..|a| - 1] == XorBytes(a', b');
      ShlByte(1);
      ShlByte(BigEndian(a'));
      ShlByte(BigEndian(b'));
      ShlByte(BigEndian(XorBytes(a', b')));
      XorSplit(BigEndian(a'), BigEndian(b'), a[|a| - 1], b[|b| - 1], 8);
    }
  }

  /** The checksum of the byte-wise exclusive or of two messages of one length
      is the exclusive or of their checksums. */
  lemma {:induction false} ChecksumLinear(a: seq<byte>, b: seq<byte>)
    requires |a| == |b|
    ensures Checksum(XorBytes(a, b)) == Xor(Checksum(a), Checksum(b))
  {
    BigEndianXor(a, b);
    XorShl(BigEndian(a), BigEndian(b), 16);
    RegisterXor(Shl(BigEndian(a), 16), Shl(BigEndian(b), 16));
  }

  lemma {:induction false} XorAppend(v: nat, c: nat)
    requires c < 0x10000
    ensures Shl(v, 16) + c == Xor(Shl(v, 16), c)
  {
    ShlWord(1);
    XorSplit(v, 0, 0, c, 16);
    ShlZero(16);
    XorZero(v);
    XorZero(c);
  }

  /** A message followed by its own checksum, high byte first, has checksum 0. */
  lemma {:induction false} ChecksumOfSealed(data: seq<byte>)
    ensures Checksum(data + [Checksum(data) / 256, Checksum(data) % 256]) == 0
  {
    var c := Checksum(data);
    assert c < 0x10000;
    hide *;
    Sealed(data, c / 256, c % 256);
  }

  lemma {:induction false} Sealed(data: seq<byte>, hi: byte, lo: byte)
    requires Checksum(data) == 256 * hi + lo
    ensures Checksum(data + [hi, lo]) == 0
  {
    hide *;
    var c, n := Checksum(data), Shl(BigEndian(data), 16);
    ChecksumIs(data);
    SealedValue(data, hi, lo);
    XorAppend(BigEndian(data), c);
    RegisterXor(n, c);
    RegisterSmall(c);
    XorSelf(c);
    RegisterZeros(n + c, 16);
    ChecksumIs(data + [hi, lo]);
    NothingLeft();
  }

  lemma {:induction false} ChecksumIs(data: seq<byte>)
    ensures Checksum(data) == Register(Shl(BigEndian(data), 16))
  {
  }

  lemma {:induction false} NothingLeft()
    ensures Register(0) == 0 && BigEndian([]) == 0
  {
  }

  lemma {:induction false} SealedValue(data: seq<byte>, hi: byte, lo: byte)
    ensures BigEndian(data + [hi, lo]) == Shl(BigEndian(data), 16) + 256 * hi + lo
  {
    assert data + [hi, lo] == data + [hi] + [lo];
    hide BigEndian, Shl;
    BigEndianAppend(data + [hi], lo);
    BigEndianAppend(data, hi);
    ShlByte(BigEndian(data + [hi]));
    ShlAdd(BigEndian(data), 8, 8);
    ShlByte(Shl(BigEndian(data), 8));
  }

  /** Every error pattern confined to sixteen consecutive bits changes the
      checksum: the pattern is burst << shift with 0 < burst < 2^16. */
  lemma {:induction false} BurstDetected(a: seq<byte>, b: seq<byte>, burst: nat, shift: nat)
    requires |a| == |b| && 0 < burst < 0x10000
    requires Xor(BigEndian(a), BigEndian(b)) == Shl(burst, shift)
    ensures Checksum(a) != Checksum(b)
  {
    ChecksumLinear(a, b);
    BigEndianXor(a, b);
    RegisterSmall(burst);
    RegisterZeros(burst, shift);
    RegisterZeros(Shl(burst, shift), 16);
    XorIsZero(Checksum(a), Checksum(b));
  }

  /** The generator is the one of CRC-16/XMODEM: a single 1 leaves x^16 reduced. */
  lemma {:induction false} ChecksumOfOne()
    ensures Checksum([1]) == 0x1021
  {
    OneIsOne();
    RegisterSmall(0x8000);
    RegisterNext(0x8000, 0);
    GeneratorLeft();
    hide *;
    ChecksumIs([1]);
  }

  lemma {:induction false} OneIsOne()
    ensures Shl(BigEndian([1]), 16) == 0x10000
  {
    assert [1][..0] == [] && BigEndian([]) == 0;
    ShlWord(1);
    hide Shl;
  }

  lemma {:induction false} GeneratorLeft()
    ensures Shift(0x8000, 0) == 0x1021
  {
    assert Xor(1, 1) == 0;
    assert Xor(0x100, 0x110) == 0x10;
    assert Xor(0x1000, 0x1102) == 0x102;
    assert Xor(0x8000, 0x8810) == 0x810;
    assert Xor(0x10000, 0x11021) == 0x1021;
  }
}
