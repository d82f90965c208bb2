/** Bytes, shifts and the exclusive or, all on unbounded naturals.

    The repository computes on machine words; every word here is a natural
    number below the matching power of two. */
module Bits {

  type byte = x: nat | x < 256

  /** a << k. */
  function Shl(a: nat, k: nat): nat {
    if k == 0 then a else 2 * Shl(a, k - 1)
  }

  /** a >> k. */
  function Shr(a: nat, k: nat): nat {
    if k == 0 then a else Shr(a, k - 1) / 2
  }

  /** a ^ b, least significant bit last. */
  function Xor(a: nat, b: nat): nat
    decreases a + b
  {
    if a == 0 && b == 0 then 0 else 2 * Xor(a / 2, b / 2) + (if a % 2 == b % 2 then 0 else 1)
  }

  lemma {:induction false} ShlAdd(a: nat, j: nat, k: nat)
    ensures Shl(a, j + k) == Shl(Shl(a, j), k)
  {
    if k == 0 {
    } else {
      ShlAdd(a, j, k - 1);
    }
  }

  lemma {:induction false} ShlPositive(a: nat, k: nat)
    ensures a <= Shl(a, k)
  {
    if k == 0 {
    } else {
      ShlPositive(a, k - 1);
    }
  }

  lemma {:induction false} ShlMonotone(a: nat, b: nat, k: nat)
    requires a <= b
    ensures Shl(a, k) <= Shl(b, k)
  {
    if k == 0 {
    } else {
      ShlMonotone(a, b, k - 1);
    }
  }

  lemma {:induction false} ShlPlus(a: nat, b: nat, k: nat)
    ensures Shl(a + b, k) == Shl(a, k) + Shl(b, k)
  {
    if k == 0 {
    } else {
      ShlPlus(a, b, k - 1);
    }
  }

  lemma {:induction false} ShlByte(a: nat)
    ensures Shl(a, 8) == 256 * a
  {
    assert Shl(a, 1) == 2 * a;
    assert Shl(a, 3) == 8 * a;
    assert Shl(a, 5) == 32 * a;
    assert Shl(a, 7) == 128 * a;
  }

  lemma {:induction false} ShlWord(a: nat)
    ensures Shl(a, 16) == 0x10000 * a
  {
    ShlAdd(a, 8, 8);
    ShlByte(a);
    ShlByte(256 * a);
  }

  lemma {:induction false} ShrByte(b: byte)
    ensures Shr(b, 8) == 0
  {
    assert Shr(b, 1) == b / 2;
    assert Shr(b, 2) == b / 4;
    assert Shr(b, 3) == b / 8;
    assert Shr(b, 4) == b / 16;
    assert Shr(b, 5) == b / 32;
    assert Shr(b, 6) == b / 64;
  }

  /** Halving and parity go through the exclusive or. */
  lemma {:induction false} XorHalf(a: nat, b: nat)
    ensures Xor(a, b) / 2 == Xor(a / 2, b / 2)
    ensures Xor(a, b) % 2 == if a % 2 == b % 2 then 0 else 1
  {
  }

  lemma {:induction false} XorComm(a: nat, b: nat)
    ensures Xor(a, b) == Xor(b, a)
    decreases a + b
  {
    if a == 0 && b == 0 {
    } else {
      XorComm(a / 2, b / 2);
    }
  }

  lemma {:induction false} XorZero(a: nat)
    ensures Xor(a, 0) == a && Xor(0, a) == a
  {
    if a == 0 {
    } else {
      XorZero(a / 2);
    }
  }

  lemma {:induction false} XorSelf(a: nat)
    ensures Xor(a, a) == 0
  {
    if a == 0 {
    } else {
      XorSelf(a / 2);
    }
  }

  lemma {:induction false} XorAssoc(a: nat, b: nat, c: nat)
    ensures Xor(Xor(a, b), c) == Xor(a, Xor(b, c))
    decreases a + b + c
  {
    if a == 0 && b == 0 && c == 0 {
    } else {
      XorAssoc(a / 2, b / 2, c / 2);
      XorHalf(a, b);
      XorHalf(b, c);
      XorHalf(Xor(a, b), c);
      XorHalf(a, Xor(b, c));
    }
  }

  /** Xor with the same word twice changes nothing. */
  lemma {:induction false} XorCancel(a: nat, b: nat)
    ensures Xor(Xor(a, b), b) == a && Xor(a, Xor(a, b)) == b
  {
    XorAssoc(a, b, b);
    XorSelf(b);
    XorZero(a);
    XorAssoc(a, a, b);
    XorSelf(a);
    XorZero(b);
  }

  /** Only equal words have exclusive or 0. */
  lemma {:induction false} XorIsZero(a: nat, b: nat)
    ensures Xor(a, b) == 0 <==> a == b
  {
    XorCancel(a, b);
    XorZero(a);
    XorSelf(a);
  }

  /** The four words may be paired up either way. */
  lemma {:induction false} XorSwap(a: nat, b: nat, c: nat, d: nat)
    ensures Xor(Xor(a, b), Xor(c, d)) == Xor(Xor(a, c), Xor(b, d))
  {
    XorAssoc(a, b, Xor(c, d));
    XorAssoc(b, c, d);
    XorComm(b, c);
    XorAssoc(c, b, d);
    XorAssoc(a, c, Xor(b, d));
  }

  lemma {:induction false} XorBound(a: nat, b: nat, k: nat)
    requires a < Shl(1, k) && b < Shl(1, k)
    ensures Xor(a, b) < Shl(1, k)
    decreases k
  {
    if a == 0 && b == 0 {
    } else {
      XorBound(a / 2, b / 2, k - 1);
    }
  }

  /** A part below 2^k does not meet a part that was shifted by k. */
  lemma {:induction false} XorSplit(a: nat, b: nat, x: nat, y: nat, k: nat)
    requires x < Shl(1, k) && y < Shl(1, k)
    ensures Xor(Shl(a, k) + x, Shl(b, k) + y) == Shl(Xor(a, b), k) + Xor(x, y)
    decreases k
  {
    hide Xor;
    if k == 0 {
      XorSelf(0);
    } else {
      XorSplit(a, b, x / 2, y / 2, k - 1);
      XorHalf(x, y);
      XorHalf(Shl(a, k) + x, Shl(b, k) + y);
    }
  }

  /** Bytes stay bytes. */
  function XorByte(a: byte, b: byte): (r: byte)
    ensures r == Xor(a, b)
  {
    XorBound(a, b, 8);
    Xor(a, b)
  }
}
