/** Byte strings: sums and big-endian numbers. */
module Bytes {
  import opened Bits

  function Sum(s: seq<byte>): nat {
    if s == [] then 0 else Sum(s[..|s| - 1]) + s[|s| - 1]
  }

  lemma {:induction false} SumAppend(a: seq<byte>, b: seq<byte>)
    ensures Sum(a + b) == Sum(a) + Sum(b)
  {
    if b == [] {
      assert a + b == a;
    } else {
      assert (a + b)[..|a + b| - 1] == a + b[..|b| - 1];
      SumAppend(a, b[..|b| - 1]);
    }
  }

  /** Replacing one byte changes the sum by the difference. */
  lemma {:induction false} SumUpdate(s: seq<byte>, i: nat, b: byte)
    requires i < |s|
    ensures Sum(s[i := b]) == Sum(s) - s[i] + b
  {
    var t := s[i + 1..];
    SumAppend(s[..i] + [s[i]], t);
    SumAppend(s[..i] + [b], t);
    SumLast(s[..i], s[i]);
    SumLast(s[..i], b);
    assert s == s[..i] + [s[i]] + t;
    assert s[i := b] == s[..i] + [b] + t;
  }

  lemma {:induction false} SumLast(s: seq<byte>, b: byte)
    ensures Sum(s + [b]) == Sum(s) + b
  {
    assert (s + [b])[..|s|] == s;
  }

  /** A two-byte number, high byte first. */
  function Word(high: nat, low: nat): nat {
    256 * high + low
  }

  function BigEndian(s: seq<byte>): nat {
    if s == [] then 0 else 256 * BigEndian(s[..|s| - 1]) + s[|s| - 1]
  }

  function ToBigEndian(n: nat, k: nat): (s: seq<byte>)
    ensures |s| == k
  {
    if k == 0 then [] else ToBigEndian(n / 256, k - 1) + [n % 256]
  }

  /** The numbers that k bytes can hold are below this. */
  function Limit(k: nat): nat {
    if k == 0 then 1 else 256 * Limit(k - 1)
  }

  lemma {:induction false} LimitValues()
    ensures Limit(2) == 0x1_0000 && Limit(4) == 0x1_0000_0000 && Limit(8) == 0x1_0000_0000_0000_0000
  {
    assert Limit(1) == 256;
    assert Limit(3) == 0x100_0000;
    assert Limit(5) == 0x100_0000_0000;
    assert Limit(6) == 0x1_0000_0000_0000;
    assert Limit(7) == 0x100_0000_0000_0000;
  }

  lemma {:induction false} BigEndianOf(n: nat, k: nat)
    requires n < Limit(k)
    ensures BigEndian(ToBigEndian(n, k)) == n
  {
    if k == 0 {
    } else {
      BigEndianOf(n / 256, k - 1);
      assert ToBigEndian(n, k)[..k - 1] == ToBigEndian(n / 256, k - 1);
    }
  }

  lemma {:induction false} ToBigEndianOf(s: seq<byte>)
    ensures ToBigEndian(BigEndian(s), |s|) == s && BigEndian(s) < Limit(|s|)
  {
    if s == [] {
    } else {
      ToBigEndianOf(s[..|s| - 1]);
      assert s == s[..|s| - 1] + [s[|s| - 1]];
    }
  }

  /** memcpy of data to position at. */
  method CopyTo(d: array<byte>, at: nat, data: seq<byte>)
    requires at + |data| <= d.Length
    modifies d
    ensures d[at..at + |data|] == data
    ensures d[..at] == old(d[..at]) && d[at + |data|..] == old(d[at + |data|..])
  {
    ghost var before := d[..];
    for i := 0 to |data|
      invariant forall k :: at <= k < at + i ==> d[k] == data[k - at]
      invariant forall k :: 0 <= k < at || at + i <= k < d.Length ==> d[k] == before[k]
    {
      d[at + i] := data[i];
    }
  }

  lemma {:induction false} PartialSum(a: nat, b: nat)
    ensures (a % 256 + b) % 256 == (a + b) % 256
  {
  }

  /** The loop that adds bytes to an 8-bit sum. */
  method SumUp(start: byte, s: seq<byte>) returns (sum: byte)
    ensures sum == (start + Sum(s)) % 256
  {
    sum := start;
    for i := 0 to |s|
      invariant sum == (start + Sum(s[..i])) % 256
    {
      assert s[..i + 1][..i] == s[..i];
      PartialSum(start + Sum(s[..i]), s[i]);
      sum := (sum + s[i]) % 256;
    }
    assert s[..|s|] == s;
  }
}
