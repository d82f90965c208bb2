/** The parameter list of imp/commandlineTool.cpp: Base64 texts (section 4 of
    RFC 4648) joined with a split character. */
module ParamList {

  type Octet = bv8
  type Octets = seq<Octet>

  const PARAM_SPLIT_CHAR: Octet := 0xff
  const PAD: Octet := 61
  const TWO_TO_THE_32: nat := 0x1_0000_0000

  // ---------------------------------------------------------------- alphabet

  /** base64Char: table 1 of the standard, in ASCII. */
  function Char(index: Octet): Octet
    requires index < 64
  {
    if index < 26 then 65 + index
    else if index < 52 then 97 + (index - 26)
    else if index < 62 then 48 + (index - 52)
    else if index == 62 then 43
    else 47
  }

  /** base64DecodeTable, where what is no character of the alphabet counts as 'A'. */
  function Index(c: Octet): Octet {
    if 65 <= c <= 90 then c - 65
    else if 97 <= c <= 122 then 26 + (c - 97)
    else if 48 <= c <= 57 then 52 + (c - 48)
    else if c == 43 then 62
    else if c == 47 then 63
    else 0
  }

  lemma {:induction false} IndexOfChar(index: Octet)
    requires index < 64
    ensures Index(Char(index)) == index && Char(index) != PAD && Char(index) != PARAM_SPLIT_CHAR
  {
  }

  // The four 6-bit groups of three octets.
  function Group0(a: Octet): (r: Octet) ensures r < 64 { (a >> 2) & 0x3f }
  function Group1(a: Octet, b: Octet): (r: Octet) ensures r < 64 { (((a & 0x3) << 4) | (b >> 4)) & 0x3f }
  function Group2(b: Octet, c: Octet): (r: Octet) ensures r < 64 { ((b << 2) | (c >> 6)) & 0x3f }
  function Group3(c: Octet): (r: Octet) ensures r < 64 { c & 0x3f }

  /** The groups are the 24 bits of the octets, cut anew. */
  lemma {:induction false} GroupsAreTheBits(a: Octet, b: Octet, c: Octet)
    ensures ((a as bv32) << 16) | ((b as bv32) << 8) | (c as bv32)
         == ((Group0(a) as bv32) << 18) | ((Group1(a, b) as bv32) << 12) | ((Group2(b, c) as bv32) << 6) | (Group3(c) as bv32)
  {
  }

  lemma {:induction false} OctetsFromGroups(a: Octet, b: Octet, c: Octet)
    ensures (Group0(a) << 2) | (Group1(a, b) >> 4) == a
    ensures (Group1(a, b) << 4) | (Group2(b, c) >> 2) == b
    ensures (Group2(b, c) << 6) | Group3(c) == c
  {
  }

  // ---------------------------------------------------------------- encoding

  function Quad(s: Octets, i: nat): (q: Octets)
    requires 3 * i + 3 <= |s|
    ensures |q| == 4
  {
    var a, b, c := s[3 * i], s[3 * i + 1], s[3 * i + 2];
    [Char(Group0(a)), Char(Group1(a, b)), Char(Group2(b, c)), Char(Group3(c))]
  }

  /** The quads of the first n groups. */
  function Quads(s: Octets, n: nat): (t: Octets)
    requires 3 * n <= |s|
    ensures |t| == 4 * n
  {
    if n == 0 then [] else Quads(s, n - 1) + Quad(s, n - 1)
  }

  /** The padded quad of one or two last octets. */
  function LastQuad(s: Octets): (t: Octets)
    ensures |t| == if |s| % 3 == 0 then 0 else 4
  {
    var n := |s| / 3;
    if |s| % 3 == 0 then []
    else if |s| % 3 == 1 then [Char(Group0(s[3 * n])), Char(Group1(s[3 * n], 0)), PAD, PAD]
    else [Char(Group0(s[3 * n])), Char(Group1(s[3 * n], s[3 * n + 1])), Char(Group2(s[3 * n + 1], 0)), PAD]
  }

  function Encoded(s: Octets): Octets {
    Quads(s, |s| / 3) + LastQuad(s)
  }

  method Put(ret: array<Octet>, at: nat, c0: Octet, c1: Octet, c2: Octet, c3: Octet)
    requires at + 4 <= ret.Length
    modifies ret
    ensures ret[..at + 4] == old(ret[..at]) + [c0, c1, c2, c3]
  {
    ret[at], ret[at + 1], ret[at + 2], ret[at + 3] := c0, c1, c2, c3;
  }

  method Base64Encode(buf: Octets) returns (r: Octets)
    ensures r == Encoded(buf)
  {
    hide Quads, LastQuad;
    if |buf| == 0 {
      NothingEncoded();
      return [];
    }
    var numOrig24BitValues := |buf| / 3;
    var havePadding := |buf| > numOrig24BitValues * 3;
    var havePadding2 := |buf| == numOrig24BitValues * 3 + 2;
    var numResultBytes := 4 * (numOrig24BitValues + if havePadding then 1 else 0);
    var ret := new Octet[numResultBytes + 1];
    EncodeGroups(buf, ret, numOrig24BitValues);
    if havePadding {
      EncodeLast(buf, ret, numOrig24BitValues, havePadding2);
    }
    r := ret[..numResultBytes];
  }

  lemma {:induction false} NothingEncoded()
    ensures Encoded([]) == []
  {
  }

  /** The loop over whole groups. */
  method EncodeGroups(buf: Octets, ret: array<Octet>, n: nat)
    requires 3 * n <= |buf| && 4 * n <= ret.Length
    modifies ret
    ensures ret[..4 * n] == Quads(buf, n)
  {
    hide Char, Group0, Group1, Group2, Group3;
    for i := 0 to n
      invariant ret[..4 * i] == Quads(buf, i)
    {
      var a, b, c := buf[3 * i], buf[3 * i + 1], buf[3 * i + 2];
      Put(ret, 4 * i, Char((a >> 2) & 0x3f), Char((((a & 0x3) << 4) | (b >> 4)) & 0x3f),
          Char(((b << 2) | (c >> 6)) & 0x3f), Char(c & 0x3f));
      GroupBits(a, b, c);
    }
  }

  lemma {:induction false} GroupBits(a: Octet, b: Octet, c: Octet)
    ensures Group0(a) == (a >> 2) & 0x3f && Group1(a, b) == (((a & 0x3) << 4) | (b >> 4)) & 0x3f
    ensures Group2(b, c) == ((b << 2) | (c >> 6)) & 0x3f && Group3(c) == c & 0x3f
  {
  }

  /** The padded end. */
  method EncodeLast(buf: Octets, ret: array<Octet>, i: nat, havePadding2: bool)
    requires i == |buf| / 3 && |buf| % 3 != 0 && havePadding2 == (|buf| % 3 == 2) && 4 * i + 4 <= ret.Length
    modifies ret
    ensures ret[..4 * i + 4] == old(ret[..4 * i]) + LastQuad(buf)
  {
    var a := buf[3 * i];
    var b := if havePadding2 then buf[3 * i + 1] else 0;
    GroupBits(a, b, 0);
    PaddedGroups(a, b);
    hide Char, Group0, Group1, Group2, Group3;
    if havePadding2 {
      Put(ret, 4 * i, Char((a >> 2) & 0x3f), Char((((a & 0x3) << 4) | (b >> 4)) & 0x3f), Char((b << 2) & 0x3f), PAD);
    } else {
      Put(ret, 4 * i, Char((a >> 2) & 0x3f), Char(((a & 0x3) << 4) & 0x3f), PAD, PAD);
    }
  }

  /** Missing octets count as 0. */
  lemma {:induction false} PaddedGroups(a: Octet, b: Octet)
    ensures ((a & 0x3) << 4) & 0x3f == Group1(a, 0) && (b << 2) & 0x3f == Group2(b, 0)
  {
  }

  // ---------------------------------------------------------------- decoding

  /** A decoded parameter: the buffer and how much of it is meant. */
  datatype Param = Param(buf: Octets, len: nat)

  /** The octets of the quad at 4 * i. */
  function Triple(t: Octets, i: nat): (o: Octets)
    requires 4 * i + 4 <= |t|
    ensures |o| == 3
  {
    var i0, i1, i2, i3 := Index(t[4 * i]), Index(t[4 * i + 1]), Index(t[4 * i + 2]), Index(t[4 * i + 3]);
    [(i0 << 2) | (i1 >> 4), (i1 << 4) | (i2 >> 2), (i2 << 6) | i3]
  }

  function Triples(t: Octets, n: nat): (o: Octets)
    requires 4 * n <= |t|
    ensures |o| == 3 * n
  {
    if n == 0 then [] else Triples(t, n - 1) + Triple(t, n - 1)
  }

  /** How many of the first n characters pad. */
  function Pads(t: Octets, n: nat): (p: nat)
    requires n <= |t|
    ensures p <= n
  {
    if n == 0 then 0 else Pads(t, n - 1) + (if t[n - 1] == PAD then 1 else 0)
  }

  /** p is what base64Decode makes of t. */
  ghost predicate IsDecoded(t: Octets, p: Param) {
    var n := |t| / 4;
    && |p.buf| == 3 * |t| / 4 && 3 * n <= |p.buf|
    && p.buf[..3 * n] == Triples(t, n)
    && p.len == (3 * |t| / 4 - Pads(t, 4 * n)) % TWO_TO_THE_32
  }

  method Base64Decode(buf: Octets) returns (p: Param)
    requires 3 * |buf| < TWO_TO_THE_32
    ensures IsDecoded(buf, p)
  {
    if |buf| == 0 {
      return Param([], 0);
    }
    var retSize := 3 * |buf| / 4;
    var ret := new Octet[retSize];
    var paddingCount := DecodeQuads(buf, ret);
    p := Param(ret[..], (retSize - paddingCount) % TWO_TO_THE_32);
  }

  /** The loop over quads. */
  method DecodeQuads(buf: Octets, ret: array<Octet>) returns (paddingCount: nat)
    requires buf != [] && ret.Length == 3 * |buf| / 4
    modifies ret
    ensures 3 * (|buf| / 4) <= ret.Length && ret[..3 * (|buf| / 4)] == Triples(buf, |buf| / 4)
    ensures paddingCount == Pads(buf, 4 * (|buf| / 4))
  {
    hide Index, Triple;
    var jMax := |buf| - 3;
    var j, k := 0, 0;
    ghost var i := 0;
    paddingCount := 0;
    while j < jMax
      invariant j == 4 * i <= |buf| && k == 3 * i <= ret.Length
      invariant ret[..k] == Triples(buf, i) && paddingCount == Pads(buf, j)
    {
      paddingCount := DecodeQuad(buf, i, j, ret, k, paddingCount);
      k := k + 3;
      j := j + 4;
      i := i + 1;
    }
    assert i == |buf| / 4;
  }

  /** One turn of that loop. */
  method DecodeQuad(buf: Octets, ghost i: nat, j: nat, ret: array<Octet>, k: nat, pads: nat) returns (paddingCount: nat)
    requires j == 4 * i && j + 4 <= |buf| && k + 3 <= ret.Length && pads == Pads(buf, j)
    modifies ret
    ensures ret[..k + 3] == old(ret[..k]) + Triple(buf, i) && paddingCount == Pads(buf, j + 4)
  {
    hide Index;
    var outTmp := new Octet[4];
    paddingCount := Look(buf, j, outTmp, pads);
    ghost var q := outTmp[..];
    assert outTmp[0] == q[0] && outTmp[1] == q[1] && outTmp[2] == q[2] && outTmp[3] == q[3];
    PutTriple(ret, k, (outTmp[0] << 2) | (outTmp[1] >> 4), (outTmp[1] << 4) | (outTmp[2] >> 2), (outTmp[2] << 6) | outTmp[3]);
  }

  method PutTriple(ret: array<Octet>, at: nat, o0: Octet, o1: Octet, o2: Octet)
    requires at + 3 <= ret.Length
    modifies ret
    ensures ret[..at + 3] == old(ret[..at]) + [o0, o1, o2]
  {
    ret[at], ret[at + 1], ret[at + 2] := o0, o1, o2;
  }

  /** The inner loop: four characters through the table. */
  method Look(buf: Octets, j: nat, outTmp: array<Octet>, pads: nat) returns (paddingCount: nat)
    requires j + 4 <= |buf| && outTmp.Length == 4 && pads == Pads(buf, j)
    modifies outTmp
    ensures outTmp[..] == [Index(buf[j]), Index(buf[j + 1]), Index(buf[j + 2]), Index(buf[j + 3])]
    ensures paddingCount == Pads(buf, j + 4)
  {
    hide Index;
    paddingCount := pads;
    for i := 0 to 4
      invariant paddingCount == Pads(buf, j + i)
      invariant forall m :: 0 <= m < i ==> outTmp[m] == Index(buf[j + m])
    {
      if buf[j + i] == PAD {
        paddingCount := paddingCount + 1;
      }
      outTmp[i] := Index(buf[j + i]);
    }
  }

  // ---------------------------------------------------------------- round trip

  /** What the buffer of a parameter is meant to say. */
  ghost predicate Says(p: Param, s: Octets) {
    p.len == |s| <= |p.buf| && p.buf[..p.len] == s
  }

  lemma {:induction false} QuadsAt(s: Octets, n: nat, k: nat)
    requires k < n && 3 * n <= |s|
    ensures Quads(s, n)[4 * k..4 * k + 4] == Quad(s, k)
  {
    hide Quad;
    if k == n - 1 {
    } else {
      QuadsAt(s, n - 1, k);
      assert Quads(s, n)[4 * k..4 * k + 4] == Quads(s, n - 1)[4 * k..4 * k + 4];
    }
  }

  lemma {:induction false} QuadDecodes(s: Octets, k: nat, t: Octets)
    requires 3 * k + 3 <= |s| && 4 * k + 4 <= |t| && t[4 * k..4 * k + 4] == Quad(s, k)
    ensures Triple(t, k) == s[3 * k..3 * k + 3]
    ensures forall j :: 4 * k <= j < 4 * k + 4 ==> t[j] != PAD
  {
    var a, b, c := s[3 * k], s[3 * k + 1], s[3 * k + 2];
    QuadAt(s, k, t);
    hide *;
    FirstOctet(t, k, a, b);
    SecondOctet(t, k, a, b, c);
    ThirdOctet(t, k, a, b, c);
    NoPads(a, b, c);
    assert Triple(t, k) == [a, b, c] == s[3 * k..3 * k + 3];
  }

  lemma {:induction false} QuadAt(s: Octets, k: nat, t: Octets)
    requires 3 * k + 3 <= |s| && 4 * k + 4 <= |t| && t[4 * k..4 * k + 4] == Quad(s, k)
    ensures t[4 * k] == Char(Group0(s[3 * k])) && t[4 * k + 1] == Char(Group1(s[3 * k], s[3 * k + 1]))
    ensures t[4 * k + 2] == Char(Group2(s[3 * k + 1], s[3 * k + 2])) && t[4 * k + 3] == Char(Group3(s[3 * k + 2]))
  {
    hide Char, Group0, Group1, Group2, Group3;
    var q := t[4 * k..4 * k + 4];
    assert t[4 * k] == q[0] && t[4 * k + 1] == q[1] && t[4 * k + 2] == q[2] && t[4 * k + 3] == q[3];
  }

  lemma {:induction false} NoPads(a: Octet, b: Octet, c: Octet)
    ensures Char(Group0(a)) != PAD && Char(Group1(a, b)) != PAD && Char(Group2(b, c)) != PAD && Char(Group3(c)) != PAD
  {
    IndexOfChar(Group0(a));
    IndexOfChar(Group1(a, b));
    IndexOfChar(Group2(b, c));
    IndexOfChar(Group3(c));
  }

  lemma {:induction false} WholeGroupsDecode(s: Octets, t: Octets, k: nat)
    requires 3 * k <= |s| && 4 * k <= |t| && t[..4 * k] == Quads(s, k)
    ensures Triples(t, k) == s[..3 * k] && Pads(t, 4 * k) == 0
  {
    hide Triple, Quad;
    if k == 0 {
    } else {
      assert t[..4 * (k - 1)] == t[..4 * k][..4 * (k - 1)] == Quads(s, k - 1);
      WholeGroupsDecode(s, t, k - 1);
      assert t[4 * (k - 1)..4 * k] == t[..4 * k][4 * (k - 1)..];
      QuadDecodes(s, k - 1, t);
      assert s[..3 * k] == s[..3 * (k - 1)] + s[3 * (k - 1)..3 * k];
      var n := 4 * (k - 1);
      assert Pads(t, n + 4) == Pads(t, n + 3) == Pads(t, n + 2) == Pads(t, n + 1) == Pads(t, n);
    }
  }

  lemma {:induction false} LastCharacters(s: Octets, t: Octets, n: nat)
    requires |s| % 3 != 0 && t == Encoded(s) && n == |s| / 3
    ensures |t| == 4 * n + 4
    ensures var b: Octet := if |s| % 3 == 2 then s[3 * n + 1] else 0;
            && t[4 * n] == Char(Group0(s[3 * n])) && t[4 * n + 1] == Char(Group1(s[3 * n], b))
            && t[4 * n + 2] == (if |s| % 3 == 2 then Char(Group2(b, 0)) else PAD) && t[4 * n + 3] == PAD
  {
    hide Quads, Char, Group0, Group1, Group2;
    var q := LastQuad(s);
    assert t[4 * n] == q[0] && t[4 * n + 1] == q[1] && t[4 * n + 2] == q[2] && t[4 * n + 3] == q[3];
  }

  lemma {:induction false} LastOctets(s: Octets, t: Octets, n: nat)
    requires |s| % 3 != 0 && t == Encoded(s) && n == |s| / 3
    ensures |t| == 4 * n + 4 && Triple(t, n)[..|s| % 3] == s[3 * n..]
  {
    LastCharacters(s, t, n);
    var a := s[3 * n];
    var b := if |s| % 3 == 2 then s[3 * n + 1] else 0;
    hide *;
    FirstOctet(t, n, a, b);
    if |s| % 3 == 2 {
      SecondOctet(t, n, a, b, 0);
      assert Triple(t, n)[..2] == [a, b] == s[3 * n..];
    } else {
      assert Triple(t, n)[..1] == [a] == s[3 * n..];
    }
  }

  lemma {:induction false} FirstOctet(t: Octets, n: nat, a: Octet, b: Octet)
    requires 4 * n + 4 <= |t| && t[4 * n] == Char(Group0(a)) && t[4 * n + 1] == Char(Group1(a, b))
    ensures Triple(t, n)[0] == a
  {
    IndexOfChar(Group0(a));
    IndexOfChar(Group1(a, b));
    OctetsFromGroups(a, b, 0);
    hide Char, Index, Group0, Group1, Group2, Group3;
  }

  lemma {:induction false} SecondOctet(t: Octets, n: nat, a: Octet, b: Octet, c: Octet)
    requires 4 * n + 4 <= |t| && t[4 * n + 1] == Char(Group1(a, b)) && t[4 * n + 2] == Char(Group2(b, c))
    ensures Triple(t, n)[1] == b
  {
    IndexOfChar(Group1(a, b));
    IndexOfChar(Group2(b, c));
    OctetsFromGroups(a, b, c);
    hide Char, Index, Group0, Group1, Group2, Group3;
  }

  lemma {:induction false} ThirdOctet(t: Octets, n: nat, a: Octet, b: Octet, c: Octet)
    requires 4 * n + 4 <= |t| && t[4 * n + 2] == Char(Group2(b, c)) && t[4 * n + 3] == Char(Group3(c))
    ensures Triple(t, n)[2] == c
  {
    IndexOfChar(Group2(b, c));
    IndexOfChar(Group3(c));
    OctetsFromGroups(a, b, c);
    hide Char, Index, Group0, Group1, Group2, Group3;
  }

  lemma {:induction false} LastPads(s: Octets, t: Octets, n: nat)
    requires |s| % 3 != 0 && t == Encoded(s) && n == |s| / 3
    ensures |t| == 4 * n + 4 && Pads(t, 4 * n + 4) == Pads(t, 4 * n) + 3 - |s| % 3
  {
    LastCharacters(s, t, n);
    hide Encoded;
    var b := if |s| % 3 == 2 then s[3 * n + 1] else 0;
    IndexOfChar(Group0(s[3 * n]));
    IndexOfChar(Group1(s[3 * n], b));
    IndexOfChar(Group2(b, 0));
    hide Index, Char, Group0, Group1, Group2;
    assert Pads(t, 4 * n + 4) == Pads(t, 4 * n + 3) + 1;
    assert Pads(t, 4 * n + 3) == Pads(t, 4 * n + 2) + (if |s| % 3 == 2 then 0 else 1);
    assert Pads(t, 4 * n + 2) == Pads(t, 4 * n);
  }

  lemma {:induction false} WholePart(s: Octets)
    ensures var t, n := Encoded(s), |s| / 3;
            && |t| == 4 * n + (if |s| % 3 == 0 then 0 else 4) && |t| / 4 == n + (if |s| % 3 == 0 then 0 else 1)
            && t[..4 * n] == Quads(s, n) && 3 * |t| / 4 == 3 * (|t| / 4)
  {
    hide Quads, LastQuad;
  }

  lemma {:induction false} DecodedLength(s: Octets)
    ensures 3 * |Encoded(s)| / 4 - Pads(Encoded(s), 4 * (|Encoded(s)| / 4)) == |s|
  {
    hide *;
    WholePart(s);
    WholeGroupsDecode(s, Encoded(s), |s| / 3);
    if |s| % 3 != 0 {
      LastPads(s, Encoded(s), |s| / 3);
    }
  }

  lemma {:induction false} DecodedContent(s: Octets)
    ensures |s| <= 3 * (|Encoded(s)| / 4) && Triples(Encoded(s), |Encoded(s)| / 4)[..|s|] == s
  {
    hide *;
    WholePart(s);
    WholeGroupsDecode(s, Encoded(s), |s| / 3);
    if |s| % 3 == 0 {
      AllOfIt(s);
    } else {
      PaddedContent(s, Encoded(s), |s| / 3);
    }
  }

  lemma {:induction false} AllOfIt(s: Octets)
    ensures s[..|s|] == s
  {
  }

  lemma {:induction false} PaddedContent(s: Octets, t: Octets, n: nat)
    requires t == Encoded(s) && |s| % 3 != 0 && n == |s| / 3 && 4 * n <= |t| && Triples(t, n) == s[..3 * n]
    ensures 4 * n + 4 <= |t| && |s| <= 3 * n + 3 && Triples(t, n + 1)[..|s|] == s
  {
    hide *;
    LastOctets(s, t, n);
    LastTriple(t, n);
    PutTogether(Triples(t, n + 1), s, n, Triple(t, n));
  }

  /** What decodes an encoded text says the text. */
  lemma {:induction false} DecodeEncode(s: Octets, p: Param)
    requires s != [] && 4 * |s| < TWO_TO_THE_32 && IsDecoded(Encoded(s), p)
    ensures Says(p, s)
  {
    hide Encoded, Triples, Pads;
    DecodedLength(s);
    DecodedContent(s);
    var n := |Encoded(s)| / 4;
    assert p.buf[..3 * n][..|s|] == p.buf[..|s|];
  }

  lemma {:induction false} LastTriple(t: Octets, n: nat)
    requires 4 * n + 4 <= |t|
    ensures Triples(t, n + 1) == Triples(t, n) + Triple(t, n)
  {
    hide Triple;
  }

  lemma {:induction false} PutTogether(buf: Octets, s: Octets, n: nat, last: Octets)
    requires 3 * n < |s| < 3 * n + 3 == |buf| && |last| == 3
    requires buf == s[..3 * n] + last && last[..|s| % 3] == s[3 * n..]
    ensures buf[..|s|] == s
  {
    assert |s| % 3 == |s| - 3 * n;
    assert buf[..|s|] == s[..3 * n] + last[..|s| % 3];
  }

  // ---------------------------------------------------------------- joining

  /** The texts one after the other, with a split character before each but what
      comes first. */
  function Joined(texts: seq<Octets>): Octets {
    if texts == [] then []
    else
      var before := Joined(texts[..|texts| - 1]);
      before + (if before == [] then [] else [PARAM_SPLIT_CHAR]) + texts[|texts| - 1]
  }

  /** The length that appendClientData computes. */
  function Room(texts: seq<Octets>): nat {
    if texts == [] then 0 else Room(texts[..|texts| - 1]) + |texts[|texts| - 1]| + 1
  }

  function EncodedAll(list: seq<Octets>): (r: seq<Octets>)
    ensures |r| == |list| && forall i :: 0 <= i < |list| ==> r[i] == Encoded(list[i])
  {
    seq(|list|, i requires 0 <= i < |list| => Encoded(list[i]))
  }

  /** appendClientData up to the command it adds. */
  method Join(inputList: seq<Octets>) returns (data: Octets)
    requires Room(EncodedAll(inputList)) < TWO_TO_THE_32
    ensures data == Joined(EncodedAll(inputList))
  {
    hide Encoded;
    var dataList := EncodeList(inputList);
    var dataLen := 0;
    assert dataList[..0] == [];
    for k := 0 to |dataList|
      invariant dataLen == Room(dataList[..k])
    {
      RoomNext(dataList, k);
      dataLen := dataLen + |dataList[k]| + 1;
    }
    assert dataList[..|dataList|] == dataList;
    data := Fill(dataList, dataLen);
  }

  method EncodeList(inputList: seq<Octets>) returns (dataList: seq<Octets>)
    ensures dataList == EncodedAll(inputList)
  {
    hide Encoded;
    dataList := [];
    for k := 0 to |inputList|
      invariant |dataList| == k && forall i :: 0 <= i < k ==> dataList[i] == Encoded(inputList[i])
    {
      var text := Base64Encode(inputList[k]);
      dataList := dataList + [text];
    }
  }

  lemma {:induction false} RoomNext(texts: seq<Octets>, k: nat)
    requires k < |texts|
    ensures Room(texts[..k + 1]) == Room(texts[..k]) + |texts[k]| + 1
    ensures Joined(texts[..k + 1])
         == Joined(texts[..k]) + (if Joined(texts[..k]) == [] then [] else [PARAM_SPLIT_CHAR]) + texts[k]
  {
    assert texts[..k + 1][..k] == texts[..k];
  }

  lemma {:induction false} RoomGrows(texts: seq<Octets>, k: nat)
    requires k <= |texts|
    ensures Room(texts[..k]) <= Room(texts)
    decreases |texts|
  {
    if k == |texts| {
      assert texts[..k] == texts;
    } else {
      RoomGrows(texts[..|texts| - 1], k);
      assert texts[..|texts| - 1][..k] == texts[..k];
    }
  }

  /** The copies: the buffer of the computed length is never left. */
  method Fill(dataList: seq<Octets>, dataLen: nat) returns (data: Octets)
    requires dataLen == Room(dataList)
    ensures data == Joined(dataList) && |data| <= dataLen
  {
    hide Joined, Room;
    var buf := new Octet[dataLen];
    var offset := 0;
    NothingJoined();
    assert dataList[..0] == [];
    for k := 0 to |dataList|
      invariant 0 <= offset <= dataLen && buf[..offset] == Joined(dataList[..k])
      invariant offset < Room(dataList[..k]) || k == offset == 0
    {
      RoomNext(dataList, k);
      RoomGrows(dataList, k + 1);
      offset := AppendText(buf, offset, dataList[k]);
    }
    assert dataList[..|dataList|] == dataList;
    data := buf[..offset];
  }

  lemma {:induction false} NothingJoined()
    ensures Joined([]) == [] && Room([]) == 0
  {
  }

  /** One turn of that loop. */
  method AppendText(buf: array<Octet>, at: nat, text: Octets) returns (offset: nat)
    requires at + |text| + (if at > 0 then 1 else 0) <= buf.Length
    modifies buf
    ensures offset == at + |text| + (if at > 0 then 1 else 0)
    ensures buf[..offset] == old(buf[..at]) + (if at > 0 then [PARAM_SPLIT_CHAR] else []) + text
  {
    offset := at;
    if offset > 0 {
      buf[offset] := PARAM_SPLIT_CHAR;
      offset := offset + 1;
    }
    Copy(buf, offset, text);
    offset := offset + |text|;
  }

  method Copy(buf: array<Octet>, at: nat, text: Octets)
    requires at + |text| <= buf.Length
    modifies buf
    ensures buf[..at + |text|] == old(buf[..at]) + text
  {
    ghost var before := buf[..at];
    for i := 0 to |text|
      invariant forall j :: 0 <= j < at ==> buf[j] == before[j]
      invariant forall j :: 0 <= j < i ==> buf[at + j] == text[j]
    {
      buf[at + i] := text[i];
    }
  }

  // ---------------------------------------------------------------- parsing

  /** The pieces that are over, and the one that is not. */
  function Scanned(d: Octets): (seq<Octets>, Octets) {
    if d == [] then ([], [])
    else
      var (pieces, run) := Scanned(d[..|d| - 1]);
      var c := d[|d| - 1];
      if c != PARAM_SPLIT_CHAR then (pieces, run + [c])
      else if run == [] then (pieces, [])
      else (pieces + [run], [])
  }

  /** The non-empty pieces between split characters. */
  function Pieces(d: Octets): seq<Octets> {
    var (pieces, run) := Scanned(d);
    if run == [] then pieces else pieces + [run]
  }

  ghost predicate AreDecoded(pieces: seq<Octets>, params: seq<Param>) {
    |pieces| == |params| && forall i :: 0 <= i < |pieces| ==> IsDecoded(pieces[i], params[i])
  }

  lemma {:induction false} ScanNext(d: Octets, k: nat)
    requires k < |d|
    ensures var (pieces, run) := Scanned(d[..k]);
            Scanned(d[..k + 1]) ==
            if d[k] != PARAM_SPLIT_CHAR then (pieces, run + [d[k]])
            else if run == [] then (pieces, []) else (pieces + [run], [])
  {
    assert d[..k + 1][..k] == d[..k];
  }

  method SkipSplits(d: Octets, from: nat) returns (startPos: nat)
    requires from <= |d| && Scanned(d[..from]).1 == []
    ensures from <= startPos <= |d| && Scanned(d[..startPos]) == Scanned(d[..from])
  {
    hide Scanned;
    startPos := from;
    while startPos < |d| && d[startPos] == PARAM_SPLIT_CHAR
      invariant from <= startPos <= |d| && Scanned(d[..startPos]) == Scanned(d[..from])
    {
      ScanNext(d, startPos);
      startPos := startPos + 1;
    }
  }

  /** parse: what is between split characters, decoded. */
  method Parse(d: Octets) returns (ret: seq<Param>)
    requires 3 * |d| < TWO_TO_THE_32
    ensures AreDecoded(Pieces(d), ret)
  {
    hide IsDecoded, Scanned;
    ret := [];
    ghost var pieces: seq<Octets> := [];
    NothingScanned();
    assert d[..0] == [];
    var startPos := SkipSplits(d, 0);
    var offset := startPos;
    assert d[startPos..offset] == [];
    while offset < |d|
      invariant startPos <= offset <= |d| && Scanned(d[..offset]) == (pieces, d[startPos..offset])
      invariant AreDecoded(pieces, ret)
      decreases |d| - offset
    {
      ScanNext(d, offset);
      if d[offset] != PARAM_SPLIT_CHAR {
        assert d[startPos..offset + 1] == d[startPos..offset] + [d[offset]];
        offset := offset + 1;
        continue;
      }
      ret := ParseOne(d, startPos, offset, ret, pieces);
      pieces := Scanned(d[..offset + 1]).0;
      startPos := SkipSplits(d, offset + 1);
      offset := startPos;
      assert d[startPos..offset] == [];
    }
    assert d[..offset] == d;
    ret := ParseOne(d, startPos, |d|, ret, pieces);
  }

  lemma {:induction false} NothingScanned()
    ensures Scanned([]) == ([], [])
  {
  }

  /** parse_func. */
  method ParseOne(d: Octets, startPos: nat, offset: nat, params: seq<Param>, ghost pieces: seq<Octets>) returns (ret: seq<Param>)
    requires startPos <= offset <= |d| && 3 * |d| < TWO_TO_THE_32 && AreDecoded(pieces, params)
    ensures AreDecoded(if d[startPos..offset] == [] then pieces else pieces + [d[startPos..offset]], ret)
  {
    if offset <= startPos {
      return params;
    }
    var p := Base64Decode(d[startPos..offset]);
    return params + [p];
  }

  // ---------------------------------------------------------------- round trip of lists

  ghost predicate Plain(text: Octets) {
    forall i :: 0 <= i < |text| ==> text[i] != PARAM_SPLIT_CHAR
  }

  function NonEmpty(list: seq<Octets>): seq<Octets> {
    if list == [] then []
    else NonEmpty(list[..|list| - 1]) + (if list[|list| - 1] == [] then [] else [list[|list| - 1]])
  }

  lemma {:induction false} ScanRun(a: Octets, text: Octets)
    requires Plain(text)
    ensures Scanned(a + text) == (Scanned(a).0, Scanned(a).1 + text)
    decreases |text|
  {
    if text == [] {
      assert a + text == a && Scanned(a).1 + text == Scanned(a).1;
    } else {
      var n := |text| - 1;
      ScanRun(a, text[..n]);
      assert (a + text)[..|a| + n] == a + text[..n];
      assert text == text[..n] + [text[n]];
      assert (Scanned(a).1 + text[..n]) + [text[n]] == Scanned(a).1 + text;
      assert (a + text)[|a| + n] == text[n];
    }
  }

  /** Splitting undoes joining, but for empty texts. */
  lemma {:induction false} PiecesOfJoined(texts: seq<Octets>)
    requires forall i :: 0 <= i < |texts| ==> Plain(texts[i])
    ensures Pieces(Joined(texts)) == NonEmpty(texts)
    decreases |texts|
  {
    if texts == [] {
    } else {
      var n := |texts| - 1;
      var before := Joined(texts[..n]);
      PiecesOfJoined(texts[..n]);
      if before == [] {
        ScanRun([], texts[n]);
        assert [] + texts[n] == texts[n] && before + [] + texts[n] == texts[n];
        assert Scanned(texts[n]) == ([], texts[n]);
        assert NonEmpty(texts[..n]) == [];
      } else {
        var split := before + [PARAM_SPLIT_CHAR];
        assert split[..|before|] == before;
        assert Scanned(split) == (Pieces(before), []);
        ScanRun(split, texts[n]);
        assert [] + texts[n] == texts[n] && Pieces(before) + [] == Pieces(before);
      }
    }
  }

  lemma {:induction false} QuadsPlain(s: Octets, n: nat)
    requires 3 * n <= |s|
    ensures Plain(Quads(s, n))
  {
    hide Char, Group0, Group1, Group2, Group3;
    if n == 0 {
    } else {
      QuadsPlain(s, n - 1);
      CharsPlain();
    }
  }

  lemma {:induction false} CharsPlain()
    ensures forall index: Octet :: index < 64 ==> Char(index) != PARAM_SPLIT_CHAR
  {
  }

  lemma {:induction false} EncodedPlain(s: Octets)
    ensures Plain(Encoded(s)) && (Encoded(s) == [] <==> s == [])
  {
    QuadsPlain(s, |s| / 3);
    CharsPlain();
    hide Char, Group0, Group1, Group2, Group3, Quads;
  }

  lemma {:induction false} NonEmptyEncoded(list: seq<Octets>)
    ensures NonEmpty(EncodedAll(list)) == EncodedAll(NonEmpty(list))
  {
    hide Encoded;
    if list == [] {
    } else {
      var n := |list| - 1;
      NonEmptyEncoded(list[..n]);
      EncodedPlain(list[n]);
      assert EncodedAll(list)[..n] == EncodedAll(list[..n]);
    }
  }

  /** Whatever is parsed from the joined list says the list without its empty
      strings, in order. */
  lemma {:induction false} ListRoundTrip(list: seq<Octets>, params: seq<Param>)
    requires AreDecoded(Pieces(Joined(EncodedAll(list))), params)
    requires forall i :: 0 <= i < |list| ==> 4 * |list[i]| < TWO_TO_THE_32
    ensures |params| == |NonEmpty(list)|
    ensures forall i :: 0 <= i < |params| ==> Says(params[i], NonEmpty(list)[i])
  {
    hide Encoded, IsDecoded, Joined, Pieces, Says;
    forall i | 0 <= i < |list| ensures Plain(EncodedAll(list)[i]) {
      EncodedPlain(list[i]);
    }
    PiecesOfJoined(EncodedAll(list));
    NonEmptyEncoded(list);
    NonEmptyMembers(list);
    forall i | 0 <= i < |params| ensures Says(params[i], NonEmpty(list)[i]) {
      DecodeEncode(NonEmpty(list)[i], params[i]);
    }
  }

  lemma {:induction false} NonEmptyMembers(list: seq<Octets>)
    requires forall i :: 0 <= i < |list| ==> 4 * |list[i]| < TWO_TO_THE_32
    ensures forall i :: 0 <= i < |NonEmpty(list)| ==> NonEmpty(list)[i] != [] && 4 * |NonEmpty(list)[i]| < TWO_TO_THE_32
  {
    if list == [] {
    } else {
      NonEmptyMembers(list[..|list| - 1]);
    }
  }

  // ---------------------------------------------------------------- characters

  /** The alphabet, as the standard lists it. */
  lemma {:induction false} Alphabet(index: Octet)
    requires index < 64
    ensures index < 26 ==> Char(index) as nat == 'A' as nat + index as nat
    ensures 26 <= index < 52 ==> Char(index) as nat == 'a' as nat + (index as nat - 26)
    ensures 52 <= index < 62 ==> Char(index) as nat == '0' as nat + (index as nat - 52)
    ensures Char(62) as nat == '+' as nat && Char(63) as nat == '/' as nat && PAD as nat == '=' as nat
  {
  }

  /** "Man", "Ma" and "M", the examples of every description of Base64. */
  lemma {:induction false} Man()
    ensures Encoded([77, 97, 110]) == [84, 87, 70, 117]
    ensures Encoded([77, 97]) == [84, 87, 69, 61]
    ensures Encoded([77]) == [84, 81, 61, 61]
  {
    assert Quads([77, 97, 110], 1) == Quad([77, 97, 110], 0);
  }

  /** The split character is 0xff: what is between, if anything, is a parameter. */
  lemma {:induction false} SplitAtFF(a: Octets, b: Octets)
    requires a != [] && b != [] && (forall i :: 0 <= i < |a| ==> a[i] != 0xff) && (forall i :: 0 <= i < |b| ==> b[i] != 0xff)
    ensures Pieces([0xff] + a + [0xff, 0xff] + b + [0xff]) == [a, b]
  {
    hide *;
    NothingScanned();
    OneMore([], [], []);
    var d1: Octets := [] + [0xff];
    ScanPlain(d1, a);
    assert [] + a == a && [] + b == b;
    OneMore(d1 + a, [], a);
    OneMore(d1 + a + [0xff], [] + [a], []);
    ScanPlain(d1 + a + [0xff] + [0xff], b);
    OneMore(d1 + a + [0xff] + [0xff] + b, [] + [a], b);
    TwoPieces(d1 + a + [0xff] + [0xff] + b, a, b);
    assert [0xff] + a + [0xff, 0xff] + b + [0xff] == d1 + a + [0xff] + [0xff] + b + [0xff];
  }

  lemma {:induction false} OneMore(d: Octets, pieces: seq<Octets>, run: Octets)
    requires Scanned(d) == (pieces, run)
    ensures Scanned(d + [0xff]) == (if run == [] then pieces else pieces + [run], [])
  {
    ScanSplit(d);
  }

  lemma {:induction false} ScanPlain(d: Octets, text: Octets)
    requires forall i :: 0 <= i < |text| ==> text[i] != 0xff
    ensures Scanned(d + text) == (Scanned(d).0, Scanned(d).1 + text)
  {
    ScanRun(d, text);
  }

  lemma {:induction false} TwoPieces(d: Octets, a: Octets, b: Octets)
    requires b != [] && Scanned(d) == ([] + [a], b) && Scanned(d + [0xff]) == ([] + [a] + [b], [])
    ensures Pieces(d + [0xff]) == [a, b]
  {
    hide Scanned;
    assert [] + [a] + [b] == [a, b];
  }

  lemma {:induction false} ScanSplit(d: Octets)
    ensures var (pieces, run) := Scanned(d);
            Scanned(d + [0xff]) == (if run == [] then pieces else pieces + [run], [])
  {
    assert (d + [0xff])[..|d|] == d;
  }
}
