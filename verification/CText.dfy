/** Text as the C library reads it. */
module CText {

  function SkipSpaces(s: string): string {
    if s != [] && (s[0] == ' ' || '\t' <= s[0] <= '\r') then SkipSpaces(s[1..]) else s
  }

  predicate IsHex(c: char) {
    '0' <= c <= '9' || 'a' <= c <= 'f' || 'A' <= c <= 'F'
  }

  function HexValue(c: char): (v: nat)
    requires IsHex(c)
    ensures v < 16
  {
    if c <= '9' then c as nat - '0' as nat
    else if c <= 'F' then c as nat - 'A' as nat + 10
    else c as nat - 'a' as nat + 10
  }

  /** The digits at the front of s, after those that gave v. */
  function HexRun(s: string, v: nat): nat {
    if s == [] || !IsHex(s[0]) then v else HexRun(s[1..], 16 * v + HexValue(s[0]))
  }

  /** strtol in base 16, for texts too short to overflow. */
  function HexNumber(s: string): int {
    var t := SkipSpaces(s);
    var signed := t != [] && (t[0] == '-' || t[0] == '+');
    var u := if signed then t[1..] else t;
    var prefixed := |u| > 2 && u[0] == '0' && (u[1] == 'x' || u[1] == 'X') && IsHex(u[2]);
    var v: int := HexRun(if prefixed then u[2..] else u, 0);
    if signed && t[0] == '-' then -v else v
  }

  /** Upper-case digit. */
  function HexDigit(d: nat): (c: char)
    requires d < 16
    ensures IsHex(c) && HexValue(c) == d
  {
    if d < 10 then '0' + d as char else 'A' + (d - 10) as char
  }

  /** A byte as two digits. */
  function HexPair(b: nat): string
    requires b < 256
  {
    [HexDigit(b / 16), HexDigit(b % 16)]
  }

  lemma {:induction false} HexPairNumber(b: nat)
    requires b < 256
    ensures HexNumber(HexPair(b)) == b
  {
    var s := HexPair(b);
    assert SkipSpaces(s) == s;
    assert s[1..] == [HexDigit(b % 16)];
    assert HexRun(s[1..], b / 16) == 16 * (b / 16) + b % 16;
  }

  lemma {:induction false} HexQuadNumber(h: nat, l: nat)
    requires h < 256 && l < 256
    ensures HexNumber(HexPair(h) + HexPair(l)) == 256 * h + l
  {
    var s := HexPair(h) + HexPair(l);
    assert s == [HexDigit(h / 16), HexDigit(h % 16), HexDigit(l / 16), HexDigit(l % 16)];
    assert SkipSpaces(s) == s;
    assert s[1..] == [HexDigit(h % 16), HexDigit(l / 16), HexDigit(l % 16)];
    assert s[1..][1..] == HexPair(l);
    assert HexPair(l)[1..] == [HexDigit(l % 16)];
    calc {
      HexRun(s, 0);
      HexRun(s[1..], h / 16);
      HexRun(HexPair(l), 16 * (h / 16) + h % 16);
      HexRun([HexDigit(l % 16)], 16 * h + l / 16);
      HexRun([], 16 * (16 * h + l / 16) + l % 16);
    }
  }
}
