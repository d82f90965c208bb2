/** The changelog format, character by character. */
module ChangelogFormat {
  import opened Containers
  import opened Changelog
  import opened ChangelogRoundTrip

  // ---------------------------------------------------------------- lines

  /** Trimming takes blanks and tabs in front, and these and line ends behind. */
  lemma {:induction false} TrimmedTo(a: string, t: string, b: string)
    requires forall i :: 0 <= i < |a| ==> a[i] == ' ' || a[i] == '\t'
    requires forall i :: 0 <= i < |b| ==> b[i] == ' ' || b[i] == '\t' || b[i] == '\r' || b[i] == '\n'
    requires t != [] && t[0] != ' ' && t[0] != '\t'
    requires var c := t[|t| - 1]; c != ' ' && c != '\t' && c != '\r' && c != '\n'
    ensures Trimmed(a + t + b) == t
  {
    hide *;
    LeftGone(a, t + b);
    RightGone(t, b);
    Grouped(a, t, b);
    TrimmedIs(a + (t + b));
  }

  lemma {:induction false} Grouped(a: string, t: string, b: string)
    ensures a + t + b == a + (t + b)
  {
  }

  lemma {:induction false} LeftGone(a: string, s: string)
    requires forall i :: 0 <= i < |a| ==> a[i] == ' ' || a[i] == '\t'
    requires s != [] && s[0] != ' ' && s[0] != '\t'
    ensures TrimLeft(a + s) == s
  {
    hide *;
    if a == [] {
      NotBlank(s);
      assert a + s == s;
    } else {
      LeftGone(a[1..], s);
      OneBlank(a[0], a[1..] + s);
      assert a + s == [a[0]] + (a[1..] + s);
    }
  }

  lemma {:induction false} NotBlank(s: string)
    requires s != [] && s[0] != ' ' && s[0] != '\t'
    ensures TrimLeft(s) == s
  {
  }

  lemma {:induction false} OneBlank(c: char, s: string)
    requires c == ' ' || c == '\t'
    ensures TrimLeft([c] + s) == TrimLeft(s)
  {
    assert ([c] + s)[1..] == s;
  }

  lemma {:induction false} RightGone(s: string, b: string)
    requires forall i :: 0 <= i < |b| ==> b[i] == ' ' || b[i] == '\t' || b[i] == '\r' || b[i] == '\n'
    requires s != [] && var c := s[|s| - 1]; c != ' ' && c != '\t' && c != '\r' && c != '\n'
    ensures TrimRight(s + b) == s
    decreases |b|
  {
    if b == [] {
      assert s + b == s;
    } else {
      RightGone(s, b[..|b| - 1]);
      assert (s + b)[..|s + b| - 1] == s + b[..|b| - 1];
    }
  }

  /** How each kind of line begins. */
  lemma {:induction false} LinesBegin(l: string)
    ensures IsHeaderStart(l) <==> "$$" <= l
    ensures IsHeaderEnd(l) <==> "$$$$" <= l
    ensures IsDiscard(l) <==> "$" <= l
    ensures IsLineComment(l) <==> "//" <= l
    ensures IsScopeCommentStart(l) <==> "/*" <= l
    ensures IsScopeCommentEnd(l) <==> "*/" <= l
    ensures IsVersionEnd(l) <==> "################" <= l
    ensures IsTitleLevel1(l) <==> "^" <= l && |l| > 1
    ensures IsTitleLevel2(l) <==> "**" <= l
    ensures IsTitleMultiLine(l) <==> l == "" || l[0] !in "$^*/#"
  {
    if Hashes(l, 0, 16) {
      assert l[..16] == "################";
    }
    if "################" <= l {
      assert forall i :: 0 <= i < 16 ==> l[i] == "################"[i];
    }
  }

  /** A version line is eight '#', a version without '(', a time without ')' in
      brackets, and eight '#', whatever follows. */
  lemma {:induction false} VersionLineIff(l: string, ver: string, time: string, more: string)
    requires ver != "" && time != "" && '(' !in ver && ')' !in time
    requires l == "########" + ver + "(" + time + ")" + more
    ensures VersionBrackets(l).Some? <==> "########" <= more
    ensures "########" <= more ==> VersionBrackets(l) == Some((8 + |ver|, 9 + |ver| + |time|))
  {
    var left, right := 8 + |ver|, 9 + |ver| + |time|;
    LineAt(l, ver, time, more);
    IndexIs(l, '(', 8, left);
    IndexIs(l, ')', left, right);
    assert l[right + 1..] == more;
    if Hashes(l, right + 1, 8) {
      assert more[..8] == "########";
    }
    if "########" <= more {
      assert forall i :: right + 1 <= i < right + 9 ==> l[i] == more[i - right - 1] == "########"[i - right - 1];
    }
  }

  lemma {:induction false} LineAt(l: string, ver: string, time: string, more: string)
    requires ver != "" && time != "" && '(' !in ver && ')' !in time
    requires l == "########" + ver + "(" + time + ")" + more
    ensures var left, right := 8 + |ver|, 9 + |ver| + |time|;
            && |l| == right + 1 + |more| && Hashes(l, 0, 8) && l[left] == '(' && l[right] == ')'
            && (forall i :: 8 <= i < left ==> l[i] != '(') && (forall i :: left <= i < right ==> l[i] != ')')
  {
    var left, right := 8 + |ver|, 9 + |ver| + |time|;
    assert forall i :: 0 <= i < 8 ==> l[i] == "########"[i];
    assert forall i :: 8 <= i < left ==> l[i] == ver[i - 8];
    assert forall i :: left < i < right ==> l[i] == time[i - left - 1];
  }

  /** Every version line is of that form. */
  lemma {:induction false} VersionLineForm(l: string) returns (ver: string, time: string, more: string)
    requires VersionBrackets(l).Some?
    ensures ver != "" && time != "" && '(' !in ver && ')' !in time
    ensures l == "########" + ver + "(" + time + ")" + "########" + more
  {
    var (left, right) := VersionBrackets(l).value;
    ver, time, more := l[8..left], l[left + 1..right], l[right + 9..];
    assert left == IndexOf(l, '(', 8) && right == IndexOf(l, ')', left);
    assert Hashes(l, 0, 8) && Hashes(l, right + 1, 8);
    hide VersionBrackets;
    assert l[..8] == "########" && l[right + 1..right + 9] == "########";
    assert l == l[..8] + l[8..left] + [l[left]] + l[left + 1..right] + [l[right]] + l[right + 1..right + 9] + l[right + 9..];
  }

  // ---------------------------------------------------------------- titles

  predicate StartsTitle(l: string) {
    "^" <= l && |l| > 1
  }

  predicate GoesOn(l: string) {
    "**" <= l || l == "" || l[0] !in "$^*/#"
  }

  predicate OnlyTitles(body: seq<string>) {
    && (body != [] ==> StartsTitle(body[0]))
    && forall i :: 0 <= i < |body| ==> StartsTitle(body[i]) || GoesOn(body[i])
  }

  /** A body is accepted exactly when it begins with a title of the first level
      and has no lines but titles and their continuations. */
  lemma {:induction false} TitlesIff(body: seq<string>)
    ensures Titles(body).Some? <==> OnlyTitles(body)
    ensures Titles(body).Some? ==> (Titles(body).value == [] <==> body == [])
  {
    if body == [] {
      NothingTitled();
    } else {
      hide *;
      TitlesIff(body[..|body| - 1]);
      LastTitle(body);
      LastLine(body);
      LineKinds(body[|body| - 1]);
    }
  }

  lemma {:induction false} LineKinds(l: string)
    ensures StartsTitle(l) <==> IsTitleLevel1(l)
    ensures GoesOn(l) <==> IsTitleLevel2(l) || IsTitleMultiLine(l)
  {
    LinesBegin(l);
  }

  lemma {:induction false} LastLine(body: seq<string>)
    requires body != []
    ensures var n := |body| - 1;
            OnlyTitles(body) <==> OnlyTitles(body[..n]) && (StartsTitle(body[n]) || (n > 0 && GoesOn(body[n])))
  {
    hide StartsTitle, GoesOn;
    var n := |body| - 1;
    assert forall i :: 0 <= i < n ==> body[..n][i] == body[i];
  }

  lemma {:induction false} LastTitle(body: seq<string>)
    requires body != []
    ensures var l, before := body[|body| - 1], Titles(body[..|body| - 1]);
            && (Titles(body).Some? <==> before.Some? && (IsTitleLevel1(l) || (before.value != [] && (IsTitleLevel2(l) || IsTitleMultiLine(l)))))
            && (Titles(body).Some? ==> Titles(body).value != [])
  {
    hide Trimmed, IsTitleLevel1, IsTitleLevel2, IsTitleMultiLine;
  }

  lemma {:induction false} SampleTitles(a: string, b: string, c: string, d: string, x: string, y: string, z: string)
    requires a == "^ added" && b == "**\tdetail" && c == "more" && d == "^x"
    requires x == "added" && y == "detail\r\nmore" && z == "x"
    ensures Titles([a, b, c, d]) == Some([Item(TitleLevel1, x), Item(TitleLevel2, y), Item(TitleLevel1, z)])
  {
    hide *;
    SampleTexts(a, b, d, x, y[..6], z);
    KindsOf(a, b, c, d);
    SampleTaken(a, b, c, d, Item(TitleLevel1, x), y[..6], Item(TitleLevel1, z));
    assert y[..6] + "\r\n" + c == y;
  }

  lemma {:induction false} Refused(b: string, a: string, s: string)
    requires b == "**detail" && a == "^a" && s == "*b"
    ensures Titles([b]) == None && Titles([a, s]) == None
  {
    TitlesIff([b]);
    TitlesIff([a, s]);
    hide Titles;
    assert s[0] == '*' && s[1] == 'b' && b[0] == '*';
    assert [a, s][1] == s && !StartsTitle(s) && !GoesOn(s);
    assert [b][0] == b && !StartsTitle(b);
  }

  lemma {:induction false} SampleTexts(a: string, b: string, d: string, x: string, y: string, z: string)
    requires a == "^ added" && b == "**\tdetail" && d == "^x" && x == "added" && y == "detail" && z == "x"
    ensures Trimmed(a[1..]) == x && Trimmed(b[2..]) == y && Trimmed(d[1..]) == z
  {
    hide *;
    TrimmedTo(" ", x, "");
    TrimmedTo("\t", y, "");
    TrimmedTo("", z, "");
    assert a[1..] == " " + x + "" && b[2..] == "\t" + y + "" && d[1..] == "" + z + "";
  }

  lemma {:induction false} SampleTaken(a: string, b: string, c: string, d: string, first: Item, text: string, last: Item)
    requires IsTitleLevel1(a) && !IsTitleLevel1(b) && IsTitleLevel2(b)
    requires !IsTitleLevel1(c) && !IsTitleLevel2(c) && IsTitleMultiLine(c) && IsTitleLevel1(d)
    requires first == Item(TitleLevel1, Trimmed(a[1..])) && text == Trimmed(b[2..])
    requires last == Item(TitleLevel1, Trimmed(d[1..]))
    ensures Titles([a, b, c, d]) == Some([first, Item(TitleLevel2, text + "\r\n" + c), last])
  {
    hide *;
    var body := [a, b, c, d];
    NothingTitled();
    assert body[..0] == [] && body[..4] == body;
    TitlesNext(body, 0);
    assert [] + [first] == [first];
    TitlesNext(body, 1);
    assert [first] + [Item(TitleLevel2, text)] == [first, Item(TitleLevel2, text)];
    TitlesNext(body, 2);
    assert [first, Item(TitleLevel2, text)][..1] == [first];
    assert [first] + [Item(TitleLevel2, text + "\r\n" + c)] == [first, Item(TitleLevel2, text + "\r\n" + c)];
    TitlesNext(body, 3);
    assert [first, Item(TitleLevel2, text + "\r\n" + c)] + [last] == [first, Item(TitleLevel2, text + "\r\n" + c), last];
  }

  lemma {:induction false} KindsOf(a: string, b: string, c: string, d: string)
    requires a == "^ added" && b == "**\tdetail" && c == "more" && d == "^x"
    ensures IsTitleLevel1(a) && !IsTitleLevel1(b) && IsTitleLevel2(b)
    ensures !IsTitleLevel1(c) && !IsTitleLevel2(c) && IsTitleMultiLine(c) && IsTitleLevel1(d)
  {
  }

  // ---------------------------------------------------------------- the loader

  /** What the first line decides: nothing, a header, the discarded tail, a line
      comment, a comment of several lines, a version, or an error. */
  lemma {:induction false} LineDecides(line: string, rest: seq<string>, items: seq<Item>, ok: bool)
    ensures var l := Trimmed(line); var all := Loaded([line] + rest, items, ok);
            && (l == "" || l[0] in "\r\n" ==> all == Loaded(rest, items, ok))
            && (items == [] && "$$" <= l ==> all == LoadedHeader(l, rest, ok))
            && (("$" <= l && items != []) || ("$" <= l && !("$$" <= l)) ==>
                  all == (items + [Item(DiscardContext, Concat(rest))], ok))
            && ("//" <= l ==> all == Loaded(rest, items + [Item(LineComment, TrimLeft(l[2..]))], ok))
            && ("/*" <= l ==> all == LoadedScope(rest, items, ok))
            && (l != "" && l[0] !in "\r\n$" && !("//" <= l) && !("/*" <= l) && VersionBrackets(l) == None ==>
                  all == Loaded(rest, items, false))
  {
    hide *;
    LineLoaded(line, rest, items, ok);
    LinesBegin(Trimmed(line));
    KindsApart(Trimmed(line));
  }

  lemma {:induction false} KindsApart(l: string)
    ensures IsEmptyLine(l) <==> l == "" || l[0] in "\r\n"
    ensures "$" <= l <==> l != "" && l[0] == '$'
    ensures "$" <= l ==> !IsEmptyLine(l)
    ensures "//" <= l ==> !IsEmptyLine(l) && !("$" <= l) && !("$$" <= l)
    ensures "/*" <= l ==> !IsEmptyLine(l) && !("$" <= l) && !("$$" <= l) && !("//" <= l)
    ensures "$$" <= l ==> "$" <= l
  {
    assert "/*" <= l ==> l[0] == '/' && l[1] == '*';
    assert "//" <= l ==> l[0] == '/' && l[1] == '/';
    assert "$" <= l ==> l[0] == '$';
    assert l != "" && l[0] == '$' ==> l[..1] == "$";
    assert "$$" <= l ==> l[0] == '$';
  }

  /** Headers, comments and versions without an end: the loader stops there, and
      only keeps what it had. */
  lemma {:induction false} NoEnd(l: string, data: string, rest: seq<string>, items: seq<Item>, ok: bool)
    ensures |l| >= 2 && (forall i :: 0 <= i < |rest| ==> !("$$$$" <= Trimmed(rest[i]))) ==> LoadedHeader(l, rest, ok) == ([], false)
    ensures (forall i :: 0 <= i < |rest| ==> !("*/" <= Trimmed(rest[i]))) ==> LoadedScope(rest, items, ok) == (items, false)
    ensures (forall i :: 0 <= i < |rest| ==> !("################" <= Trimmed(rest[i]))) ==>
              LoadedVersion(data, rest, items, ok) == (items, false)
  {
    forall i | 0 <= i < |rest|
      ensures IsHeaderEnd(Trimmed(rest[i])) <==> "$$$$" <= Trimmed(rest[i])
      ensures IsScopeCommentEnd(Trimmed(rest[i])) <==> "*/" <= Trimmed(rest[i])
      ensures IsVersionEnd(Trimmed(rest[i])) <==> "################" <= Trimmed(rest[i])
    {
      LinesBegin(Trimmed(rest[i]));
    }
    hide Trimmed, Loaded, Titles, Body, EndIndex, IsHeaderEnd, IsScopeCommentEnd, IsVersionEnd;
    NeverEnds(EndOfHeader, rest);
    NeverEnds(EndOfScope, rest);
    NeverEnds(EndOfVersion, rest);
  }

  lemma {:induction false} NeverEnds(end: End, rest: seq<string>)
    ensures (forall i :: 0 <= i < |rest| ==> !IsEnd(end, Trimmed(rest[i]))) ==> EndIndex(end, rest) == |rest|
  {
    hide Trimmed, IsEnd;
    if rest != [] {
      NeverEnds(end, rest[1..]);
    }
  }

  // ---------------------------------------------------------------- the dumper

  /** What is written for each kind of entry. */
  lemma {:induction false} Written(s: string)
    requires NulFree(s)
    ensures PrintItem(Item(HeaderStart, s)) == "$$" + s + "\r\n"
    ensures PrintItem(Item(HeaderEnd, s)) == "$$$$\r\n\r\n"
    ensures PrintItem(Item(ScopeCommentStart, s)) == "/*\r\n" + s + "\r\n"
    ensures PrintItem(Item(ScopeCommentEnd, s)) == "*/\r\n\r\n"
    ensures PrintItem(Item(LineComment, s)) == "//" + s + "\r\n"
    ensures PrintItem(Item(VersionStart, s)) == "########" + s + "########\r\n"
    ensures PrintItem(Item(VersionEnd, s)) == "################################\r\n\r\n"
    ensures PrintItem(Item(TitleLevel1, s)) == "^" + s + "\r\n"
    ensures PrintItem(Item(TitleLevel2, s)) == " **" + s + "\r\n"
    ensures PrintItem(Item(DiscardContext, s)) == "$\r\n" + s
  {
    CStringWhole(s);
    assert "########" + s + "########" + "\r\n" == "########" + s + "########\r\n";
    assert RULE + "\r\n\r\n" == "################################\r\n\r\n";
  }

  /** A text is cut at its first terminator, and nothing is written behind a
      discarded tail. */
  lemma {:induction false} WrittenUpTo(s: string, t: string, before: seq<Item>, more: seq<Item>)
    requires NulFree(s) && NoTail(before)
    ensures PrintItem(Item(LineComment, s + "\0" + t)) == "//" + s + "\r\n"
    ensures Print(before + [Item(DiscardContext, s)] + more) == Print(before) + "$\r\n" + s
  {
    CutAt(s, t);
    CStringWhole(s);
    var tail := [Item(DiscardContext, s)] + more;
    PrintAppend(before, tail);
    assert before + [Item(DiscardContext, s)] + more == before + tail;
    assert Print(tail) == "$\r\n" + s;
    assert Print(before) + ("$\r\n" + s) == Print(before) + "$\r\n" + s;
  }

  lemma {:induction false} CutAt(s: string, t: string)
    requires NulFree(s)
    ensures CString(s + "\0" + t) == s
  {
    if s != [] {
      CutAt(s[1..], t);
      assert (s + "\0" + t)[1..] == s[1..] + "\0" + t;
    }
  }
}
