/** Loading what was dumped: when it gives the same entries again. */
module ChangelogRoundTrip {
  import opened Containers
  import opened Changelog

  // ---------------------------------------------------------------- trimming

  predicate IsSpace(c: char) {
    IsBlank(c) || c == '\r' || c == '\n'
  }

  /** Nothing to trim. */
  predicate Tight(l: string) {
    l == [] || (!IsBlank(l[0]) && !IsSpace(l[|l| - 1]))
  }

  lemma {:induction false} TrimLeftStops(s: string)
    ensures TrimLeft(s) == [] || !IsBlank(TrimLeft(s)[0])
  {
    if s != [] && IsBlank(s[0]) {
      TrimLeftStops(s[1..]);
    }
  }

  lemma {:induction false} TrimRightStops(s: string)
    ensures TrimRight(s) == [] || !IsSpace(TrimRight(s)[|TrimRight(s)| - 1])
  {
    if s != [] && IsSpace(s[|s| - 1]) {
      TrimRightStops(s[..|s| - 1]);
    }
  }

  lemma {:induction false} TrimmedIsTight(s: string)
    ensures Tight(Trimmed(s))
  {
    TrimLeftStops(s);
    TrimRightStops(TrimLeft(s));
  }

  lemma {:induction false} TightStays(l: string)
    requires Tight(l)
    ensures TrimLeft(l) == l && TrimRight(l) == l && Trimmed(l) == l
  {
    hide *;
    LeftStays(l);
    RightStays(l);
    TrimmedIs(l);
  }

  lemma {:induction false} LeftStays(l: string)
    requires Tight(l)
    ensures TrimLeft(l) == l
  {
    hide TrimRight, IsBlank;
  }

  lemma {:induction false} RightStays(l: string)
    requires Tight(l)
    ensures TrimRight(l) == l
  {
    hide TrimLeft;
  }

  /** A tight line comes back from its line with a line break, and with one blank
      in front. */
  lemma {:induction false} TightLine(l: string)
    requires Tight(l)
    ensures Trimmed(l + "\r\n") == l && (l != [] ==> Trimmed(" " + l + "\r\n") == l)
  {
    if l == [] {
      EmptyLine();
      assert l + "\r\n" == "\r\n";
    } else {
      hide *;
      BreakTrimmed(l);
      NotBlankFirst(l, l + "\r\n");
      BlankFirst(l + "\r\n");
      assert " " + l + "\r\n" == " " + (l + "\r\n");
      TrimmedIs(l + "\r\n");
      TrimmedIs(" " + (l + "\r\n"));
    }
  }

  lemma {:induction false} EmptyLine()
    ensures Trimmed("\r\n") == ""
  {
    BreakTrimmed("");
    hide *;
    assert "" + "\r\n" == "\r\n";
    BreakNotBlank();
    TrimmedIs("\r\n");
  }

  lemma {:induction false} BreakNotBlank()
    ensures TrimLeft("\r\n") == "\r\n"
  {
    var s := "\r\n";
    assert s[0] == '\r';
  }

  lemma {:induction false} TrimmedIs(s: string)
    ensures Trimmed(s) == TrimRight(TrimLeft(s))
  {
  }

  lemma {:induction false} NotBlankFirst(l: string, s: string)
    requires Tight(l) && l != [] && s == l + "\r\n"
    ensures TrimLeft(s) == s
  {
    assert s[0] == l[0];
  }

  lemma {:induction false} BlankFirst(s: string)
    ensures TrimLeft(" " + s) == TrimLeft(s)
  {
    assert (" " + s)[1..] == s;
  }

  lemma {:induction false} BreakTrimmed(l: string)
    requires Tight(l)
    ensures TrimRight(l + "\r\n") == l
  {
    var s := l + "\r\n";
    assert s[..|s| - 1] == l + "\r";
    assert (l + "\r")[..|l|] == l;
    assert TrimRight(s) == TrimRight(l + "\r") == TrimRight(l);
  }

  // ---------------------------------------------------------------- lines of a text

  /** A line as getline reads it, when more may follow. */
  predicate IsRaw(line: string) {
    line != [] && line[|line| - 1] == '\n' && '\n' !in line[..|line| - 1]
  }

  lemma {:induction false} LineEndAt(text: string, pos: nat, k: nat)
    requires pos + k < |text| && text[pos + k] == '\n' && forall i :: pos <= i < pos + k ==> text[i] != '\n'
    ensures LineEnd(text, pos) == pos + k + 1
    decreases k
  {
    if k == 0 {
    } else {
      LineEndAt(text, pos + 1, k - 1);
    }
  }

  lemma {:induction false} LineEndShift(text: string, pos: nat, at: nat)
    requires pos + at <= |text|
    ensures LineEnd(text, pos + at) == pos + LineEnd(text[pos..], at)
    decreases |text| - at
  {
    if pos + at == |text| || text[pos + at] == '\n' {
    } else {
      LineEndShift(text, pos, at + 1);
    }
  }

  lemma {:induction false} LinesShift(text: string, pos: nat, at: nat)
    requires pos + at <= |text|
    ensures Lines(text, pos + at) == Lines(text[pos..], at)
    decreases |text| - at
  {
    hide *;
    LinesUnfold(text, pos + at);
    LinesUnfold(text[pos..], at);
    if pos + at < |text| {
      LineEndShift(text, pos, at);
      var e := LineEnd(text[pos..], at);
      SliceShift(text, pos, at, e);
      LinesShift(text, pos, e);
    }
  }

  lemma {:induction false} LinesUnfold(text: string, pos: nat)
    requires pos <= |text|
    ensures Lines(text, pos) == if pos == |text| then [] else [text[pos..LineEnd(text, pos)]] + Lines(text, LineEnd(text, pos))
  {
    hide LineEnd;
  }

  lemma {:induction false} SliceShift(text: string, pos: nat, at: nat, e: nat)
    requires at <= e && pos + e <= |text|
    ensures text[pos + at..pos + e] == text[pos..][at..e]
  {
  }

  lemma {:induction false} FirstLine(line: string, tail: string)
    requires IsRaw(line)
    ensures Lines(line + tail, 0) == [line] + Lines(tail, 0)
  {
    var text, k := line + tail, |line| - 1;
    forall i | 0 <= i < k ensures text[i] != '\n' {
      assert text[i] == line[..k][i];
    }
    LineEndAt(text, 0, k);
    assert text[0..k + 1] == line && text[k + 1..] == tail;
    LinesShift(text, k + 1, 0);
  }

  /** A text made of raw lines is read as those. */
  lemma {:induction false} LinesOfConcat(raws: seq<string>, tail: string)
    requires AllRaw(raws)
    ensures Lines(Concat(raws) + tail, 0) == raws + Lines(tail, 0)
  {
    hide IsRaw, Lines;
    if raws == [] {
      assert Concat(raws) + tail == tail && raws + Lines(tail, 0) == Lines(tail, 0);
    } else {
      LinesOfConcat(raws[1..], tail);
      assert Concat(raws) + tail == raws[0] + (Concat(raws[1..]) + tail);
      FirstLine(raws[0], Concat(raws[1..]) + tail);
      assert raws == [raws[0]] + raws[1..];
      assert [raws[0]] + (raws[1..] + Lines(tail, 0)) == raws + Lines(tail, 0);
    }
  }

  lemma {:induction false} ConcatOfLines(text: string, pos: nat)
    requires pos <= |text|
    ensures Concat(Lines(text, pos)) == text[pos..]
    decreases |text| - pos
  {
    if pos == |text| {
    } else {
      var e := LineEnd(text, pos);
      ConcatOfLines(text, e);
      var lines := Lines(text, pos);
      assert lines[1..] == Lines(text, e);
      assert text[pos..] == text[pos..e] + text[e..];
    }
  }

  lemma {:induction false} ConcatAppend(a: seq<string>, b: seq<string>)
    ensures Concat(a + b) == Concat(a) + Concat(b)
  {
    if a == [] {
      assert a + b == b;
    } else {
      assert (a + b)[1..] == a[1..] + b;
      ConcatAppend(a[1..], b);
    }
  }

  /** Lines read from a text have a line feed at most at their end. */
  predicate IsRead(line: string) {
    line != [] && '\n' !in line[..|line| - 1]
  }

  lemma {:induction false} LinesRead(text: string, pos: nat)
    requires pos <= |text|
    ensures forall i :: 0 <= i < |Lines(text, pos)| ==> IsRead(Lines(text, pos)[i])
    decreases |text| - pos
  {
    if pos == |text| {
    } else {
      var e := LineEnd(text, pos);
      LineEndFirst(text, pos);
      var line := text[pos..e];
      forall i | 0 <= i < |line| - 1 ensures line[i] != '\n' {
        assert line[i] == text[pos + i];
      }
      LinesRead(text, e);
    }
  }

  lemma {:induction false} LineEndFirst(text: string, pos: nat)
    requires pos < |text|
    ensures forall i :: pos <= i < LineEnd(text, pos) - 1 ==> text[i] != '\n'
    decreases |text| - pos
  {
    if text[pos] == '\n' || pos + 1 == |text| {
    } else {
      LineEndFirst(text, pos + 1);
    }
  }

  // ---------------------------------------------------------------- bodies

  /** A line of a header, comment or version as the loader keeps it. */
  predicate IsKept(end: End, l: string) {
    Tight(l) && '\n' !in l && !IsEmptyLine(l) && !IsEnd(end, l)
  }

  predicate AllKept(end: End, body: seq<string>) {
    forall i :: 0 <= i < |body| ==> IsKept(end, body[i])
  }

  predicate IsTitleLine(l: string) {
    IsTitleLevel1(l) || IsTitleLevel2(l) || IsTitleMultiLine(l)
  }

  /** The line that a dump has for a line of a body, trimmed. */
  function Canon(l: string): string {
    if IsTitleLevel1(l) then "^" + Trimmed(l[1..])
    else if IsTitleLevel2(l) then "**" + Trimmed(l[2..])
    else l
  }

  function CanonRaw(l: string): string {
    (if IsTitleLevel2(l) then " " else "") + Canon(l) + "\r\n"
  }

  function CanonAll(body: seq<string>): (r: seq<string>)
    ensures |r| == |body| && forall i :: 0 <= i < |r| ==> r[i] == Canon(body[i])
  {
    seq(|body|, i requires 0 <= i < |body| => Canon(body[i]))
  }

  function CanonRaws(body: seq<string>): (r: seq<string>)
    ensures |r| == |body| && forall i :: 0 <= i < |r| ==> r[i] == CanonRaw(body[i])
  {
    seq(|body|, i requires 0 <= i < |body| => CanonRaw(body[i]))
  }

  function Raws(body: seq<string>): (r: seq<string>)
    ensures |r| == |body| && forall i :: 0 <= i < |r| ==> r[i] == body[i] + "\r\n"
  {
    seq(|body|, i requires 0 <= i < |body| => body[i] + "\r\n")
  }

  lemma {:induction false} TitleLinesOnly(body: seq<string>)
    requires Titles(body).Some?
    ensures forall i :: 0 <= i < |body| ==> IsTitleLine(body[i])
  {
    hide Trimmed;
    if body == [] {
    } else {
      TitleLinesOnly(body[..|body| - 1]);
    }
  }

  lemma {:induction false} TrimmedTwice(s: string)
    ensures Trimmed(Trimmed(s)) == Trimmed(s)
  {
    TrimmedIsTight(s);
    TightStays(Trimmed(s));
  }

  lemma {:induction false} TailTight(l: string, k: nat)
    requires Tight(l) && k < |l|
    ensures Trimmed(l[k..]) != [] && !IsSpace(Trimmed(l[k..])[|Trimmed(l[k..])| - 1])
  {
    var s := l[k..];
    assert s[|s| - 1] == l[|l| - 1];
    TightLast(l);
    hide *;
    LastStays(s);
    TightRight(TrimLeft(s));
    TrimmedIs(s);
  }

  lemma {:induction false} TightLast(l: string)
    requires Tight(l) && l != []
    ensures !IsSpace(l[|l| - 1])
  {
  }

  lemma {:induction false} LastStays(s: string)
    requires s != [] && !IsSpace(s[|s| - 1])
    ensures TrimLeft(s) != [] && TrimLeft(s)[|TrimLeft(s)| - 1] == s[|s| - 1]
  {
    if IsBlank(s[0]) {
      LastStays(s[1..]);
    }
  }

  lemma {:induction false} TightRight(s: string)
    requires s != [] && !IsSpace(s[|s| - 1])
    ensures TrimRight(s) == s
  {
  }

  /** The dumped line reads back as a line of the same kind and text. */
  lemma {:induction false} CanonLine(end: End, l: string)
    requires IsKept(end, l) && IsTitleLine(l) && !end.EndOfScope?
    ensures Tight(Canon(l)) && Canon(l) != [] && !IsEmptyLine(Canon(l)) && !IsEnd(end, Canon(l))
    ensures IsTitleLevel1(Canon(l)) == IsTitleLevel1(l) && IsTitleLevel2(Canon(l)) == IsTitleLevel2(l)
    ensures IsTitleLevel1(l) ==> Trimmed(Canon(l)[1..]) == Trimmed(l[1..])
    ensures IsTitleLevel2(l) ==> Trimmed(Canon(l)[2..]) == Trimmed(l[2..])
    ensures !IsTitleLevel1(l) && !IsTitleLevel2(l) ==> Canon(l) == l
  {
    hide Trimmed;
    if IsTitleLevel1(l) {
      TailTight(l, 1);
      TrimmedTwice(l[1..]);
      assert Canon(l)[1..] == Trimmed(l[1..]);
    } else if IsTitleLevel2(l) {
      TrimmedTwice(l[2..]);
      assert Canon(l)[2..] == Trimmed(l[2..]);
      TrimmedIsTight(l[2..]);
    }
  }

  lemma {:induction false} CanonTrimmed(end: End, l: string)
    requires IsKept(end, l) && IsTitleLine(l) && !end.EndOfScope?
    ensures Trimmed(CanonRaw(l)) == Canon(l)
  {
    hide *;
    CanonLine(end, l);
    TightLine(Canon(l));
    CanonRawEither(l);
  }

  lemma {:induction false} CanonRawEither(l: string)
    ensures CanonRaw(l) == Canon(l) + "\r\n" || CanonRaw(l) == " " + Canon(l) + "\r\n"
  {
    hide Canon;
    assert "" + Canon(l) == Canon(l);
  }

  /** Titles only looks at the kinds and texts of lines. */
  lemma {:induction false} TitlesOfCanon(end: End, body: seq<string>)
    requires AllKept(end, body) && Titles(body).Some? && !end.EndOfScope?
    ensures Titles(CanonAll(body)) == Titles(body)
  {
    hide *;
    TitleLinesOnly(body);
    if body == [] {
      assert CanonAll(body) == body;
    } else {
      var n := |body| - 1;
      EarlierTitles(body);
      EarlierKept(end, body);
      TitlesOfCanon(end, body[..n]);
      CanonLine(end, body[n]);
      assert CanonAll(body)[..n] == CanonAll(body[..n]);
      TitlesNext(body, n);
      TitlesNext(CanonAll(body), n);
      assert body[..n + 1] == body && CanonAll(body)[..n + 1] == CanonAll(body);
    }
  }

  lemma {:induction false} EarlierKept(end: End, body: seq<string>)
    requires body != [] && AllKept(end, body)
    ensures AllKept(end, body[..|body| - 1]) && IsKept(end, body[|body| - 1])
  {
    hide IsKept;
  }

  lemma {:induction false} EarlierTitles(body: seq<string>)
    requires body != [] && Titles(body).Some?
    ensures Titles(body[..|body| - 1]).Some?
  {
  }

  /** The loader finds the end behind the dumped body, and the body. */
  lemma {:induction false} EndBehind(end: End, raws: seq<string>, more: seq<string>)
    requires forall i :: 0 <= i < |raws| ==> !IsEnd(end, Trimmed(raws[i]))
    requires more != [] && IsEnd(end, Trimmed(more[0]))
    ensures EndIndex(end, raws + more) == |raws|
  {
    hide Trimmed, IsEnd;
    if raws == [] {
      assert raws + more == more;
    } else {
      assert (raws + more)[1..] == raws[1..] + more;
      EndBehind(end, raws[1..], more);
    }
  }

  lemma {:induction false} BodyBack(raws: seq<string>, body: seq<string>)
    requires |raws| == |body|
    requires forall i :: 0 <= i < |raws| ==> Trimmed(raws[i]) == body[i] && !IsEmptyLine(body[i])
    ensures Body(raws) == body
  {
    hide Trimmed;
    if raws == [] {
    } else {
      var n := |raws| - 1;
      BodyBack(raws[..n], body[..n]);
    }
  }

  lemma {:induction false} TitledBody(end: End, body: seq<string>, more: seq<string>)
    requires AllKept(end, body) && Titles(body).Some? && !end.EndOfScope?
    requires more != [] && IsEnd(end, Trimmed(more[0]))
    ensures var lines := CanonRaws(body) + more;
            EndIndex(end, lines) == |body| && lines[..|body|] == CanonRaws(body) && lines[|body| + 1..] == more[1..]
            && Titles(Body(lines[..|body|])) == Titles(body)
  {
    TitleLinesOnly(body);
    hide Titles, CanonRaw, Canon, Trimmed, IsEnd, IsKept, IsTitleLine;
    forall i | 0 <= i < |body|
      ensures Trimmed(CanonRaws(body)[i]) == CanonAll(body)[i]
      ensures !IsEmptyLine(CanonAll(body)[i]) && !IsEnd(end, CanonAll(body)[i])
    {
      CanonLine(end, body[i]);
      CanonTrimmed(end, body[i]);
    }
    EndBehind(end, CanonRaws(body), more);
    BodyBack(CanonRaws(body), CanonAll(body));
    TitlesOfCanon(end, body);
    var lines := CanonRaws(body) + more;
    assert lines[..|body|] == CanonRaws(body);
  }

  // ---------------------------------------------------------------- what the dump says

  predicate NulFree(s: string) {
    '\0' !in s
  }

  /** Every entry's text is free of terminators. */
  predicate Clean(items: seq<Item>) {
    forall i :: 0 <= i < |items| ==> NulFree(items[i].data)
  }

  lemma {:induction false} CStringWhole(s: string)
    requires NulFree(s)
    ensures CString(s) == s
  {
    if s == [] {
    } else {
      CStringWhole(s[1..]);
    }
  }

  predicate NoTail(items: seq<Item>) {
    forall i :: 0 <= i < |items| ==> !items[i].kind.DiscardContext?
  }

  lemma {:induction false} PrintAppend(a: seq<Item>, b: seq<Item>)
    requires NoTail(a)
    ensures Print(a + b) == Print(a) + Print(b)
  {
    hide PrintItem;
    if a == [] {
      assert a + b == b;
    } else {
      assert (a + b)[1..] == a[1..] + b;
      PrintAppend(a[1..], b);
      assert PrintItem(a[0]) + (Print(a[1..]) + Print(b)) == (PrintItem(a[0]) + Print(a[1..])) + Print(b);
    }
  }

  lemma {:induction false} PrintOne(item: Item)
    ensures Print([item]) == PrintItem(item)
  {
    hide PrintItem;
    assert [item][1..] == [];
    if !item.kind.DiscardContext? {
      assert PrintItem(item) + Print([]) == PrintItem(item);
    }
  }

  predicate AllTitles(items: seq<Item>) {
    forall i :: 0 <= i < |items| ==> items[i].kind.TitleLevel1? || items[i].kind.TitleLevel2?
  }

  /** Titles are dumped line by line. */
  lemma {:induction false} PrintTitles(body: seq<string>)
    requires Titles(body).Some? && Clean(Titles(body).value)
    ensures AllTitles(Titles(body).value)
    ensures Print(Titles(body).value) == Concat(CanonRaws(body))
  {
    hide *;
    if body == [] {
      NoTitlesPrinted(body);
    } else {
      var n := |body| - 1;
      EarlierTitles(body);
      EarlierClean(body);
      PrintTitles(body[..n]);
      LastTitleLine(body);
      LastCanonRaw(body);
      ConcatAppend(CanonRaws(body[..n]), [CanonRaw(body[n])]);
      ConcatOne(CanonRaw(body[n]));
    }
  }

  lemma {:induction false} NoTitlesPrinted(body: seq<string>)
    requires body == []
    ensures Titles(body) == Some([]) && AllTitles([]) && Print([]) == "" && Concat(CanonRaws(body)) == ""
  {
  }

  lemma {:induction false} LastCanonRaw(body: seq<string>)
    requires body != []
    ensures CanonRaws(body) == CanonRaws(body[..|body| - 1]) + [CanonRaw(body[|body| - 1])]
  {
    hide CanonRaw;
  }

  lemma {:induction false} ConcatOne(line: string)
    ensures Concat([line]) == line
  {
    assert [line][1..] == [];
    assert line + Concat([]) == line;
  }

  /** A clean body was clean before its last line. */
  lemma {:induction false} EarlierClean(body: seq<string>)
    requires body != [] && Titles(body).Some? && Clean(Titles(body).value)
    ensures Titles(body[..|body| - 1]).Some? && Clean(Titles(body[..|body| - 1]).value)
  {
    hide Trimmed;
    var n := |body| - 1;
    var before, after := Titles(body[..n]).value, Titles(body).value;
    forall i | 0 <= i < |before| ensures NulFree(before[i].data) {
      if i < |before| - 1 || |after| > |before| {
        assert after[i] == before[i];
      } else {
        assert after[i].data == before[i].data + "\r\n" + body[n];
        assert forall c :: c in before[i].data ==> c in after[i].data;
      }
    }
  }

  /** What the last line of a body adds to the dump. */
  lemma {:induction false} LastTitleLine(body: seq<string>)
    requires body != [] && Titles(body).Some? && Clean(Titles(body).value)
    requires Titles(body[..|body| - 1]).Some? && AllTitles(Titles(body[..|body| - 1]).value)
    ensures AllTitles(Titles(body).value)
    ensures Print(Titles(body).value) == Print(Titles(body[..|body| - 1]).value) + CanonRaw(body[|body| - 1])
  {
    var n := |body| - 1;
    assert body[..n + 1] == body;
    TitlesNext(body, n);
    var l, before, after := body[n], Titles(body[..n]).value, Titles(body).value;
    hide Titles, Trimmed, Print, PrintItem, CanonRaw;
    if IsTitleLevel1(l) {
      NewTitle(before, Item(TitleLevel1, Trimmed(l[1..])), l);
    } else if IsTitleLevel2(l) {
      NewTitle(before, Item(TitleLevel2, Trimmed(l[2..])), l);
    } else {
      MoreOfTitle(before, l);
    }
  }

  lemma {:induction false} NewTitle(before: seq<Item>, item: Item, l: string)
    requires AllTitles(before) && Clean(before + [item])
    requires (IsTitleLevel1(l) && item == Item(TitleLevel1, Trimmed(l[1..])))
             || (IsTitleLevel2(l) && item == Item(TitleLevel2, Trimmed(l[2..])))
    ensures AllTitles(before + [item]) && Print(before + [item]) == Print(before) + CanonRaw(l)
  {
    hide *;
    CleanAppend(before, [item]);
    OneMoreTitle(before, item);
    PrintAppend(before, [item]);
    PrintOne(item);
    CStringWhole(item.data);
    PrintedTitle(item, l);
  }

  lemma {:induction false} OneMoreTitle(before: seq<Item>, item: Item)
    requires AllTitles(before) && (item.kind.TitleLevel1? || item.kind.TitleLevel2?) && Clean([item])
    ensures AllTitles(before + [item]) && NoTail(before) && NulFree(item.data)
  {
    assert [item][0] == item;
    hide NulFree;
  }

  lemma {:induction false} PrintedTitle(item: Item, l: string)
    requires CString(item.data) == item.data
    requires (IsTitleLevel1(l) && item == Item(TitleLevel1, Trimmed(l[1..])))
             || (IsTitleLevel2(l) && item == Item(TitleLevel2, Trimmed(l[2..])))
    ensures PrintItem(item) == CanonRaw(l)
  {
    hide CString, Trimmed;
    assert "" + Canon(l) + "\r\n" == Canon(l) + "\r\n";
    assert " " + ("**" + item.data) + "\r\n" == " **" + item.data + "\r\n";
  }

  lemma {:induction false} MoreOfTitle(before: seq<Item>, l: string)
    requires AllTitles(before) && before != [] && !IsTitleLevel1(l) && !IsTitleLevel2(l)
    requires Clean(before[..|before| - 1] + [Item(before[|before| - 1].kind, before[|before| - 1].data + "\r\n" + l)])
    ensures var after := before[..|before| - 1] + [Item(before[|before| - 1].kind, before[|before| - 1].data + "\r\n" + l)];
            AllTitles(after) && Print(after) == Print(before) + CanonRaw(l)
  {
    var m := |before| - 1;
    var last := before[m];
    var item := Item(last.kind, last.data + "\r\n" + l);
    assert (before[..m] + [item])[m] == item;
    hide Print, PrintItem, CanonRaw;
    assert before == before[..m] + [last];
    PrintAppend(before[..m], [item]);
    PrintAppend(before[..m], [last]);
    PrintOne(item);
    PrintOne(last);
    LongerTitle(last, l);
    OneMorePiece(Print(before[..m]), PrintItem(last), CanonRaw(l));
  }

  lemma {:induction false} LongerTitle(last: Item, l: string)
    requires last.kind.TitleLevel1? || last.kind.TitleLevel2?
    requires NulFree(last.data + "\r\n" + l) && !IsTitleLevel1(l) && !IsTitleLevel2(l)
    ensures PrintItem(Item(last.kind, last.data + "\r\n" + l)) == PrintItem(last) + CanonRaw(l)
  {
    var data := last.data + "\r\n" + l;
    NulFreePart(last.data, "\r\n" + l);
    assert last.data + ("\r\n" + l) == data;
    CStringWhole(data);
    CStringWhole(last.data);
    hide CString;
    assert CanonRaw(l) == l + "\r\n";
    Behind("^", last.data, l);
    Behind(" **", last.data, l);
  }

  lemma {:induction false} NulFreePart(a: string, b: string)
    requires NulFree(a + b)
    ensures NulFree(a) && NulFree(b)
  {
    assert forall c :: c in a || c in b ==> c in a + b;
  }

  lemma {:induction false} Behind(prefix: string, data: string, l: string)
    ensures prefix + (data + "\r\n" + l) + "\r\n" == (prefix + data + "\r\n") + (l + "\r\n")
  {
  }

  // ---------------------------------------------------------------- blocks

  /** What the loader recognises as a whole, with its lines as it keeps them. */
  datatype Block =
    | Header(text: string, body: seq<string>)
    | Comment(text: string)
    | Scope(body: seq<string>)
    | Version(ver: string, time: string, body: seq<string>)
    | Discard(text: string)

  predicate IsText(s: string) {
    Tight(s) && '\n' !in s
  }

  predicate Ok(b: Block) {
    match b
    case Header(text, body) => IsText(text) && AllKept(EndOfHeader, body) && Titles(body).Some?
    case Comment(text) => IsText(text)
    case Scope(body) => body != [] && AllKept(EndOfScope, body)
    case Version(ver, time, body) =>
      && ver != "" && time != "" && '(' !in ver && '\n' !in ver && '\n' !in time
      && AllKept(EndOfVersion, body) && Titles(body).Some?
    case Discard(text) => true
  }

  function TitlesOf(body: seq<string>): seq<Item> {
    if Titles(body).Some? then Titles(body).value else []
  }

  function Data(ver: string, time: string): string {
    ver + "(" + time + ")"
  }

  function VersionLine(ver: string, time: string): string {
    EIGHT + Data(ver, time) + EIGHT
  }

  /** The entries of a block. */
  function Flat(b: Block): seq<Item> {
    match b
    case Header(text, body) => [Item(HeaderStart, text)] + TitlesOf(body) + [Item(HeaderEnd, "")]
    case Comment(text) => [Item(LineComment, text)]
    case Scope(body) => [Item(ScopeCommentStart, WithBreaks(body)), Item(ScopeCommentEnd, "")]
    case Version(ver, time, body) => [Item(VersionStart, Data(ver, time))] + TitlesOf(body) + [Item(VersionEnd, "")]
    case Discard(text) => [Item(DiscardContext, text)]
  }

  /** The lines of its dump. */
  function RawLines(b: Block): seq<string> {
    match b
    case Header(text, body) => ["$$" + text + "\r\n"] + CanonRaws(body) + ["$$$$\r\n", "\r\n"]
    case Comment(text) => ["//" + text + "\r\n"]
    case Scope(body) => ["/*\r\n"] + Raws(body) + ["*/\r\n", "\r\n"]
    case Version(ver, time, body) => [VersionLine(ver, time) + "\r\n"] + CanonRaws(body) + [RULE + "\r\n", "\r\n"]
    case Discard(text) => ["$\r\n"] + Lines(text, 0)
  }

  lemma {:induction false} Around(first: string, middle: seq<string>, last: string)
    ensures Concat([first] + middle + [last, "\r\n"]) == first + Concat(middle) + (last + "\r\n")
  {
    hide Concat;
    ConcatAppend([first] + middle, [last, "\r\n"]);
    ConcatAppend([first], middle);
    ConcatOne(first);
    assert [last, "\r\n"] == [last] + ["\r\n"];
    ConcatAppend([last], ["\r\n"]);
    ConcatOne(last);
    ConcatOne("\r\n");
  }

  lemma {:induction false} PrintTitled(first: Item, body: seq<string>, last: Item)
    requires Titles(body).Some? && Clean(Titles(body).value)
    requires !first.kind.DiscardContext? && !last.kind.DiscardContext?
    ensures Print([first] + TitlesOf(body) + [last]) == PrintItem(first) + Concat(CanonRaws(body)) + PrintItem(last)
  {
    hide Titles, Print, PrintItem, Concat;
    PrintTitles(body);
    PrintAppend([first] + TitlesOf(body), [last]);
    PrintAppend([first], TitlesOf(body));
    PrintOne(first);
    PrintOne(last);
  }

  /** Lines with breaks in between, and one more break behind. */
  lemma {:induction false} BreaksBehind(body: seq<string>)
    requires body != [] && forall i :: 0 <= i < |body| ==> body[i] != ""
    ensures WithBreaks(body) != "" && WithBreaks(body) + "\r\n" == Concat(Raws(body))
  {
    var n := |body| - 1;
    var last := body[n] + "\r\n";
    hide Concat;
    ConcatOne(last);
    if n == 0 {
      assert body[..0] == [] && Raws(body) == [last];
      assert "" + body[0] == body[0];
    } else {
      BreaksBehind(body[..n]);
      assert Raws(body) == Raws(body[..n]) + [last];
      ConcatAppend(Raws(body[..n]), [last]);
      assert (WithBreaks(body[..n]) + "\r\n" + body[n]) + "\r\n" == (WithBreaks(body[..n]) + "\r\n") + last;
    }
  }

  lemma {:induction false} CleanParts(first: Item, middle: seq<Item>, last: Item)
    requires Clean([first] + middle + [last])
    ensures NulFree(first.data) && Clean(middle) && NulFree(last.data)
  {
    var all := [first] + middle + [last];
    assert all[0] == first && all[|middle| + 1] == last;
    forall i | 0 <= i < |middle| ensures NulFree(middle[i].data) {
      assert all[i + 1] == middle[i];
    }
  }

  /** The dump of a block is its lines. */
  lemma {:induction false} PrintBlock(b: Block)
    requires Ok(b) && Clean(Flat(b))
    ensures Print(Flat(b)) == Concat(RawLines(b))
  {
    match b
    case Header(text, body) => PrintHeader(text, body);
    case Version(ver, time, body) => PrintVersion(ver, time, body);
    case Scope(body) => PrintScope(body);
    case Comment(text) =>
      PrintOne(Item(LineComment, text));
      assert Flat(b)[0].data == text;
      CStringWhole(text);
      ConcatOne("//" + text + "\r\n");
    case Discard(text) =>
      PrintOne(Item(DiscardContext, text));
      assert Flat(b)[0].data == text;
      CStringWhole(text);
      ConcatAppend(["$\r\n"], Lines(text, 0));
      ConcatOne("$\r\n");
      ConcatOfLines(text, 0);
      assert text[0..] == text;
  }

  lemma {:induction false} PrintHeader(text: string, body: seq<string>)
    requires Titles(body).Some? && Clean(Flat(Header(text, body)))
    ensures Print(Flat(Header(text, body))) == Concat(RawLines(Header(text, body)))
  {
    hide Titles, Print, Concat;
    CleanParts(Item(HeaderStart, text), TitlesOf(body), Item(HeaderEnd, ""));
    PrintTitled(Item(HeaderStart, text), body, Item(HeaderEnd, ""));
    CStringWhole(text);
    Around("$$" + text + "\r\n", CanonRaws(body), "$$$$\r\n");
    assert "$$$$\r\n" + "\r\n" == "$$$$\r\n\r\n";
  }

  lemma {:induction false} PrintVersion(ver: string, time: string, body: seq<string>)
    requires Titles(body).Some? && Clean(Flat(Version(ver, time, body)))
    ensures Print(Flat(Version(ver, time, body))) == Concat(RawLines(Version(ver, time, body)))
  {
    hide Titles, Print, Concat, Data;
    CleanParts(Item(VersionStart, Data(ver, time)), TitlesOf(body), Item(VersionEnd, ""));
    PrintTitled(Item(VersionStart, Data(ver, time)), body, Item(VersionEnd, ""));
    CStringWhole(Data(ver, time));
    Around(VersionLine(ver, time) + "\r\n", CanonRaws(body), RULE + "\r\n");
    assert (RULE + "\r\n") + "\r\n" == RULE + "\r\n\r\n";
  }

  lemma {:induction false} PrintScope(body: seq<string>)
    requires Ok(Scope(body)) && Clean(Flat(Scope(body)))
    ensures Print(Flat(Scope(body))) == Concat(RawLines(Scope(body)))
  {
    var first, last := Item(ScopeCommentStart, WithBreaks(body)), Item(ScopeCommentEnd, "");
    assert Flat(Scope(body))[0] == first;
    assert Flat(Scope(body)) == [first] + [last];
    BreaksBehind(body);
    hide *;
    PrintAppend([first], [last]);
    PrintOne(first);
    PrintOne(last);
    PrintedScope(body);
    Around("/*\r\n", Raws(body), "*/\r\n");
    ScopeLines(body);
  }

  lemma {:induction false} PrintedScope(body: seq<string>)
    requires Clean(Flat(Scope(body)))
    ensures PrintItem(Item(ScopeCommentStart, WithBreaks(body))) == "/*\r\n" + (WithBreaks(body) + "\r\n")
    ensures PrintItem(Item(ScopeCommentEnd, "")) == "*/\r\n" + "\r\n"
    ensures NoTail([Item(ScopeCommentStart, WithBreaks(body))])
  {
    assert Flat(Scope(body))[0].data == WithBreaks(body);
    CStringWhole(WithBreaks(body));
    hide WithBreaks, Flat, CString;
  }

  lemma {:induction false} ScopeLines(body: seq<string>)
    ensures RawLines(Scope(body)) == ["/*\r\n"] + Raws(body) + ["*/\r\n", "\r\n"]
  {
    hide Raws;
  }

  /** Each of the lines ends with its only line feed. */
  lemma {:induction false} BlockLinesRaw(b: Block)
    requires Ok(b) && !b.Discard?
    ensures AllRaw(RawLines(b))
  {
    match b
    case Header(text, body) =>
      HeaderRaw(text, body);
    case Version(ver, time, body) =>
      VersionRaw(ver, time, body);
    case Scope(body) =>
      ScopeRaw(body);
    case Comment(text) =>
      RawBreak("//" + text);
      hide IsRaw;
  }

  lemma {:induction false} HeaderRaw(text: string, body: seq<string>)
    requires Ok(Header(text, body))
    ensures AllRaw(RawLines(Header(text, body)))
  {
    FixedRaw();
    RawBreak("$$" + text);
    BodyRaw(EndOfHeader, body);
    hide IsRaw, AllRaw;
    AroundRaw("$$" + text + "\r\n", CanonRaws(body), "$$$$\r\n");
  }

  lemma {:induction false} VersionRaw(ver: string, time: string, body: seq<string>)
    requires Ok(Version(ver, time, body))
    ensures AllRaw(RawLines(Version(ver, time, body)))
  {
    FixedRaw();
    RawBreak(VersionLine(ver, time));
    BodyRaw(EndOfVersion, body);
    hide IsRaw, AllRaw, VersionLine;
    AroundRaw(VersionLine(ver, time) + "\r\n", CanonRaws(body), RULE + "\r\n");
  }

  lemma {:induction false} ScopeRaw(body: seq<string>)
    requires Ok(Scope(body))
    ensures AllRaw(RawLines(Scope(body)))
  {
    FixedRaw();
    forall i | 0 <= i < |body| ensures IsRaw(Raws(body)[i]) {
      assert IsKept(EndOfScope, body[i]);
      RawBreak(body[i]);
    }
    assert AllRaw(Raws(body));
    hide IsRaw, AllRaw;
    AroundRaw("/*\r\n", Raws(body), "*/\r\n");
  }

  lemma {:induction false} FixedRaw()
    ensures IsRaw("\r\n") && IsRaw("$$$$\r\n") && IsRaw(RULE + "\r\n") && IsRaw("/*\r\n") && IsRaw("*/\r\n")
  {
    RawBreak(RULE);
  }

  predicate AllRaw(lines: seq<string>) {
    forall i :: 0 <= i < |lines| ==> IsRaw(lines[i])
  }

  lemma {:induction false} AroundRaw(first: string, middle: seq<string>, last: string)
    requires IsRaw(first) && AllRaw(middle) && IsRaw(last) && IsRaw("\r\n")
    ensures AllRaw([first] + middle + [last, "\r\n"])
  {
    hide IsRaw;
  }

  lemma {:induction false} RawBreak(l: string)
    requires '\n' !in l
    ensures IsRaw(l + "\r\n")
  {
    var s := l + "\r\n";
    assert s[..|s| - 1] == l + "\r";
  }

  lemma {:induction false} BodyRaw(end: End, body: seq<string>)
    requires AllKept(end, body) && Titles(body).Some?
    ensures AllRaw(CanonRaws(body))
  {
    hide Titles, Trimmed;
    forall i | 0 <= i < |body| ensures IsRaw(CanonRaws(body)[i]) {
      assert IsKept(end, body[i]);
      NoFeedTrimmed(body[i], 1);
      NoFeedTrimmed(body[i], 2);
      RawBreak((if IsTitleLevel2(body[i]) then " " else "") + Canon(body[i]));
    }
  }

  lemma {:induction false} NoFeedTrimmed(l: string, k: nat)
    requires '\n' !in l
    ensures k <= |l| ==> '\n' !in Trimmed(l[k..])
  {
    if k <= |l| {
      var s := l[k..];
      assert forall c :: c in TrimLeft(s) ==> c in s;
      assert forall c :: c in Trimmed(s) ==> c in TrimLeft(s);
      assert forall c :: c in s ==> c in l;
    }
  }

  // ---------------------------------------------------------------- loading a block again

  lemma {:induction false} BlankLoaded(rest: seq<string>, items: seq<Item>, ok: bool)
    ensures Loaded(["\r\n"] + rest, items, ok) == Loaded(rest, items, ok)
  {
    LineLoaded("\r\n", rest, items, ok);
    TightLine("");
    assert "" + "\r\n" == "\r\n";
  }

  lemma {:induction false} CommentLoaded(text: string, rest: seq<string>, items: seq<Item>, ok: bool)
    requires IsText(text)
    ensures Loaded(["//" + text + "\r\n"] + rest, items, ok) == Loaded(rest, items + [Item(LineComment, text)], ok)
  {
    hide *;
    var l := "//" + text;
    SlashText(text);
    TightLine(l);
    TightStays(text);
    LineLoaded(l + "\r\n", rest, items, ok);
  }

  lemma {:induction false} SlashText(text: string)
    requires IsText(text)
    ensures var l := "//" + text;
            Tight(text) && Tight(l) && !IsEmptyLine(l) && !IsHeaderStart(l) && !IsDiscard(l) && IsLineComment(l) && l[2..] == text
  {
  }

  /** How the lines of blocks are taken. */
  lemma {:induction false} HeaderLine(text: string)
    requires IsText(text)
    ensures var l := "$$" + text;
            Trimmed(l + "\r\n") == l && !IsEmptyLine(l) && IsHeaderStart(l) && TrimLeft(l[2..]) == text
  {
    hide *;
    DollarText(text);
    TightLine("$$" + text);
    TightStays(text);
  }

  lemma {:induction false} DollarText(text: string)
    requires IsText(text)
    ensures var l := "$$" + text; Tight(text) && Tight(l) && !IsEmptyLine(l) && IsHeaderStart(l) && l[2..] == text
  {
  }

  lemma {:induction false} FixedLines()
    ensures Trimmed("$$$$\r\n") == "$$$$" && IsEnd(EndOfHeader, "$$$$")
    ensures Trimmed("*/\r\n") == "*/" && IsEnd(EndOfScope, "*/")
    ensures Trimmed(RULE + "\r\n") == RULE && IsEnd(EndOfVersion, RULE)
    ensures Trimmed("/*\r\n") == "/*" && !IsEmptyLine("/*") && !IsHeaderStart("/*") && !IsDiscard("/*") && !IsLineComment("/*")
    ensures IsScopeCommentStart("/*")
    ensures Trimmed("$\r\n") == "$" && !IsEmptyLine("$") && !IsHeaderStart("$") && IsDiscard("$")
  {
    hide *;
    LineTrimmed("$$$$", "$$$$\r\n");
    LineTrimmed("*/", "*/\r\n");
    LineTrimmed("/*", "/*\r\n");
    LineTrimmed("$", "$\r\n");
    LineTrimmed(RULE, RULE + "\r\n");
    FixedKinds();
  }

  lemma {:induction false} FixedKinds()
    ensures Tight("$$$$") && Tight("*/") && Tight("/*") && Tight("$") && Tight(RULE)
    ensures IsEnd(EndOfHeader, "$$$$") && IsEnd(EndOfScope, "*/") && IsEnd(EndOfVersion, RULE)
    ensures !IsEmptyLine("/*") && !IsHeaderStart("/*") && !IsDiscard("/*") && !IsLineComment("/*") && IsScopeCommentStart("/*")
    ensures !IsEmptyLine("$") && !IsHeaderStart("$") && IsDiscard("$")
  {
  }

  lemma {:induction false} LineTrimmed(l: string, line: string)
    requires line == l + "\r\n"
    ensures Tight(l) ==> Trimmed(line) == l
  {
    if Tight(l) {
      TightLine(l);
    }
  }

  lemma {:induction false} VersionFirst(l: string)
    requires Tight(l) && VersionBrackets(l).Some?
    ensures Trimmed(l + "\r\n") == l && !IsEmptyLine(l) && !IsHeaderStart(l) && !IsDiscard(l) && !IsLineComment(l)
    ensures !IsScopeCommentStart(l) && 8 < VersionBrackets(l).value.0 < VersionBrackets(l).value.1 <= |l|
    ensures VersionData(l + "\r\n", VersionBrackets(l).value) == VersionData(l, VersionBrackets(l).value)
  {
    hide *;
    TightLine(l);
    HashFirst(l);
    HashKinds(l);
    VersionDataRaw(l, VersionBrackets(l).value);
  }

  lemma {:induction false} HashKinds(l: string)
    requires |l| >= 20 && l[0] == '#'
    ensures !IsEmptyLine(l) && !IsHeaderStart(l) && !IsDiscard(l) && !IsLineComment(l) && !IsScopeCommentStart(l)
  {
  }

  lemma {:induction false} DiscardLoaded(rest: seq<string>, items: seq<Item>, ok: bool)
    ensures Loaded(["$\r\n"] + rest, items, ok) == (items + [Item(DiscardContext, Concat(rest))], ok)
  {
    hide *;
    FixedLines();
    LineLoaded("$\r\n", rest, items, ok);
  }

  lemma {:induction false} HeaderStep(l: string, rest: seq<string>, ok: bool, e: nat, titles: seq<Item>)
    requires |l| >= 2 && e == EndIndex(EndOfHeader, rest) && e < |rest| && Titles(Body(rest[..e])) == Some(titles)
    ensures LoadedHeader(l, rest, ok)
         == Loaded(rest[e + 1..], [Item(HeaderStart, TrimLeft(l[2..]))] + titles + [Item(HeaderEnd, "")], ok)
  {
    hide Loaded, Titles, Body, TrimLeft, EndIndex;
  }

  lemma {:induction false} ScopeStep(rest: seq<string>, items: seq<Item>, ok: bool, e: nat)
    requires e == EndIndex(EndOfScope, rest) && e < |rest| && Body(rest[..e]) != []
    ensures LoadedScope(rest, items, ok)
         == Loaded(rest[e + 1..], items + [Item(ScopeCommentStart, WithBreaks(Body(rest[..e]))), Item(ScopeCommentEnd, "")], ok)
  {
    hide Loaded, Body, WithBreaks, EndIndex;
  }

  lemma {:induction false} VersionStep(data: string, rest: seq<string>, items: seq<Item>, ok: bool, e: nat, titles: seq<Item>)
    requires e == EndIndex(EndOfVersion, rest) && e < |rest| && Titles(Body(rest[..e])) == Some(titles)
    ensures LoadedVersion(data, rest, items, ok)
         == Loaded(rest[e + 1..], items + [Item(VersionStart, data)] + titles + [Item(VersionEnd, "")], ok)
  {
    hide Loaded, Titles, Body, EndIndex;
  }

  lemma {:induction false} BehindEnd(last: string, rest: seq<string>)
    ensures ([last, "\r\n"] + rest)[0] == last && ([last, "\r\n"] + rest)[1..] == ["\r\n"] + rest
  {
  }

  lemma {:induction false} TitlesOfBody(body: seq<string>)
    requires Titles(body).Some?
    ensures Titles(body) == Some(TitlesOf(body))
  {
  }

  lemma {:induction false} HeaderParts(text: string, body: seq<string>)
    requires Ok(Header(text, body))
    ensures IsText(text) && AllKept(EndOfHeader, body) && Titles(body).Some?
    ensures Flat(Header(text, body)) == [Item(HeaderStart, text)] + TitlesOf(body) + [Item(HeaderEnd, "")]
  {
  }

  lemma {:induction false} HeaderLoaded(text: string, body: seq<string>, rest: seq<string>, ok: bool)
    requires Ok(Header(text, body))
    ensures Loaded(["$$" + text + "\r\n"] + (CanonRaws(body) + (["$$$$\r\n", "\r\n"] + rest)), [], ok)
         == Loaded(rest, Flat(Header(text, body)), ok)
  {
    hide *;
    var l, more := "$$" + text, ["$$$$\r\n", "\r\n"] + rest;
    HeaderParts(text, body);
    HeaderLine(text);
    FixedLines();
    BehindEnd("$$$$\r\n", rest);
    LineLoaded(l + "\r\n", CanonRaws(body) + more, [], ok);
    TitledBody(EndOfHeader, body, more);
    TitlesOfBody(body);
    HeaderStep(l, CanonRaws(body) + more, ok, |body|, TitlesOf(body));
    BlankLoaded(rest, Flat(Header(text, body)), ok);
  }

  lemma {:induction false} ScopeBody(body: seq<string>, more: seq<string>)
    requires Ok(Scope(body)) && more != [] && IsEnd(EndOfScope, Trimmed(more[0]))
    ensures var lines := Raws(body) + more;
            EndIndex(EndOfScope, lines) == |body| && Body(lines[..|body|]) == body != [] && lines[|body| + 1..] == more[1..]
  {
    forall i | 0 <= i < |body| ensures Trimmed(Raws(body)[i]) == body[i] && IsKept(EndOfScope, body[i]) {
      assert IsKept(EndOfScope, body[i]);
      TightLine(body[i]);
    }
    hide Trimmed;
    EndBehind(EndOfScope, Raws(body), more);
    BodyBack(Raws(body), body);
    assert (Raws(body) + more)[..|body|] == Raws(body);
  }

  lemma {:induction false} ScopeLoaded(body: seq<string>, rest: seq<string>, items: seq<Item>, ok: bool)
    requires Ok(Scope(body))
    ensures Loaded(["/*\r\n"] + (Raws(body) + (["*/\r\n", "\r\n"] + rest)), items, ok)
         == Loaded(rest, items + [Item(ScopeCommentStart, WithBreaks(body)), Item(ScopeCommentEnd, "")], ok)
  {
    hide *;
    var more := ["*/\r\n", "\r\n"] + rest;
    FixedLines();
    BehindEnd("*/\r\n", rest);
    LineLoaded("/*\r\n", Raws(body) + more, items, ok);
    ScopeBody(body, more);
    ScopeStep(Raws(body) + more, items, ok, |body|);
    BlankLoaded(rest, items + [Item(ScopeCommentStart, WithBreaks(body)), Item(ScopeCommentEnd, "")], ok);
  }

  lemma {:induction false} VersionLoaded(first: string, body: seq<string>, rest: seq<string>, items: seq<Item>, ok: bool)
    requires AllKept(EndOfVersion, body) && Titles(body).Some? && Tight(first)
    requires VersionBrackets(first).Some?
    ensures 8 < VersionBrackets(first).value.0 < VersionBrackets(first).value.1 <= |first|
    ensures Loaded([first + "\r\n"] + (CanonRaws(body) + ([RULE + "\r\n", "\r\n"] + rest)), items, ok)
         == Loaded(rest, items + [Item(VersionStart, VersionData(first, VersionBrackets(first).value))]
                         + TitlesOf(body) + [Item(VersionEnd, "")], ok)
  {
    hide *;
    var more := [RULE + "\r\n", "\r\n"] + rest;
    VersionFirst(first);
    var data := VersionData(first, VersionBrackets(first).value);
    FixedLines();
    BehindEnd(RULE + "\r\n", rest);
    LineLoaded(first + "\r\n", CanonRaws(body) + more, items, ok);
    TitledBody(EndOfVersion, body, more);
    TitlesOfBody(body);
    VersionStep(data, CanonRaws(body) + more, items, ok, |body|, TitlesOf(body));
    BlankLoaded(rest, items + [Item(VersionStart, data)] + TitlesOf(body) + [Item(VersionEnd, "")], ok);
  }

  lemma {:induction false} HashFirst(l: string)
    requires VersionBrackets(l).Some?
    ensures |l| >= 20 && l[0] == '#'
    ensures 8 < VersionBrackets(l).value.0 < VersionBrackets(l).value.1 <= |l|
  {
    hide IndexOf;
  }

  lemma {:induction false} VersionDataRaw(l: string, brackets: (nat, nat))
    requires 8 < brackets.0 < brackets.1 <= |l|
    ensures VersionData(l + "\r\n", brackets) == VersionData(l, brackets)
  {
    var s := l + "\r\n";
    assert s[8..brackets.0] == l[8..brackets.0] && s[brackets.0 + 1..brackets.1] == l[brackets.0 + 1..brackets.1];
  }

  /** A line that the loader has no rule for. */
  predicate IsUnknown(l: string) {
    !IsEmptyLine(l) && l[0] != '$' && l[0] != '/' && VersionBrackets(l) == None
  }

  lemma {:induction false} UnknownLoaded(line: string, rest: seq<string>, items: seq<Item>, ok: bool)
    requires IsUnknown(Trimmed(line))
    ensures Loaded([line] + rest, items, ok) == Loaded(rest, items, false)
  {
    LineLoaded(line, rest, items, ok);
    hide Loaded, Trimmed, VersionBrackets;
  }

  lemma {:induction false} AllUnknownLoaded(lines: seq<string>, rest: seq<string>, items: seq<Item>)
    requires forall i :: 0 <= i < |lines| ==> IsUnknown(Trimmed(lines[i]))
    ensures Loaded(lines + rest, items, false) == Loaded(rest, items, false)
  {
    hide Loaded, Trimmed, IsUnknown;
    if lines == [] {
      assert lines + rest == rest;
    } else {
      AllUnknownLoaded(lines[1..], rest, items);
      assert lines + rest == [lines[0]] + (lines[1..] + rest);
      UnknownLoaded(lines[0], lines[1..] + rest, items, false);
    }
  }

  lemma {:induction false} CanonUnknown(end: End, l: string)
    requires IsKept(end, l) && IsTitleLine(l) && !end.EndOfScope?
    ensures IsUnknown(Canon(l))
  {
    CanonLine(end, l);
    NoHash(Canon(l));
    hide Trimmed, Canon, VersionBrackets, IsKept;
  }

  lemma {:induction false} NoHash(l: string)
    ensures l != [] && l[0] != '#' ==> VersionBrackets(l) == None
  {
    hide IndexOf;
  }

  lemma {:induction false} RuleUnknown()
    ensures IsUnknown(RULE)
  {
    assert IndexOf(RULE, '(', 8) == |RULE|;
  }

  /** A version whose first line is not recognised again is skipped. */
  lemma {:induction false} VersionSkipped(first: string, body: seq<string>, rest: seq<string>, items: seq<Item>, ok: bool)
    requires AllKept(EndOfVersion, body) && Titles(body).Some? && Tight(first) && IsUnknown(first)
    ensures Loaded([first + "\r\n"] + (CanonRaws(body) + ([RULE + "\r\n", "\r\n"] + rest)), items, ok)
         == Loaded(rest, items, false)
  {
    hide *;
    var more := [RULE + "\r\n", "\r\n"] + rest;
    TightLine(first);
    UnknownLoaded(first + "\r\n", CanonRaws(body) + more, items, ok);
    SkippedBody(body);
    AllUnknownLoaded(CanonRaws(body), more, items);
    FixedLines();
    RuleUnknown();
    RuleThenBlank(rest);
    UnknownLoaded(RULE + "\r\n", ["\r\n"] + rest, items, false);
    BlankLoaded(rest, items, false);
  }

  lemma {:induction false} RuleThenBlank(rest: seq<string>)
    ensures [RULE + "\r\n", "\r\n"] + rest == [RULE + "\r\n"] + (["\r\n"] + rest)
  {
  }

  lemma {:induction false} SkippedBody(body: seq<string>)
    requires AllKept(EndOfVersion, body) && Titles(body).Some?
    ensures forall i :: 0 <= i < |CanonRaws(body)| ==> IsUnknown(Trimmed(CanonRaws(body)[i]))
  {
    TitleLinesOnly(body);
    hide Trimmed, IsUnknown, CanonRaw, Titles, IsKept, IsTitleLine, Canon;
    forall i | 0 <= i < |body| ensures IsUnknown(Trimmed(CanonRaws(body)[i])) {
      CanonTrimmed(EndOfVersion, body[i]);
      CanonUnknown(EndOfVersion, body[i]);
    }
  }

  // ---------------------------------------------------------------- versions

  /** A version datum whose first closing bracket behind its first opening one is
      its last character. */
  predicate GoodDatum(d: string) {
    var left := IndexOf(d, '(', 0);
    left < |d| && IndexOf(d, ')', left) == |d| - 1
  }

  lemma {:induction false} IndexIs(s: string, c: char, from: nat, i: nat)
    requires from <= i < |s| && s[i] == c && forall j :: from <= j < i ==> s[j] != c
    ensures IndexOf(s, c, from) == i
  {
  }

  lemma {:induction false} BracketsGood(l: string)
    requires VersionBrackets(l).Some?
    ensures var b := VersionBrackets(l).value; b.1 <= |l| && GoodDatum(VersionData(l, b))
  {
    var (left, right) := VersionBrackets(l).value;
    assert left == IndexOf(l, '(', 8) && right == IndexOf(l, ')', left);
    var d := VersionData(l, (left, right));
    hide VersionBrackets;
    forall i | 0 <= i < left - 8 ensures d[i] != '(' {
      assert d[i] == l[8 + i];
    }
    IndexIs(d, '(', 0, left - 8);
    forall i | left - 8 <= i < |d| - 1 ensures d[i] != ')' {
      assert i > left - 8 ==> d[i] == l[8 + i];
    }
    IndexIs(d, ')', left - 8, |d| - 1);
  }

  lemma {:induction false} DatumGood(ver: string, time: string)
    requires '(' !in ver
    ensures GoodDatum(Data(ver, time)) <==> ')' !in time
  {
    var d := Data(ver, time);
    assert forall i :: 0 <= i < |ver| ==> d[i] == ver[i];
    assert forall i :: 0 <= i < |time| ==> d[|ver| + 1 + i] == time[i];
    assert d[|ver|] == '(' && d[|d| - 1] == ')';
    assert IndexOf(d, '(', 0) == |ver|;
    if ')' in time {
      var i :| 0 <= i < |time| && time[i] == ')';
      assert d[|ver| + 1 + i] == ')';
    }
  }

  /** The dumped first line of a version is recognised, with the same datum, when
      the datum is good. */
  lemma {:induction false} VersionLineBack(ver: string, time: string)
    requires ver != "" && time != "" && '(' !in ver
    ensures Tight(VersionLine(ver, time)) && !IsEmptyLine(VersionLine(ver, time)) && VersionLine(ver, time)[0] == '#'
    ensures ')' !in time ==>
              var b := (8 + |ver|, 9 + |ver| + |time|);
              VersionBrackets(VersionLine(ver, time)) == Some(b) && VersionData(VersionLine(ver, time), b) == Data(ver, time)
  {
    var l := VersionLine(ver, time);
    VersionLineAt(ver, time);
    hide VersionLine;
    if ')' !in time {
      var left, right := 8 + |ver|, 9 + |ver| + |time|;
      IndexIs(l, '(', 8, left);
      IndexIs(l, ')', left, right);
      assert l[8..left] == ver && l[left + 1..right] == time;
    }
  }

  /** The characters of the line. */
  lemma {:induction false} VersionLineAt(ver: string, time: string)
    ensures var l := VersionLine(ver, time);
            && |l| == 18 + |ver| + |time| && Hashes(l, 0, 8) && Hashes(l, 10 + |ver| + |time|, 8)
            && l[8 + |ver|] == '(' && l[9 + |ver| + |time|] == ')'
            && (forall i :: 8 <= i < 8 + |ver| ==> l[i] == ver[i - 8])
            && (forall i :: 9 + |ver| <= i < 9 + |ver| + |time| ==> l[i] == time[i - 9 - |ver|])
  {
    var l, d := VersionLine(ver, time), Data(ver, time);
    assert |d| == |ver| + |time| + 2;
    assert forall i :: 8 <= i < 8 + |d| ==> l[i] == d[i - 8];
    assert forall i :: 8 + |d| <= i < |l| ==> l[i] == EIGHT[i - 8 - |d|] == '#';
  }

  // ---------------------------------------------------------------- all blocks

  /** What a block comes back as. */
  function Again(b: Block): seq<Item> {
    if b.Version? then
      var l := VersionLine(b.ver, b.time);
      match VersionBrackets(l)
      case None => []
      case Some(brackets) =>
        if brackets.1 > |l| || brackets.0 >= brackets.1 then []
        else [Item(VersionStart, VersionData(l, brackets))] + TitlesOf(b.body) + [Item(VersionEnd, "")]
    else Flat(b)
  }

  predicate OkAfter(b: Block, ok: bool) {
    ok && (b.Version? ==> VersionBrackets(VersionLine(b.ver, b.time)).Some?)
  }

  lemma {:induction false} LoadBlock(b: Block, rest: seq<string>, items: seq<Item>, ok: bool)
    requires Ok(b) && !b.Discard? && (b.Header? ==> items == [])
    ensures Loaded(RawLines(b) + rest, items, ok) == Loaded(rest, items + Again(b), OkAfter(b, ok))
  {
    match b
    case Header(text, body) =>
      hide *;
      LoadBlockHeader(text, body, rest, ok);
    case Comment(text) =>
      hide Loaded;
      CommentLoaded(text, rest, items, ok);
    case Scope(body) =>
      LoadBlockScope(body, rest, items, ok);
    case Version(ver, time, body) =>
      LoadBlockVersion(ver, time, body, rest, items, ok);
  }

  lemma {:induction false} Regrouped(first: string, middle: seq<string>, last: string, rest: seq<string>)
    ensures ([first] + middle + [last, "\r\n"]) + rest == [first] + (middle + ([last, "\r\n"] + rest))
  {
  }

  lemma {:induction false} LoadBlockHeader(text: string, body: seq<string>, rest: seq<string>, ok: bool)
    requires Ok(Header(text, body))
    ensures Loaded(RawLines(Header(text, body)) + rest, [], ok)
         == Loaded(rest, [] + Again(Header(text, body)), OkAfter(Header(text, body), ok))
  {
    hide Loaded, Titles, IsText, AllKept, Flat;
    Regrouped("$$" + text + "\r\n", CanonRaws(body), "$$$$\r\n", rest);
    HeaderLoaded(text, body, rest, ok);
    assert [] + Flat(Header(text, body)) == Flat(Header(text, body));
  }

  lemma {:induction false} LoadBlockScope(body: seq<string>, rest: seq<string>, items: seq<Item>, ok: bool)
    requires Ok(Scope(body))
    ensures Loaded(RawLines(Scope(body)) + rest, items, ok)
         == Loaded(rest, items + Again(Scope(body)), OkAfter(Scope(body), ok))
  {
    hide Loaded, AllKept, WithBreaks;
    Regrouped("/*\r\n", Raws(body), "*/\r\n", rest);
    ScopeLoaded(body, rest, items, ok);
  }

  lemma {:induction false} LoadBlockVersion(ver: string, time: string, body: seq<string>, rest: seq<string>, items: seq<Item>, ok: bool)
    requires Ok(Version(ver, time, body))
    ensures Loaded(RawLines(Version(ver, time, body)) + rest, items, ok)
         == Loaded(rest, items + Again(Version(ver, time, body)), OkAfter(Version(ver, time, body), ok))
  {
    hide Loaded, AllKept, Titles, VersionBrackets, TitlesOf;
    var l := VersionLine(ver, time);
    Regrouped(l + "\r\n", CanonRaws(body), RULE + "\r\n", rest);
    VersionLineBack(ver, time);
    hide VersionLine;
    if VersionBrackets(l).Some? {
      VersionLoaded(l, body, rest, items, ok);
      var data := VersionData(l, VersionBrackets(l).value);
      assert items + ([Item(VersionStart, data)] + TitlesOf(body) + [Item(VersionEnd, "")])
          == items + [Item(VersionStart, data)] + TitlesOf(body) + [Item(VersionEnd, "")];
    } else {
      VersionSkipped(l, body, rest, items, ok);
      assert items + [] == items;
    }
  }

  function FlatAll(blocks: seq<Block>): seq<Item> {
    if blocks == [] then [] else Flat(blocks[0]) + FlatAll(blocks[1..])
  }

  function AgainAll(blocks: seq<Block>): seq<Item> {
    if blocks == [] then [] else Again(blocks[0]) + AgainAll(blocks[1..])
  }

  function RawAll(blocks: seq<Block>): seq<string> {
    if blocks == [] then [] else RawLines(blocks[0]) + RawAll(blocks[1..])
  }

  predicate AllOkAfter(blocks: seq<Block>, ok: bool) {
    if blocks == [] then ok else AllOkAfter(blocks[1..], OkAfter(blocks[0], ok))
  }

  /** A header stands first if anywhere, a discarded tail last. */
  predicate AllOk(blocks: seq<Block>) {
    && (forall i :: 0 <= i < |blocks| ==> Ok(blocks[i]))
    && (forall i :: 0 < i < |blocks| ==> !blocks[i].Header?)
    && (forall i :: 0 <= i < |blocks| - 1 ==> !blocks[i].Discard?)
  }

  lemma {:induction false} AllOkRest(blocks: seq<Block>)
    requires AllOk(blocks) && blocks != []
    ensures AllOk(blocks[1..]) && Ok(blocks[0]) && (|blocks| > 1 ==> !blocks[0].Discard? && !blocks[1..][0].Header?)
  {
    hide Ok;
  }

  /** Loading the lines of blocks. */
  lemma {:induction false} LoadAll(blocks: seq<Block>, items: seq<Item>, ok: bool)
    requires AllOk(blocks) && (blocks != [] && blocks[0].Header? ==> items == [])
    ensures Loaded(RawAll(blocks), items, ok) == (items + AgainAll(blocks), AllOkAfter(blocks, ok))
    decreases |blocks|
  {
    hide *;
    if blocks == [] {
      NothingToLoad(blocks, items, ok);
    } else {
      AllOkRest(blocks);
      LoadUnfold(blocks, ok);
      if blocks[0].Discard? {
        LoadLastDiscard(blocks, items, ok);
      } else {
        LoadBlock(blocks[0], RawAll(blocks[1..]), items, ok);
        LoadAll(blocks[1..], items + Again(blocks[0]), OkAfter(blocks[0], ok));
        assert (items + Again(blocks[0])) + AgainAll(blocks[1..]) == items + (Again(blocks[0]) + AgainAll(blocks[1..]));
      }
    }
  }

  lemma {:induction false} NothingToLoad(blocks: seq<Block>, items: seq<Item>, ok: bool)
    requires blocks == []
    ensures Loaded(RawAll(blocks), items, ok) == (items + AgainAll(blocks), AllOkAfter(blocks, ok))
  {
    assert items + [] == items;
  }

  lemma {:induction false} LoadUnfold(blocks: seq<Block>, ok: bool)
    requires blocks != []
    ensures RawAll(blocks) == RawLines(blocks[0]) + RawAll(blocks[1..])
    ensures AgainAll(blocks) == Again(blocks[0]) + AgainAll(blocks[1..])
    ensures AllOkAfter(blocks, ok) == AllOkAfter(blocks[1..], OkAfter(blocks[0], ok))
  {
    hide RawLines, Again, OkAfter;
  }

  lemma {:induction false} LoadLastDiscard(blocks: seq<Block>, items: seq<Item>, ok: bool)
    requires blocks != [] && AllOk(blocks) && blocks[0].Discard?
    ensures Loaded(RawAll(blocks), items, ok) == (items + AgainAll(blocks), AllOkAfter(blocks, ok))
  {
    var text := blocks[0].text;
    assert blocks[1..] == [];
    ConcatOfLines(text, 0);
    assert text[0..] == text;
    hide Loaded, Lines, Concat;
    assert RawAll(blocks) == ["$\r\n"] + Lines(text, 0);
    DiscardLoaded(Lines(text, 0), items, ok);
    assert AgainAll(blocks) == [Item(DiscardContext, text)];
  }

  // ---------------------------------------------------------------- dumping all blocks

  lemma {:induction false} CleanAppend(a: seq<Item>, b: seq<Item>)
    ensures Clean(a + b) <==> Clean(a) && Clean(b)
  {
    var all := a + b;
    assert forall i :: 0 <= i < |a| ==> all[i] == a[i];
    assert forall i :: 0 <= i < |b| ==> all[|a| + i] == b[i];
    hide NulFree;
    if Clean(all) {
      forall i | 0 <= i < |a| ensures NulFree(a[i].data) {
        assert all[i] == a[i];
      }
      forall i | 0 <= i < |b| ensures NulFree(b[i].data) {
        assert all[|a| + i] == b[i];
      }
    }
  }

  lemma {:induction false} FlatNoTail(b: Block)
    requires Ok(b) && !b.Discard?
    ensures NoTail(Flat(b))
  {
    if b.Header? || b.Version? {
      TitlesNoTail(b.body);
    }
    hide Titles, AllKept, TitlesOf;
  }

  lemma {:induction false} TitlesNoTail(body: seq<string>)
    requires Titles(body).Some?
    ensures NoTail(TitlesOf(body)) && AllTitles(TitlesOf(body))
  {
    hide *;
    TitlesOfBody(body);
    if body == [] {
      NoTitlesPrinted(body);
    } else {
      var n := |body| - 1;
      EarlierTitles(body);
      TitlesOfBody(body[..n]);
      TitlesNoTail(body[..n]);
      TitlesNext(body, n);
      assert body[..n + 1] == body;
      StillTitles(TitlesOf(body[..n]), body[n]);
    }
    TitlesHaveNoTail(TitlesOf(body));
  }

  lemma {:induction false} StillTitles(items: seq<Item>, l: string)
    requires AllTitles(items)
    ensures forall s :: AllTitles(items + [Item(TitleLevel1, s)]) && AllTitles(items + [Item(TitleLevel2, s)])
    ensures items != [] ==>
              AllTitles(items[..|items| - 1] + [Item(items[|items| - 1].kind, items[|items| - 1].data + "\r\n" + l)])
  {
  }

  lemma {:induction false} TitlesHaveNoTail(items: seq<Item>)
    requires AllTitles(items)
    ensures NoTail(items)
  {
  }

  /** The dump of clean blocks is their lines. */
  lemma {:induction false} PrintBlocks(blocks: seq<Block>)
    requires AllOk(blocks) && Clean(FlatAll(blocks))
    ensures Print(FlatAll(blocks)) == Concat(RawAll(blocks))
    decreases |blocks|
  {
    if blocks == [] {
    } else {
      hide *;
      AllOkRest(blocks);
      LoadUnfold(blocks, true);
      FlatUnfold(blocks);
      CleanAppend(Flat(blocks[0]), FlatAll(blocks[1..]));
      PrintBlock(blocks[0]);
      PrintBlocks(blocks[1..]);
      ConcatAppend(RawLines(blocks[0]), RawAll(blocks[1..]));
      if blocks[0].Discard? {
        OnlyDiscard(blocks);
      } else {
        FlatNoTail(blocks[0]);
        PrintAppend(Flat(blocks[0]), FlatAll(blocks[1..]));
      }
    }
  }

  lemma {:induction false} FlatUnfold(blocks: seq<Block>)
    requires blocks != []
    ensures FlatAll(blocks) == Flat(blocks[0]) + FlatAll(blocks[1..])
  {
    hide Flat;
  }

  lemma {:induction false} OnlyDiscard(blocks: seq<Block>)
    requires AllOk(blocks) && blocks != [] && blocks[0].Discard?
    ensures FlatAll(blocks) == Flat(blocks[0]) && RawAll(blocks) == RawLines(blocks[0])
  {
    assert blocks[1..] == [];
    hide Flat, RawLines;
    assert Flat(blocks[0]) + [] == Flat(blocks[0]) && RawLines(blocks[0]) + [] == RawLines(blocks[0]);
  }

  /** The dumped text is read as those lines. */
  lemma {:induction false} LinesOfBlocks(blocks: seq<Block>)
    requires AllOk(blocks)
    ensures Lines(Concat(RawAll(blocks)), 0) == RawAll(blocks)
    decreases |blocks|
  {
    if blocks == [] {
    } else {
      hide *;
      AllOkRest(blocks);
      LoadUnfold(blocks, true);
      ConcatAppend(RawLines(blocks[0]), RawAll(blocks[1..]));
      if blocks[0].Discard? {
        OnlyDiscard(blocks);
        DiscardLines(blocks[0]);
      } else {
        BlockLinesRaw(blocks[0]);
        LinesOfConcat(RawLines(blocks[0]), Concat(RawAll(blocks[1..])));
        LinesOfBlocks(blocks[1..]);
      }
    }
  }

  lemma {:induction false} DiscardLines(b: Block)
    requires b.Discard?
    ensures Lines(Concat(RawLines(b)), 0) == RawLines(b)
  {
    ConcatOfLines(b.text, 0);
    assert b.text[0..] == b.text;
    ConcatAppend(["$\r\n"], Lines(b.text, 0));
    ConcatOne("$\r\n");
    RawBreak("$");
    assert "$" + "\r\n" == "$\r\n";
    FirstLine("$\r\n", b.text);
    hide Lines, Concat;
  }

  // ---------------------------------------------------------------- what the loader builds

  /** How a line lies in the line as it was read. */
  lemma {:induction false} Indented(raw: string) returns (k: nat)
    ensures k + |Trimmed(raw)| <= |raw| && Trimmed(raw) == raw[k..k + |Trimmed(raw)|]
    ensures forall i :: 0 <= i < k ==> IsBlank(raw[i])
  {
    var t := TrimLeft(raw);
    k := |raw| - |t|;
    BlanksBefore(raw);
    assert TrimRight(t) == t[..|TrimRight(t)|] == raw[k..][..|TrimRight(t)|];
    hide TrimLeft, TrimRight;
  }

  lemma {:induction false} BlanksBefore(s: string)
    ensures forall i :: 0 <= i < |s| - |TrimLeft(s)| ==> IsBlank(s[i])
  {
    if s != [] && IsBlank(s[0]) {
      BlanksBefore(s[1..]);
      assert forall i :: 1 <= i < |s| ==> s[i] == s[1..][i - 1];
    }
  }

  lemma {:induction false} TrimmedRead(line: string)
    requires IsRead(line)
    ensures Tight(Trimmed(line)) && '\n' !in Trimmed(line)
  {
    TrimmedIsTight(line);
    var a := Indented(line);
    var b := a + |Trimmed(line)|;
    hide Trimmed;
    forall i | a <= i < b ensures line[i] != '\n' {
      assert i < |line| - 1 ==> line[i] == line[..|line| - 1][i];
      assert i == |line| - 1 ==> line[i] == Trimmed(line)[|Trimmed(line)| - 1];
    }
  }

  lemma {:induction false} TextBehind(l: string, k: nat)
    requires Tight(l) && '\n' !in l && k <= |l|
    ensures IsText(TrimLeft(l[k..]))
  {
    hide *;
    var s := l[k..];
    var t := TrimLeft(s);
    TrimLeftStops(s);
    SuffixText(l, t, k + (|s| - |t|));
  }

  lemma {:induction false} SuffixText(l: string, t: string, k: nat)
    requires Tight(l) && '\n' !in l && k <= |l| && t == l[k..] && (t != [] ==> !IsBlank(t[0]))
    ensures IsText(t)
  {
    hide IsBlank, IsSpace;
    forall i | 0 <= i < |t| ensures t[i] != '\n' {
      assert t[i] == l[k + i];
    }
  }

  lemma {:induction false} BodyKept(end: End, lines: seq<string>, e: nat)
    requires e <= |lines| && forall i :: 0 <= i < |lines| ==> IsRead(lines[i])
    requires forall i :: 0 <= i < e ==> !IsEnd(end, Trimmed(lines[i]))
    ensures AllKept(end, Body(lines[..e]))
  {
    hide Trimmed, IsEnd, IsRead, Tight, IsEmptyLine;
    if e == 0 {
    } else {
      BodyKept(end, lines, e - 1);
      BodyNext(lines, e - 1);
      TrimmedRead(lines[e - 1]);
    }
  }

  lemma {:induction false} BeforeEnd(end: End, lines: seq<string>)
    ensures forall i :: 0 <= i < EndIndex(end, lines) ==> !IsEnd(end, Trimmed(lines[i]))
  {
    hide Trimmed, IsEnd;
    if lines == [] || IsEnd(end, Trimmed(lines[0])) {
    } else {
      BeforeEnd(end, lines[1..]);
      assert forall i :: 1 <= i < |lines| ==> lines[i] == lines[1..][i - 1];
    }
  }

  /** The body that the loader cuts out. */
  lemma {:induction false} BodyUpToEnd(end: End, lines: seq<string>)
    requires forall i :: 0 <= i < |lines| ==> IsRead(lines[i])
    ensures AllKept(end, Body(lines[..EndIndex(end, lines)]))
  {
    hide *;
    BeforeEnd(end, lines);
    BodyKept(end, lines, EndIndex(end, lines));
  }

  /** The datum of a version line has a version, an opening bracket that is its
      first, and a time. */
  lemma {:induction false} VersionParts(raw: string)
    requires IsRead(raw) && VersionBrackets(Trimmed(raw)).Some?
    ensures var b := VersionBrackets(Trimmed(raw)).value;
            && b.1 <= |raw|
            && var (ver, time) := (raw[8..b.0], raw[b.0 + 1..b.1]);
               && ver != "" && time != "" && '(' !in ver && '\n' !in ver && '\n' !in time
               && VersionData(raw, b) == Data(ver, time)
  {
    var l := Trimmed(raw);
    var k := Indented(raw);
    var (left, right) := VersionBrackets(l).value;
    NoBracketBefore(l);
    hide Trimmed, VersionBrackets;
    assert |raw| >= |l| > right + 8;
    forall j | 8 <= j < left ensures raw[j] != '(' {
      assert j >= k ==> raw[j] == l[j - k];
    }
    forall j | 8 <= j < right ensures raw[j] != '\n' {
      assert raw[j] == raw[..|raw| - 1][j];
    }
  }

  lemma {:induction false} NoBracketBefore(l: string)
    requires VersionBrackets(l).Some?
    ensures VersionBrackets(l).value.1 + 8 < |l|
    ensures forall i :: 0 <= i < VersionBrackets(l).value.0 ==> l[i] != '('
  {
    assert VersionBrackets(l).value.0 == IndexOf(l, '(', 8);
  }

  lemma {:induction false} FlatAppend(blocks: seq<Block>, b: Block)
    ensures FlatAll(blocks + [b]) == FlatAll(blocks) + Flat(b)
  {
    hide Flat;
    if blocks == [] {
      assert [] + [b] == [b] && [b][1..] == [];
      assert FlatAll([b]) == Flat(b) + [] == Flat(b) && [] + Flat(b) == Flat(b);
    } else {
      FlatAppend(blocks[1..], b);
      assert (blocks + [b])[1..] == blocks[1..] + [b];
      assert Flat(blocks[0]) + (FlatAll(blocks[1..]) + Flat(b)) == FlatAll(blocks) + Flat(b);
    }
  }

  /** Blocks that more can follow. */
  predicate Open(blocks: seq<Block>) {
    AllOk(blocks) && forall i :: 0 <= i < |blocks| ==> !blocks[i].Discard?
  }

  lemma {:induction false} OpenAppend(blocks: seq<Block>, b: Block)
    requires Open(blocks) && Ok(b) && (b.Header? ==> blocks == [])
    ensures AllOk(blocks + [b]) && (!b.Discard? ==> Open(blocks + [b]))
    ensures FlatAll(blocks + [b]) == FlatAll(blocks) + Flat(b)
  {
    FlatAppend(blocks, b);
    hide Ok, Flat, FlatAll;
  }

  lemma {:induction false} NothingFlat(blocks: seq<Block>)
    ensures FlatAll(blocks) == [] <==> blocks == []
  {
    if blocks != [] {
      assert Flat(blocks[0]) != [];
    }
    hide Flat;
  }

  predicate AllRead(lines: seq<string>) {
    forall i :: 0 <= i < |lines| ==> IsRead(lines[i])
  }

  lemma {:induction false} AllReadBehind(lines: seq<string>, k: nat)
    requires AllRead(lines) && k <= |lines|
    ensures AllRead(lines[k..]) && (lines != [] ==> IsRead(lines[0]))
  {
    hide IsRead;
  }

  lemma {:induction false} TextOk(l: string)
    requires Tight(l) && '\n' !in l
    ensures IsHeaderStart(l) || IsLineComment(l) ==> |l| >= 2 && IsText(TrimLeft(l[2..]))
  {
    if |l| >= 2 {
      TextBehind(l, 2);
    }
    hide TrimLeft;
  }

  /** Whatever the text, the loader's entries are those of blocks. */
  lemma {:induction false} Built(lines: seq<string>, blocks: seq<Block>, ok: bool) returns (all: seq<Block>)
    requires AllRead(lines) && Open(blocks)
    ensures AllOk(all) && Loaded(lines, FlatAll(blocks), ok).0 == FlatAll(all)
    decreases |lines|, 0
  {
    hide *;
    NothingFlat(blocks);
    OpenIsOk(blocks);
    all := blocks;
    if lines == [] {
      EndOfLines(FlatAll(blocks), ok);
      return;
    }
    var l, rest := Trimmed(lines[0]), lines[1..];
    AllReadBehind(lines, 1);
    TrimmedRead(lines[0]);
    TextOk(l);
    assert lines == [lines[0]] + rest;
    LineLoaded(lines[0], rest, FlatAll(blocks), ok);
    if IsEmptyLine(l) {
      all := Built(rest, blocks, ok);
    } else if FlatAll(blocks) == [] && IsHeaderStart(l) {
      all := BuiltHeader(l, rest, ok);
    } else if IsDiscard(l) {
      all := blocks + [Discard(Concat(rest))];
      SimpleBlocks("", Concat(rest));
      OpenAppend(blocks, Discard(Concat(rest)));
    } else if IsLineComment(l) {
      SimpleBlocks(TrimLeft(l[2..]), "");
      OpenAppend(blocks, Comment(TrimLeft(l[2..])));
      all := Built(rest, blocks + [Comment(TrimLeft(l[2..]))], ok);
    } else if IsScopeCommentStart(l) {
      all := BuiltScope(rest, blocks, ok);
    } else if VersionBrackets(l).Some? {
      all := BuiltVersion(lines[0], rest, blocks, ok);
    } else {
      all := Built(rest, blocks, false);
    }
  }

  lemma {:induction false} OpenIsOk(blocks: seq<Block>)
    requires Open(blocks)
    ensures AllOk(blocks)
  {
  }

  lemma {:induction false} EndOfLines(items: seq<Item>, ok: bool)
    ensures Loaded([], items, ok) == (items, ok)
  {
  }

  lemma {:induction false} SimpleBlocks(text: string, tail: string)
    ensures Ok(Discard(tail)) && Flat(Discard(tail)) == [Item(DiscardContext, tail)]
    ensures !Discard(tail).Header? && Discard(tail).Discard?
    ensures IsText(text) ==> Ok(Comment(text))
    ensures Flat(Comment(text)) == [Item(LineComment, text)] && !Comment(text).Header? && !Comment(text).Discard?
  {
    hide IsText;
  }

  lemma {:induction false} BuiltHeader(l: string, rest: seq<string>, ok: bool) returns (all: seq<Block>)
    requires |l| >= 2 && IsText(TrimLeft(l[2..])) && AllRead(rest)
    ensures AllOk(all) && LoadedHeader(l, rest, ok).0 == FlatAll(all)
    decreases |rest|
  {
    hide *;
    var e := EndIndex(EndOfHeader, rest);
    NoBlocks();
    all := [];
    if e == |rest| {
      HeaderOpen(l, rest, ok);
    } else {
      AllReadBehind(rest, e + 1);
      ReadKept(EndOfHeader, rest);
      var body := Body(rest[..e]);
      if Titles(body).Some? {
        HeaderStep(l, rest, ok, e, Titles(body).value);
        all := BuiltBehind(TrimLeft(l[2..]), body, rest[e + 1..], ok);
      } else {
        HeaderBad(l, rest, ok);
        all := Built(rest[e + 1..], [], false);
      }
    }
  }

  lemma {:induction false} BuiltBehind(text: string, body: seq<string>, rest: seq<string>, ok: bool) returns (all: seq<Block>)
    requires IsText(text) && AllRead(rest) && AllKept(EndOfHeader, body) && Titles(body).Some?
    ensures AllOk(all)
    ensures Loaded(rest, [Item(HeaderStart, text)] + Titles(body).value + [Item(HeaderEnd, "")], ok).0 == FlatAll(all)
    decreases |rest|, 1
  {
    hide *;
    var header := Header(text, body);
    NoBlocks();
    HeaderBlock(text, body);
    OpenAppend([], header);
    assert [] + [header] == [header] && [] + Flat(header) == Flat(header);
    all := Built(rest, [header], ok);
  }

  lemma {:induction false} NoBlocks()
    ensures Open([]) && AllOk([]) && FlatAll([]) == []
  {
  }

  lemma {:induction false} HeaderOpen(l: string, rest: seq<string>, ok: bool)
    requires |l| >= 2 && EndIndex(EndOfHeader, rest) == |rest|
    ensures LoadedHeader(l, rest, ok) == ([], false)
  {
    hide EndIndex, Loaded, Titles, Body, TrimLeft;
  }

  lemma {:induction false} HeaderBad(l: string, rest: seq<string>, ok: bool)
    requires |l| >= 2 && EndIndex(EndOfHeader, rest) < |rest| && Titles(Body(rest[..EndIndex(EndOfHeader, rest)])) == None
    ensures LoadedHeader(l, rest, ok) == Loaded(rest[EndIndex(EndOfHeader, rest) + 1..], [], false)
  {
    hide EndIndex, Loaded, Titles, Body, TrimLeft;
  }

  lemma {:induction false} ReadKept(end: End, rest: seq<string>)
    requires AllRead(rest)
    ensures AllKept(end, Body(rest[..EndIndex(end, rest)]))
  {
    BodyUpToEnd(end, rest);
    hide IsRead, AllKept, EndIndex, Body;
  }

  lemma {:induction false} HeaderBlock(text: string, body: seq<string>)
    requires IsText(text) && AllKept(EndOfHeader, body) && Titles(body).Some?
    ensures Ok(Header(text, body)) && !Header(text, body).Discard?
    ensures Flat(Header(text, body)) == [Item(HeaderStart, text)] + Titles(body).value + [Item(HeaderEnd, "")]
  {
    hide IsText, AllKept, Titles;
  }

  lemma {:induction false} BuiltScope(rest: seq<string>, blocks: seq<Block>, ok: bool) returns (all: seq<Block>)
    requires AllRead(rest) && Open(blocks)
    ensures AllOk(all) && LoadedScope(rest, FlatAll(blocks), ok).0 == FlatAll(all)
    decreases |rest|
  {
    var e := EndIndex(EndOfScope, rest);
    hide *;
    OpenIsOk(blocks);
    ScopeCases(rest, FlatAll(blocks), ok);
    if e == |rest| {
      return blocks;
    }
    AllReadBehind(rest, e + 1);
    ReadKept(EndOfScope, rest);
    var body := Body(rest[..e]);
    if body == [] {
      all := Built(rest[e + 1..], blocks, ok);
    } else {
      ScopeBlock(body);
      OpenAppend(blocks, Scope(body));
      all := Built(rest[e + 1..], blocks + [Scope(body)], ok);
    }
  }

  lemma {:induction false} ScopeCases(rest: seq<string>, items: seq<Item>, ok: bool)
    ensures var e := EndIndex(EndOfScope, rest);
            LoadedScope(rest, items, ok) ==
            if e == |rest| then (items, false)
            else if Body(rest[..e]) == [] then Loaded(rest[e + 1..], items, ok)
            else Loaded(rest[e + 1..], items + [Item(ScopeCommentStart, WithBreaks(Body(rest[..e]))), Item(ScopeCommentEnd, "")], ok)
  {
    hide EndIndex, Loaded, Body, WithBreaks;
  }

  lemma {:induction false} ScopeBlock(body: seq<string>)
    requires body != [] && AllKept(EndOfScope, body)
    ensures Ok(Scope(body)) && !Scope(body).Header? && !Scope(body).Discard?
    ensures Flat(Scope(body)) == [Item(ScopeCommentStart, WithBreaks(body)), Item(ScopeCommentEnd, "")]
  {
    hide AllKept, WithBreaks;
  }

  lemma {:induction false} BuiltVersion(raw: string, rest: seq<string>, blocks: seq<Block>, ok: bool) returns (all: seq<Block>)
    requires IsRead(raw) && AllRead(rest) && Open(blocks) && VersionBrackets(Trimmed(raw)).Some?
    ensures VersionBrackets(Trimmed(raw)).value.1 <= |raw|
    ensures 8 < VersionBrackets(Trimmed(raw)).value.0 < VersionBrackets(Trimmed(raw)).value.1
    ensures AllOk(all)
    ensures LoadedVersion(VersionData(raw, VersionBrackets(Trimmed(raw)).value), rest, FlatAll(blocks), ok).0 == FlatAll(all)
    decreases |rest|
  {
    var e := EndIndex(EndOfVersion, rest);
    hide *;
    OpenIsOk(blocks);
    HashFirst(Trimmed(raw));
    VersionParts(raw);
    var b := VersionBrackets(Trimmed(raw)).value;
    var ver, time := raw[8..b.0], raw[b.0 + 1..b.1];
    var data := VersionData(raw, b);
    VersionCases(data, rest, FlatAll(blocks), ok);
    if e == |rest| {
      return blocks;
    }
    AllReadBehind(rest, e + 1);
    ReadKept(EndOfVersion, rest);
    var body := Body(rest[..e]);
    if Titles(body).Some? {
      VersionBlock(ver, time, body);
      OpenAppend(blocks, Version(ver, time, body));
      ThreeParts(FlatAll(blocks), Item(VersionStart, data), Titles(body).value, Item(VersionEnd, ""));
      all := Built(rest[e + 1..], blocks + [Version(ver, time, body)], ok);
    } else {
      all := Built(rest[e + 1..], blocks, false);
    }
  }

  lemma {:induction false} ThreeParts(items: seq<Item>, first: Item, middle: seq<Item>, last: Item)
    ensures items + ([first] + middle + [last]) == items + [first] + middle + [last]
  {
  }

  lemma {:induction false} VersionCases(data: string, rest: seq<string>, items: seq<Item>, ok: bool)
    ensures var e := EndIndex(EndOfVersion, rest);
            LoadedVersion(data, rest, items, ok) ==
            if e == |rest| then (items, false)
            else match Titles(Body(rest[..e]))
                 case None => Loaded(rest[e + 1..], items, false)
                 case Some(titles) =>
                   Loaded(rest[e + 1..], items + [Item(VersionStart, data)] + titles + [Item(VersionEnd, "")], ok)
  {
    hide EndIndex, Loaded, Titles, Body;
  }

  lemma {:induction false} VersionBlock(ver: string, time: string, body: seq<string>)
    requires ver != "" && time != "" && '(' !in ver && '\n' !in ver && '\n' !in time
    requires AllKept(EndOfVersion, body) && Titles(body).Some?
    ensures Ok(Version(ver, time, body)) && !Version(ver, time, body).Discard? && !Version(ver, time, body).Header?
    ensures Flat(Version(ver, time, body)) == [Item(VersionStart, Data(ver, time))] + Titles(body).value + [Item(VersionEnd, "")]
  {
    hide AllKept, Titles, Data;
  }

  // ---------------------------------------------------------------- terminators

  lemma {:induction false} NulFreeInside(s: string, a: nat, b: nat)
    requires NulFree(s) && a <= b <= |s|
    ensures NulFree(s[a..b])
  {
    assert forall c :: c in s[a..b] ==> c in s;
  }

  lemma {:induction false} NulFreeTrimmed(s: string)
    requires NulFree(s)
    ensures NulFree(Trimmed(s)) && NulFree(TrimLeft(s))
  {
    var a := Indented(s);
    NulFreeInside(s, a, a + |Trimmed(s)|);
    assert TrimLeft(s) == s[|s| - |TrimLeft(s)|..];
    NulFreeInside(s, |s| - |TrimLeft(s)|, |s|);
  }

  predicate AllNulFree(lines: seq<string>) {
    forall i :: 0 <= i < |lines| ==> NulFree(lines[i])
  }

  lemma {:induction false} BodyNulFree(lines: seq<string>)
    requires AllNulFree(lines)
    ensures AllNulFree(Body(lines))
  {
    hide *;
    if lines == [] {
      NoBody();
    } else {
      var n := |lines| - 1;
      EarlierNulFree(lines);
      BodyNulFree(lines[..n]);
      assert lines[..n + 1] == lines;
      BodyNext(lines, n);
      NulFreeTrimmed(lines[n]);
      OneMoreNulFree(Body(lines[..n]), Trimmed(lines[n]));
    }
  }

  lemma {:induction false} NoBody()
    ensures Body([]) == [] && AllNulFree([])
  {
  }

  lemma {:induction false} OneMoreNulFree(lines: seq<string>, l: string)
    requires AllNulFree(lines) && NulFree(l)
    ensures AllNulFree(lines + [l])
  {
    hide NulFree;
  }

  lemma {:induction false} Joining(a: string, b: string)
    requires NulFree(a) && NulFree(b)
    ensures NulFree(a + b) && NulFree(a + "\r\n" + b)
  {
  }

  lemma {:induction false} TitlesClean(body: seq<string>)
    requires AllNulFree(body) && Titles(body).Some?
    ensures Clean(Titles(body).value)
  {
    hide *;
    if body == [] {
      NoTitlesPrinted(body);
      NothingUnclean();
    } else {
      var n := |body| - 1;
      EarlierTitles(body);
      EarlierNulFree(body);
      TitlesClean(body[..n]);
      TitlesNext(body, n);
      assert body[..n + 1] == body;
      StillClean(Titles(body[..n]).value, body[n]);
    }
  }

  lemma {:induction false} NothingUnclean()
    ensures Clean([])
  {
  }

  lemma {:induction false} EarlierNulFree(body: seq<string>)
    requires body != [] && AllNulFree(body)
    ensures AllNulFree(body[..|body| - 1]) && NulFree(body[|body| - 1])
  {
    hide NulFree;
  }

  lemma {:induction false} StillClean(items: seq<Item>, l: string)
    requires Clean(items) && NulFree(l)
    ensures |l| >= 1 ==> Clean(items + [Item(TitleLevel1, Trimmed(l[1..]))])
    ensures |l| >= 2 ==> Clean(items + [Item(TitleLevel2, Trimmed(l[2..]))])
    ensures IsTitleLevel1(l) || IsTitleLevel2(l) ==> |l| >= 2
    ensures items != [] ==>
              Clean(items[..|items| - 1] + [Item(items[|items| - 1].kind, items[|items| - 1].data + "\r\n" + l)])
  {
    hide *;
    TitleLengths(l);
    if |l| >= 1 {
      NulFreeInside(l, 1, |l|);
      NulFreeTrimmed(l[1..]);
      CleanMore(items, Item(TitleLevel1, Trimmed(l[1..])));
    }
    if |l| >= 2 {
      NulFreeInside(l, 2, |l|);
      NulFreeTrimmed(l[2..]);
      CleanMore(items, Item(TitleLevel2, Trimmed(l[2..])));
    }
    if items != [] {
      var m := |items| - 1;
      assert items == items[..m] + [items[m]];
      CleanAppend(items[..m], [items[m]]);
      CleanOne(items[m]);
      Joining(items[m].data, l);
      CleanMore(items[..m], Item(items[m].kind, items[m].data + "\r\n" + l));
    }
  }

  lemma {:induction false} TitleLengths(l: string)
    ensures IsTitleLevel1(l) || IsTitleLevel2(l) ==> |l| >= 2
  {
  }

  lemma {:induction false} CleanOne(item: Item)
    requires Clean([item])
    ensures NulFree(item.data)
  {
    assert [item][0] == item;
  }

  lemma {:induction false} BreaksNulFree(lines: seq<string>)
    requires AllNulFree(lines)
    ensures NulFree(WithBreaks(lines))
  {
    if lines == [] {
    } else {
      var n := |lines| - 1;
      EarlierNulFree(lines);
      BreaksNulFree(lines[..n]);
      Joining(WithBreaks(lines[..n]), lines[n]);
      hide NulFree;
      NothingBefore(lines[n]);
    }
  }

  lemma {:induction false} NothingBefore(s: string)
    ensures "" + s == s
  {
  }

  lemma {:induction false} ConcatNulFree(lines: seq<string>)
    requires AllNulFree(lines)
    ensures NulFree(Concat(lines))
  {
    if lines == [] {
    } else {
      assert NulFree(lines[0]);
      NulFreeBehind(lines, 1);
      ConcatNulFree(lines[1..]);
      Joining(lines[0], Concat(lines[1..]));
    }
  }

  lemma {:induction false} NulFreeBehind(lines: seq<string>, k: nat)
    requires AllNulFree(lines) && k <= |lines|
    ensures AllNulFree(lines[k..]) && AllNulFree(lines[..k])
  {
    hide NulFree;
  }

  lemma {:induction false} CleanMore(items: seq<Item>, item: Item)
    requires Clean(items) && NulFree(item.data)
    ensures Clean(items + [item])
  {
    hide NulFree;
  }

  /** From text without terminators come entries without. */
  lemma {:induction false} LoadedClean(lines: seq<string>, items: seq<Item>, ok: bool)
    requires AllNulFree(lines) && Clean(items)
    ensures Clean(Loaded(lines, items, ok).0)
    decreases |lines|
  {
    hide *;
    if lines == [] {
      EndOfLines(items, ok);
      return;
    }
    var raw, l, rest := lines[0], Trimmed(lines[0]), lines[1..];
    NulFreeBehind(lines, 1);
    FirstNulFree(lines);
    NulFreeTrimmed(raw);
    assert lines == [raw] + rest;
    LineLoaded(raw, rest, items, ok);
    if IsEmptyLine(l) {
      LoadedClean(rest, items, ok);
    } else if items == [] && IsHeaderStart(l) {
      AtLeastTwo(l);
      HeaderClean(l, rest, ok);
    } else if IsDiscard(l) {
      ConcatNulFree(rest);
      CleanMore(items, Item(DiscardContext, Concat(rest)));
    } else if IsLineComment(l) {
      AtLeastTwo(l);
      NulFreeInside(l, 2, |l|);
      NulFreeTrimmed(l[2..]);
      CleanMore(items, Item(LineComment, TrimLeft(l[2..])));
      LoadedClean(rest, items + [Item(LineComment, TrimLeft(l[2..]))], ok);
    } else if IsScopeCommentStart(l) {
      ScopeClean(rest, items, ok);
    } else if VersionBrackets(l).Some? {
      HashFirst(l);
      DataNulFree(raw, VersionBrackets(l).value);
      VersionClean(VersionData(raw, VersionBrackets(l).value), rest, items, ok);
    } else {
      LoadedClean(rest, items, false);
    }
  }

  lemma {:induction false} FirstNulFree(lines: seq<string>)
    requires AllNulFree(lines) && lines != []
    ensures NulFree(lines[0])
  {
  }

  lemma {:induction false} AtLeastTwo(l: string)
    ensures IsHeaderStart(l) || IsLineComment(l) ==> |l| >= 2
  {
  }

  lemma {:induction false} DataNulFree(raw: string, b: (nat, nat))
    requires NulFree(raw) && 8 < b.0 < b.1 <= |raw|
    ensures NulFree(VersionData(raw, b))
  {
    NulFreeInside(raw, 8, b.0);
    NulFreeInside(raw, b.0 + 1, b.1);
  }

  lemma {:induction false} PartNulFree(end: End, rest: seq<string>)
    requires AllNulFree(rest) && EndIndex(end, rest) < |rest|
    ensures AllNulFree(Body(rest[..EndIndex(end, rest)])) && AllNulFree(rest[EndIndex(end, rest) + 1..])
  {
    hide *;
    NulFreeBehind(rest, EndIndex(end, rest));
    NulFreeBehind(rest, EndIndex(end, rest) + 1);
    BodyNulFree(rest[..EndIndex(end, rest)]);
  }

  lemma {:induction false} HeaderClean(l: string, rest: seq<string>, ok: bool)
    requires |l| >= 2 && NulFree(l) && AllNulFree(rest)
    ensures Clean(LoadedHeader(l, rest, ok).0)
    decreases |rest|
  {
    var e := EndIndex(EndOfHeader, rest);
    hide *;
    NothingUnclean();
    if e == |rest| {
      HeaderOpen(l, rest, ok);
      return;
    }
    PartNulFree(EndOfHeader, rest);
    var body := Body(rest[..e]);
    if Titles(body).Some? {
      HeaderStep(l, rest, ok, e, Titles(body).value);
      TitlesClean(body);
      NulFreeInside(l, 2, |l|);
      NulFreeTrimmed(l[2..]);
      CleanAround([], Item(HeaderStart, TrimLeft(l[2..])), Titles(body).value, Item(HeaderEnd, ""));
      LoadedClean(rest[e + 1..], [Item(HeaderStart, TrimLeft(l[2..]))] + Titles(body).value + [Item(HeaderEnd, "")], ok);
    } else {
      HeaderBad(l, rest, ok);
      LoadedClean(rest[e + 1..], [], false);
    }
  }

  lemma {:induction false} CleanAround(items: seq<Item>, first: Item, middle: seq<Item>, last: Item)
    requires Clean(items) && NulFree(first.data) && Clean(middle) && last.data == ""
    ensures Clean(items + [first] + middle + [last]) && Clean([first] + middle + [last])
  {
    hide *;
    EmptyNulFree(last.data);
    CleanMore(items, first);
    CleanAppend(items + [first], middle);
    CleanMore(items + [first] + middle, last);
    NothingUnclean();
    CleanMore([], first);
    assert [] + [first] == [first];
    CleanAppend([first], middle);
    CleanMore([first] + middle, last);
  }

  lemma {:induction false} EmptyNulFree(s: string)
    ensures s == "" ==> NulFree(s)
  {
  }

  lemma {:induction false} ScopeClean(rest: seq<string>, items: seq<Item>, ok: bool)
    requires AllNulFree(rest) && Clean(items)
    ensures Clean(LoadedScope(rest, items, ok).0)
    decreases |rest|
  {
    var e := EndIndex(EndOfScope, rest);
    hide *;
    ScopeCases(rest, items, ok);
    if e == |rest| {
      return;
    }
    PartNulFree(EndOfScope, rest);
    var body := Body(rest[..e]);
    if body == [] {
      LoadedClean(rest[e + 1..], items, ok);
    } else {
      BreaksNulFree(body);
      NothingUnclean();
      CleanAround(items, Item(ScopeCommentStart, WithBreaks(body)), [], Item(ScopeCommentEnd, ""));
      var first, last := Item(ScopeCommentStart, WithBreaks(body)), Item(ScopeCommentEnd, "");
      assert items + [first] + [] + [last] == items + [first, last];
      LoadedClean(rest[e + 1..], items + [first, last], ok);
    }
  }

  lemma {:induction false} VersionClean(data: string, rest: seq<string>, items: seq<Item>, ok: bool)
    requires NulFree(data) && AllNulFree(rest) && Clean(items)
    ensures Clean(LoadedVersion(data, rest, items, ok).0)
    decreases |rest|
  {
    var e := EndIndex(EndOfVersion, rest);
    hide *;
    VersionCases(data, rest, items, ok);
    if e == |rest| {
      return;
    }
    PartNulFree(EndOfVersion, rest);
    var body := Body(rest[..e]);
    if Titles(body).Some? {
      TitlesClean(body);
      CleanAround(items, Item(VersionStart, data), Titles(body).value, Item(VersionEnd, ""));
      LoadedClean(rest[e + 1..], items + [Item(VersionStart, data)] + Titles(body).value + [Item(VersionEnd, "")], ok);
    } else {
      LoadedClean(rest[e + 1..], items, false);
    }
  }

  lemma {:induction false} CStringNulFree(s: string)
    ensures NulFree(CString(s))
  {
    if s == [] || s[0] == '\0' {
    } else {
      CStringNulFree(s[1..]);
    }
  }

  lemma {:induction false} PrintNulFree(items: seq<Item>)
    ensures NulFree(Print(items))
  {
    if items == [] {
    } else {
      PieceNulFree(items[0]);
      PrintNulFree(items[1..]);
      hide PrintItem, NulFree;
      if !items[0].kind.DiscardContext? {
        Joining(PrintItem(items[0]), Print(items[1..]));
      }
    }
  }

  lemma {:induction false} PieceNulFree(item: Item)
    ensures NulFree(PrintItem(item))
  {
    CStringNulFree(item.data);
    hide CString;
    assert NulFree(EIGHT) && NulFree(RULE);
  }

  lemma {:induction false} LinesNulFree(text: string, pos: nat)
    requires pos <= |text| && NulFree(text)
    ensures AllNulFree(Lines(text, pos))
    decreases |text| - pos
  {
    LinesUnfold(text, pos);
    if pos == |text| {
    } else {
      NulFreeInside(text, pos, LineEnd(text, pos));
      LinesNulFree(text, LineEnd(text, pos));
      hide NulFree, LineEnd, Lines;
    }
  }

  // ---------------------------------------------------------------- results

  /** The entries a text loads as. */
  function Entries(text: string): seq<Item> {
    Loaded(Lines(text, 0), [], true).0
  }

  /** Every version datum reads back as it is. */
  predicate GoodVersions(items: seq<Item>) {
    forall i :: 0 <= i < |items| && items[i].kind.VersionStart? ==> GoodDatum(items[i].data)
  }

  lemma {:induction false} GoodAppend(a: seq<Item>, b: seq<Item>)
    ensures GoodVersions(a + b) <==> GoodVersions(a) && GoodVersions(b)
  {
    hide GoodDatum;
    var all := a + b;
    if GoodVersions(all) {
      forall i | 0 <= i < |a| && a[i].kind.VersionStart? ensures GoodDatum(a[i].data) {
        assert all[i] == a[i];
      }
      forall i | 0 <= i < |b| && b[i].kind.VersionStart? ensures GoodDatum(b[i].data) {
        assert all[|a| + i] == b[i];
      }
    }
  }

  lemma {:induction false} GoodTitled(first: Item, body: seq<string>, last: Item)
    requires Titles(body).Some? && !last.kind.VersionStart?
    ensures GoodVersions([first] + TitlesOf(body) + [last]) <==> (first.kind.VersionStart? ==> GoodDatum(first.data))
  {
    TitlesNoTail(body);
    hide GoodDatum, Titles, TitlesOf;
    GoodAppend([first] + TitlesOf(body), [last]);
    GoodAppend([first], TitlesOf(body));
    assert [first][0] == first;
  }

  /** What comes back of a block has good versions, and is the block when its own
      are. */
  lemma {:induction false} AgainGood(b: Block)
    requires Ok(b)
    ensures GoodVersions(Again(b))
    ensures GoodVersions(Flat(b)) ==> Again(b) == Flat(b) && OkAfter(b, true)
  {
    match b
    case Header(text, body) =>
      GoodTitled(Item(HeaderStart, text), body, Item(HeaderEnd, ""));
      hide Titles, AllKept, IsText, TitlesOf, GoodVersions;
    case Version(ver, time, body) =>
      AgainGoodVersion(ver, time, body);
    case _ =>
  }

  lemma {:induction false} AgainGoodVersion(ver: string, time: string, body: seq<string>)
    requires Ok(Version(ver, time, body))
    ensures GoodVersions(Again(Version(ver, time, body)))
    ensures GoodVersions(Flat(Version(ver, time, body))) ==>
              Again(Version(ver, time, body)) == Flat(Version(ver, time, body)) && OkAfter(Version(ver, time, body), true)
  {
    var l := VersionLine(ver, time);
    VersionLineBack(ver, time);
    DatumGood(ver, time);
    GoodTitled(Item(VersionStart, Data(ver, time)), body, Item(VersionEnd, ""));
    if VersionBrackets(l).Some? {
      BracketsGood(l);
      HashFirst(l);
      GoodTitled(Item(VersionStart, VersionData(l, VersionBrackets(l).value)), body, Item(VersionEnd, ""));
    }
    hide Titles, AllKept, TitlesOf, GoodDatum, VersionLine, Data, VersionBrackets, VersionData, GoodVersions;
    NoneGood();
  }

  lemma {:induction false} NoneGood()
    ensures GoodVersions([])
  {
  }

  lemma {:induction false} AgainAllGood(blocks: seq<Block>)
    requires forall i :: 0 <= i < |blocks| ==> Ok(blocks[i])
    ensures GoodVersions(AgainAll(blocks))
    ensures GoodVersions(FlatAll(blocks)) ==> AgainAll(blocks) == FlatAll(blocks) && AllOkAfter(blocks, true)
  {
    if blocks == [] {
    } else {
      hide Ok, GoodVersions, Again, Flat;
      AgainGood(blocks[0]);
      AgainAllGood(blocks[1..]);
      GoodAppend(Again(blocks[0]), AgainAll(blocks[1..]));
      GoodAppend(Flat(blocks[0]), FlatAll(blocks[1..]));
    }
  }

  /** Loading the dump of clean blocks. */
  lemma {:induction false} Reloaded(blocks: seq<Block>)
    requires AllOk(blocks) && Clean(FlatAll(blocks))
    ensures Loaded(Lines(Print(FlatAll(blocks)), 0), [], true) == (AgainAll(blocks), AllOkAfter(blocks, true))
  {
    hide *;
    PrintBlocks(blocks);
    LinesOfBlocks(blocks);
    LoadAll(blocks, [], true);
    NothingInFront(AgainAll(blocks));
  }

  lemma {:induction false} NothingInFront(items: seq<Item>)
    ensures [] + items == items
  {
  }

  lemma {:induction false} BlocksOf(text: string) returns (blocks: seq<Block>)
    ensures AllOk(blocks) && Entries(text) == FlatAll(blocks)
  {
    LinesRead(text, 0);
    assert AllRead(Lines(text, 0));
    hide *;
    NoBlocks();
    blocks := Built(Lines(text, 0), [], true);
    EntriesAre(text);
  }

  lemma {:induction false} EntriesAre(text: string)
    ensures Entries(text) == Loaded(Lines(text, 0), [], true).0
  {
  }

  /** Whatever text was loaded: loading the dump of its entries gives the same
      entries again exactly when none of them holds a terminator and all version
      data are good; and then the loader finds nothing to object to. */
  lemma {:induction false} RoundTripIff(text: string)
    ensures Entries(Print(Entries(text))) == Entries(text) <==> Clean(Entries(text)) && GoodVersions(Entries(text))
    ensures Clean(Entries(text)) && GoodVersions(Entries(text)) ==>
              Loaded(Lines(Print(Entries(text)), 0), [], true) == (Entries(text), true)
  {
    hide *;
    var items, dump := Entries(text), Print(Entries(text));
    var blocks := BlocksOf(text);
    EntriesAre(dump);
    if Clean(items) {
      Reloaded(blocks);
      AllOkEach(blocks);
      AgainAllGood(blocks);
    } else {
      PrintNulFree(items);
      LinesNulFree(dump, 0);
      NothingUnclean();
      LoadedClean(Lines(dump, 0), [], true);
    }
  }

  lemma {:induction false} AllOkEach(blocks: seq<Block>)
    requires AllOk(blocks)
    ensures forall i :: 0 <= i < |blocks| ==> Ok(blocks[i])
  {
    hide Ok;
  }

  /** It does fail: a version line behind two blanks, whose version ends with a
      closing bracket, loads as a datum that its dump does not give back. */
  lemma {:induction false} MisreadVersion()
    ensures var text := "  ########a)(x)########\r\n################\r\n";
            && Loaded(Lines(text, 0), [], true) == ([Item(VersionStart, "##())"), Item(VersionEnd, "")], true)
            && !GoodDatum("##())") && Entries(Print(Entries(text))) != Entries(text)
  {
    hide *;
    var l, rule := "########a)(x)########", "################";
    var first, second := "  " + l + "\r\n", rule + "\r\n";
    var text := "  ########a)(x)########\r\n################\r\n";
    MisreadText(text, first, second, l, rule);
    MisreadLines(first, second, text);
    MisreadLoaded(first, second, l, rule);
    BadDatum();
    RoundTripIff(text);
    EntriesAre(text);
    BadVersions("##())", [Item(VersionEnd, "")]);
    assert [Item(VersionStart, "##())")] + [Item(VersionEnd, "")] == [Item(VersionStart, "##())"), Item(VersionEnd, "")];
  }

  lemma {:induction false} MisreadText(text: string, first: string, second: string, l: string, rule: string)
    requires l == "########a)(x)########" && rule == "################"
    requires first == "  " + l + "\r\n" && second == rule + "\r\n"
    requires text == "  ########a)(x)########\r\n################\r\n"
    ensures first == "  ########a)(x)########\r\n" && second == "################\r\n" && text == first + second
  {
    hide *;
    assert first == "  ########a)(x)########\r\n";
    assert second == "################\r\n";
  }

  lemma {:induction false} BadVersions(datum: string, rest: seq<Item>)
    requires !GoodDatum(datum)
    ensures !GoodVersions([Item(VersionStart, datum)] + rest)
  {
    hide GoodDatum;
    var items := [Item(VersionStart, datum)] + rest;
    assert items[0].data == datum;
  }

  lemma {:induction false} BadDatum()
    ensures !GoodDatum("##())")
  {
    IndexIs("##())", '(', 0, 2);
    IndexIs("##())", ')', 2, 3);
  }

  lemma {:induction false} MisreadLines(first: string, second: string, text: string)
    requires first == "  ########a)(x)########\r\n" && second == "################\r\n" && text == first + second
    ensures Lines(text, 0) == [first, second]
  {
    assert IsRaw(first) && IsRaw(second);
    FirstLine(first, second);
    FirstLine(second, "");
    assert second + "" == second;
    assert Lines("", 0) == [];
    hide Lines, IsRaw;
    assert [second] + [] == [second] && [first] + [second] == [first, second];
  }

  lemma {:induction false} MisreadLoaded(first: string, second: string, l: string, rule: string)
    requires l == "########a)(x)########" && rule == "################"
    requires first == "  " + l + "\r\n" && second == rule + "\r\n"
    ensures Loaded([first, second], [], true) == ([Item(VersionStart, "##())"), Item(VersionEnd, "")], true)
  {
    hide *;
    MisreadTrimmed(first, second, l, rule);
    MisreadBrackets(l);
    MisreadData(first, l);
    HashFirst(l);
    HashKinds(l);
    var item := Item(VersionStart, "##())");
    assert [first] + [second] == [first, second];
    LineLoaded(first, [second], [], true);
    MisreadBody(second, rule);
    VersionStep("##())", [second], [], true, 0, []);
    assert [second][0 + 1..] == [] && [] + [item] + [] + [Item(VersionEnd, "")] == [item, Item(VersionEnd, "")];
    EndOfLines([item, Item(VersionEnd, "")], true);
  }

  lemma {:induction false} MisreadTrimmed(first: string, second: string, l: string, rule: string)
    requires l == "########a)(x)########" && rule == "################"
    requires first == "  " + l + "\r\n" && second == rule + "\r\n"
    ensures Trimmed(first) == l && Trimmed(second) == rule && IsVersionEnd(rule)
  {
    MisreadKinds(l, rule);
    hide *;
    TightLine(rule);
    TwoBlanks(l);
  }

  lemma {:induction false} MisreadKinds(l: string, rule: string)
    requires l == "########a)(x)########" && rule == "################"
    ensures Tight(l) && Tight(rule) && l != [] && IsVersionEnd(rule)
  {
  }

  lemma {:induction false} TwoBlanks(l: string)
    requires Tight(l) && l != []
    ensures Trimmed("  " + l + "\r\n") == l
  {
    hide *;
    var line := " " + l + "\r\n";
    TightLine(l);
    assert "  " + l + "\r\n" == " " + line;
    BlankFirst(line);
    TrimmedIs("  " + l + "\r\n");
    TrimmedIs(line);
  }

  lemma {:induction false} MisreadData(first: string, l: string)
    requires l == "########a)(x)########" && first == "  " + l + "\r\n"
    ensures VersionData(first, (10, 12)) == "##())"
  {
    assert first[8..10] == "##" && first[11..12] == ")";
  }

  lemma {:induction false} MisreadBody(second: string, rule: string)
    requires Trimmed(second) == rule && IsVersionEnd(rule)
    ensures EndIndex(EndOfVersion, [second]) == 0 && Titles(Body([second][..0])) == Some([])
  {
    hide Trimmed;
    assert [second][..0] == [];
    assert Body([]) == [];
  }

  lemma {:induction false} MisreadBrackets(l: string)
    requires l == "########a)(x)########"
    ensures VersionBrackets(l) == Some((10, 12))
  {
    IndexIs(l, '(', 8, 10);
    IndexIs(l, ')', 10, 12);
  }
}
