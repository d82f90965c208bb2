/** The loader and the dumper of imp/changelog-format.cpp. */
module Changelog {
  import opened Containers

  datatype Kind =
    | HeaderStart
    | HeaderEnd
    | ScopeCommentStart
    | ScopeCommentEnd
    | LineComment
    | VersionStart
    | VersionEnd
    | TitleLevel1
    | TitleLevel2
    | DiscardContext

  /** An entry of contextMap, which numbers its entries in order. */
  datatype Item = Item(kind: Kind, data: string)

  // ---------------------------------------------------------------- lines

  predicate IsBlank(c: char) {
    c == ' ' || c == '\t'
  }

  function TrimLeft(s: string): (r: string)
    ensures |r| <= |s| && r == s[|s| - |r|..]
  {
    if s != [] && IsBlank(s[0]) then TrimLeft(s[1..]) else s
  }

  function TrimRight(s: string): (r: string)
    ensures |r| <= |s| && r == s[..|r|]
  {
    if s != [] && (IsBlank(s[|s| - 1]) || s[|s| - 1] == '\r' || s[|s| - 1] == '\n') then TrimRight(s[..|s| - 1]) else s
  }

  function Trimmed(s: string): string {
    TrimRight(TrimLeft(s))
  }

  method Trim(data: string) returns (r: string)
    ensures r == Trimmed(data)
  {
    var first := SkipBlanks(data);
    var len := SkipBack(data[first..]);
    r := data[first..][..len];
  }

  /** The first loop of trim. */
  method SkipBlanks(data: string) returns (first: nat)
    ensures first <= |data| && data[first..] == TrimLeft(data)
  {
    first := 0;
    while first < |data| && IsBlank(data[first])
      invariant first <= |data| && TrimLeft(data[first..]) == TrimLeft(data)
    {
      assert data[first..][1..] == data[first + 1..];
      first := first + 1;
    }
  }

  /** The second loop of trim. */
  method SkipBack(data: string) returns (len: nat)
    ensures len <= |data| && data[..len] == TrimRight(data)
  {
    len := |data|;
    assert data[..len] == data;
    while len > 0 && (IsBlank(data[len - 1]) || data[len - 1] == '\r' || data[len - 1] == '\n')
      invariant len <= |data| && TrimRight(data[..len]) == TrimRight(data)
    {
      assert data[..len][..len - 1] == data[..len - 1];
      len := len - 1;
    }
  }

  /** Where the line at pos ends, its line feed included. */
  function LineEnd(text: string, pos: nat): (r: nat)
    requires pos <= |text|
    ensures pos <= r <= |text| && (pos < |text| ==> pos < r)
    decreases |text| - pos
  {
    if pos == |text| then pos else if text[pos] == '\n' then pos + 1 else LineEnd(text, pos + 1)
  }

  /** The lines that getline reads from pos on. */
  function Lines(text: string, pos: nat): seq<string>
    requires pos <= |text|
    decreases |text| - pos
  {
    if pos == |text| then [] else [text[pos..LineEnd(text, pos)]] + Lines(text, LineEnd(text, pos))
  }

  // ---------------------------------------------------------------- recognisers

  predicate IsEmptyLine(l: string) {
    |l| == 0 || l[0] == '\r' || l[0] == '\n'
  }

  predicate IsLineComment(l: string) {
    |l| >= 2 && l[0] == '/' && l[1] == '/'
  }

  predicate IsScopeCommentStart(l: string) {
    |l| >= 2 && l[0] == '/' && l[1] == '*'
  }

  predicate IsScopeCommentEnd(l: string) {
    |l| >= 2 && l[0] == '*' && l[1] == '/'
  }

  predicate IsHeaderStart(l: string) {
    |l| >= 2 && l[0] == '$' && l[1] == '$'
  }

  /** Behind a shorter line there is white space or a terminator, no '$'. */
  predicate IsHeaderEnd(l: string) {
    |l| >= 4 && l[0] == '$' && l[1] == '$' && l[2] == '$' && l[3] == '$'
  }

  predicate Hashes(l: string, from: nat, n: nat) {
    from + n <= |l| && forall i :: from <= i < from + n ==> l[i] == '#'
  }

  predicate IsVersionEnd(l: string) {
    |l| >= 16 && Hashes(l, 0, 16)
  }

  predicate IsTitleLevel1(l: string) {
    |l| >= 2 && l[0] == '^'
  }

  predicate IsTitleLevel2(l: string) {
    |l| >= 2 && l[0] == '*' && l[1] == '*'
  }

  predicate IsTitleMultiLine(l: string) {
    |l| == 0 || !(l[0] == '$' || l[0] == '^' || l[0] == '*' || l[0] == '/' || l[0] == '#')
  }

  predicate IsDiscard(l: string) {
    |l| >= 1 && l[0] == '$'
  }

  /** The first c at or after from; the length when there is none. */
  function IndexOf(l: string, c: char, from: nat): (i: nat)
    requires from <= |l|
    ensures from <= i <= |l| && (i < |l| ==> l[i] == c) && forall j :: from <= j < i ==> l[j] != c
    decreases |l| - from
  {
    if from == |l| || l[from] == c then from else IndexOf(l, c, from + 1)
  }

  /** The two brackets of a version line, when l is one. */
  function VersionBrackets(l: string): (r: Option<(nat, nat)>)
    ensures r.Some? ==> 8 < r.value.0 && r.value.0 + 1 < r.value.1 && r.value.1 + 8 < |l|
  {
    if |l| < 20 || !Hashes(l, 0, 8) then None
    else
      var left := IndexOf(l, '(', 8);
      if left == |l| || left <= 8 then None
      else
        var right := IndexOf(l, ')', left);
        if right == |l| || right <= left + 1 || right + 8 >= |l| || !Hashes(l, right + 1, 8) then None
        else Some((left, right))
  }

  method IsVersionStart(l: string) returns (r: Option<(nat, nat)>)
    ensures r == VersionBrackets(l)
  {
    if |l| < 20 {
      return None;
    }
    var failed := HasNoHashes(l, 0, 8);
    if failed {
      return None;
    }
    var left := Find(l, '(', 8);
    if left <= 8 {
      return None;
    }
    var right := Find(l, ')', left);
    if right <= left + 1 || right + 8 >= |l| {
      return None;
    }
    failed := HasNoHashes(l, right + 1, 8);
    if failed {
      return None;
    }
    return Some((left, right));
  }

  method HasNoHashes(l: string, from: nat, n: nat) returns (failed: bool)
    requires from + n <= |l|
    ensures failed == !Hashes(l, from, n)
  {
    failed := false;
    for i := 0 to n
      invariant Hashes(l, from, i)
    {
      if l[from + i] != '#' {
        failed := true;
        break;
      }
    }
  }

  /** The search loops of isVersionStart: 0 when there is no c. */
  method Find(l: string, c: char, from: nat) returns (pos: nat)
    requires 0 < from <= |l|
    ensures pos == if IndexOf(l, c, from) == |l| then 0 else IndexOf(l, c, from)
  {
    pos := 0;
    for i := from to |l|
      invariant IndexOf(l, c, i) == IndexOf(l, c, from)
    {
      if l[i] == c {
        pos := i;
        return;
      }
    }
  }

  // ---------------------------------------------------------------- meaning of the loader

  /** The entries of a version or header body: titles, the second level only
      below the first, and lines that continue a title. */
  function Titles(body: seq<string>): Option<seq<Item>> {
    if body == [] then Some([])
    else
      var l := body[|body| - 1];
      match Titles(body[..|body| - 1])
      case None => None
      case Some(items) =>
        if IsTitleLevel1(l) then Some(items + [Item(TitleLevel1, Trimmed(l[1..]))])
        else if items == [] then None
        else if IsTitleLevel2(l) then Some(items + [Item(TitleLevel2, Trimmed(l[2..]))])
        else if IsTitleMultiLine(l) then
          var n := |items| - 1;
          Some(items[..n] + [Item(items[n].kind, items[n].data + "\r\n" + l)])
        else None
  }

  datatype End = EndOfHeader | EndOfScope | EndOfVersion

  predicate IsEnd(end: End, l: string) {
    match end
    case EndOfHeader => IsHeaderEnd(l)
    case EndOfScope => IsScopeCommentEnd(l)
    case EndOfVersion => IsVersionEnd(l)
  }

  /** The index of the line that ends a body; the number of lines if none does. */
  function EndIndex(end: End, lines: seq<string>): (i: nat)
    ensures i <= |lines|
  {
    if lines == [] || IsEnd(end, Trimmed(lines[0])) then 0 else 1 + EndIndex(end, lines[1..])
  }

  /** The lines that are not empty, trimmed. */
  function Body(lines: seq<string>): seq<string> {
    if lines == [] then []
    else
      var l := Trimmed(lines[|lines| - 1]);
      Body(lines[..|lines| - 1]) + (if IsEmptyLine(l) then [] else [l])
  }

  function Concat(lines: seq<string>): string {
    if lines == [] then [] else lines[0] + Concat(lines[1..])
  }

  /** Lines put together with line breaks in between. */
  function WithBreaks(lines: seq<string>): string {
    if lines == [] then []
    else
      var before := WithBreaks(lines[..|lines| - 1]);
      (if before == [] then [] else before + "\r\n") + lines[|lines| - 1]
  }

  /** What is between the brackets, and before them. The loader counts the
      positions in the trimmed line but takes the characters from the line as it
      was read. */
  function VersionData(raw: string, brackets: (nat, nat)): string
    requires 8 < brackets.0 < brackets.1 <= |raw|
  {
    raw[8..brackets.0] + "(" + raw[brackets.0 + 1..brackets.1] + ")"
  }

  lemma {:induction false} BracketsInRaw(raw: string)
    ensures VersionBrackets(Trimmed(raw)).Some? ==> VersionBrackets(Trimmed(raw)).value.1 <= |raw|
  {
  }

  /** loadFile over the lines that are left: the entries and whether all was well. */
  function Loaded(lines: seq<string>, items: seq<Item>, ok: bool): (seq<Item>, bool)
    decreases |lines|
  {
    if lines == [] then (items, ok)
    else
      var l, rest := Trimmed(lines[0]), lines[1..];
      if IsEmptyLine(l) then Loaded(rest, items, ok)
      else if items == [] && IsHeaderStart(l) then LoadedHeader(l, rest, ok)
      else if IsDiscard(l) then (items + [Item(DiscardContext, Concat(rest))], ok)
      else if IsLineComment(l) then Loaded(rest, items + [Item(LineComment, TrimLeft(l[2..]))], ok)
      else if IsScopeCommentStart(l) then LoadedScope(rest, items, ok)
      else
        match VersionBrackets(l)
        case None => Loaded(rest, items, false)
        case Some(b) =>
          BracketsInRaw(lines[0]);
          LoadedVersion(VersionData(lines[0], b), rest, items, ok)
  }

  function LoadedHeader(l: string, rest: seq<string>, ok: bool): (seq<Item>, bool)
    requires |l| >= 2
    decreases |rest|, 1
  {
    var e := EndIndex(EndOfHeader, rest);
    if e == |rest| then ([], false)
    else
      match Titles(Body(rest[..e]))
      case None => Loaded(rest[e + 1..], [], false)
      case Some(titles) =>
        Loaded(rest[e + 1..], [Item(HeaderStart, TrimLeft(l[2..]))] + titles + [Item(HeaderEnd, "")], ok)
  }

  function LoadedScope(rest: seq<string>, items: seq<Item>, ok: bool): (seq<Item>, bool)
    decreases |rest|, 1
  {
    var e := EndIndex(EndOfScope, rest);
    if e == |rest| then (items, false)
    else
      var body := Body(rest[..e]);
      Loaded(rest[e + 1..],
             if body == [] then items
             else items + [Item(ScopeCommentStart, WithBreaks(body)), Item(ScopeCommentEnd, "")], ok)
  }

  function LoadedVersion(data: string, rest: seq<string>, items: seq<Item>, ok: bool): (seq<Item>, bool)
    decreases |rest|, 1
  {
    var e := EndIndex(EndOfVersion, rest);
    if e == |rest| then (items, false)
    else
      match Titles(Body(rest[..e]))
      case None => Loaded(rest[e + 1..], items, false)
      case Some(titles) =>
        Loaded(rest[e + 1..], items + [Item(VersionStart, data)] + titles + [Item(VersionEnd, "")], ok)
  }

  // ---------------------------------------------------------------- meaning of the dumper

  /** "%s": the text up to a terminator. */
  function CString(s: string): (r: string)
    ensures r <= s
  {
    if s == [] || s[0] == '\0' then [] else [s[0]] + CString(s[1..])
  }

  const EIGHT: string := "########"
  const RULE: string := "################################"

  function PrintItem(item: Item): string {
    var s := CString(item.data);
    match item.kind
    case HeaderStart => "$$" + s + "\r\n"
    case HeaderEnd => "$$$$\r\n\r\n"
    case ScopeCommentStart => "/*\r\n" + s + "\r\n"
    case ScopeCommentEnd => "*/\r\n\r\n"
    case LineComment => "//" + s + "\r\n"
    case VersionStart => EIGHT + s + EIGHT + "\r\n"
    case VersionEnd => RULE + "\r\n\r\n"
    case TitleLevel1 => "^" + s + "\r\n"
    case TitleLevel2 => " **" + s + "\r\n"
    case DiscardContext => "$\r\n" + s
  }

  /** The dump stops behind a discarded tail. */
  function Print(items: seq<Item>): string {
    if items == [] then []
    else if items[0].kind.DiscardContext? then PrintItem(items[0])
    else PrintItem(items[0]) + Print(items[1..])
  }

  // ---------------------------------------------------------------- the code

  /** getline. */
  method GetLine(text: string, pos: nat) returns (line: string, next: nat)
    requires pos < |text|
    ensures pos < next <= |text| && Lines(text, pos) == [line] + Lines(text, next)
  {
    next := pos;
    while next < |text| && text[next] != '\n'
      invariant pos <= next <= |text| && LineEnd(text, next) == LineEnd(text, pos)
    {
      next := next + 1;
    }
    if next < |text| {
      next := next + 1;
    }
    line := text[pos..next];
  }

  /** The loops that read up to the end of a header, comment or version. */
  method ReadBody(text: string, from: nat, end: End) returns (found: bool, cachelist: seq<string>, next: nat)
    requires from <= |text|
    ensures var rest := Lines(text, from); var e := EndIndex(end, rest);
            && found == (e < |rest|)
            && (found ==> from < next <= |text| && cachelist == Body(rest[..e]) && Lines(text, next) == rest[e + 1..])
  {
    hide Trimmed, LineEnd;
    ghost var rest := Lines(text, from);
    ghost var n := 0;
    found, cachelist, next := false, [], from;
    assert rest[0..] == rest && rest[..0] == [];
    while next < |text|
      invariant from <= next <= |text| && n <= |rest| && rest[n..] == Lines(text, next) && (n > 0 ==> from < next)
      invariant EndIndex(end, rest) == n + EndIndex(end, rest[n..]) && cachelist == Body(rest[..n])
    {
      var line;
      line, next := GetLine(text, next);
      assert rest[n] == rest[n..][0] == line && rest[n + 1..] == rest[n..][1..] == Lines(text, next);
      var fix := Trim(line);
      if IsEnd(end, fix) {
        found := true;
        break;
      }
      BodyNext(rest, n);
      if !IsEmptyLine(fix) {
        cachelist := cachelist + [fix];
      }
      n := n + 1;
    }
  }

  lemma {:induction false} BodyNext(lines: seq<string>, n: nat)
    requires n < |lines|
    ensures Body(lines[..n + 1]) ==
            if IsEmptyLine(Trimmed(lines[n])) then Body(lines[..n]) else Body(lines[..n]) + [Trimmed(lines[n])]
  {
    hide Trimmed;
    assert lines[..n + 1][..n] == lines[..n];
  }

  /** Lines that continue the title just added. */
  method AppendLines(cacheList: seq<string>, from: nat, before: seq<Item>) returns (i: nat, items: seq<Item>)
    requires from <= |cacheList| && before != [] && Titles(cacheList[..from]) == Some(before)
    requires forall k :: 0 <= k < |cacheList| ==> cacheList[k] != []
    ensures from <= i <= |cacheList| && items != [] && Titles(cacheList[..i]) == Some(items)
    ensures i < |cacheList| ==> !IsTitleMultiLine(cacheList[i])
  {
    hide Titles, Trimmed;
    i, items := from, before;
    while i < |cacheList| && IsTitleMultiLine(cacheList[i])
      invariant from <= i <= |cacheList| && items != [] && Titles(cacheList[..i]) == Some(items)
    {
      TitlesNext(cacheList, i);
      var n := |items| - 1;
      items := items[..n] + [Item(items[n].kind, items[n].data + "\r\n" + cacheList[i])];
      i := i + 1;
    }
  }

  lemma {:induction false} TitlesNext(body: seq<string>, i: nat)
    requires i < |body| && Titles(body[..i]).Some?
    ensures var l, items := body[i], Titles(body[..i]).value;
            Titles(body[..i + 1]) ==
            if IsTitleLevel1(l) then Some(items + [Item(TitleLevel1, Trimmed(l[1..]))])
            else if items == [] then None
            else if IsTitleLevel2(l) then Some(items + [Item(TitleLevel2, Trimmed(l[2..]))])
            else if IsTitleMultiLine(l) then
              Some(items[..|items| - 1] + [Item(items[|items| - 1].kind, items[|items| - 1].data + "\r\n" + l)])
            else None
  {
    hide Trimmed;
    assert body[..i + 1][..i] == body[..i];
  }

  lemma {:induction false} NoTitles(body: seq<string>, i: nat)
    requires i <= |body| && Titles(body[..i]) == None
    ensures Titles(body) == None
    decreases |body|
  {
    if i == |body| {
      assert body[..i] == body;
    } else {
      assert body[..|body| - 1][..i] == body[..i];
      NoTitles(body[..|body| - 1], i);
    }
  }

  /** The loops over the lines of a body, the same for versions and headers. */
  method CheckTitles(cacheList: seq<string>) returns (r: Option<seq<Item>>)
    requires forall k :: 0 <= k < |cacheList| ==> cacheList[k] != []
    ensures r == Titles(cacheList)
  {
    hide Titles, Trimmed;
    var i := 0;
    var items: seq<Item> := [];
    NothingTitled();
    assert cacheList[..0] == [];
    while i < |cacheList|
      invariant 0 <= i <= |cacheList| && Titles(cacheList[..i]) == Some(items)
      invariant items == [] || i == |cacheList| || IsTitleLevel1(cacheList[i])
      decreases |cacheList| - i
    {
      TitlesNext(cacheList, i);
      if !IsTitleLevel1(cacheList[i]) {
        NoTitles(cacheList, i + 1);
        return None;
      }
      var title := Trim(cacheList[i][1..]);
      items := items + [Item(TitleLevel1, title)];
      i, items := AppendLines(cacheList, i + 1, items);
      while i < |cacheList| && !IsTitleLevel1(cacheList[i])
        invariant 0 <= i <= |cacheList| && Titles(cacheList[..i]) == Some(items) && items != []
        invariant i < |cacheList| ==> !IsTitleMultiLine(cacheList[i])
        decreases |cacheList| - i
      {
        TitlesNext(cacheList, i);
        if !IsTitleLevel2(cacheList[i]) {
          NoTitles(cacheList, i + 1);
          return None;
        }
        title := Trim(cacheList[i][2..]);
        items := items + [Item(TitleLevel2, title)];
        i, items := AppendLines(cacheList, i + 1, items);
      }
    }
    assert cacheList[..i] == cacheList;
    return Some(items);
  }

  lemma {:induction false} NothingTitled()
    ensures Titles([]) == Some([])
  {
  }

  lemma {:induction false} BodyFilled(lines: seq<string>)
    ensures forall k :: 0 <= k < |Body(lines)| ==> Body(lines)[k] != []
  {
    hide Trimmed;
    if lines == [] {
    } else {
      BodyFilled(lines[..|lines| - 1]);
    }
  }

  class ChangelogFormatter {
    var contextMap: seq<Item>

    constructor ()
      ensures contextMap == []
    {
      contextMap := [];
    }

    /** loadFile. */
    method LoadFile(text: string) returns (ok: bool)
      modifies this
      ensures (contextMap, ok) == Loaded(Lines(text, 0), [], true)
    {
      hide *;
      contextMap := [];
      ok := true;
      var pos := 0;
      while pos < |text|
        invariant pos <= |text| && Loaded(Lines(text, pos), contextMap, ok) == Loaded(Lines(text, 0), [], true)
      {
        var line, next := GetLine(text, pos);
        var goOn;
        goOn, ok, pos := HandleLine(text, line, next, ok);
        if !goOn {
          return;
        }
      }
      EndLoaded(text, contextMap, ok);
    }

    /** One turn of the main loop. */
    method HandleLine(text: string, line: string, next: nat, before: bool) returns (goOn: bool, ok: bool, pos: nat)
      requires next <= |text|
      modifies this
      ensures next <= pos <= |text|
      ensures Loaded([line] + Lines(text, next), old(contextMap), before)
           == if goOn then Loaded(Lines(text, pos), contextMap, ok) else (contextMap, ok)
    {
      goOn, ok, pos := true, before, next;
      LineLoaded(line, Lines(text, next), contextMap, before);
      hide Loaded, Trimmed, LoadedHeader, LoadedScope, LoadedVersion, Lines;
      var ret := Trim(line);
      if IsEmptyLine(ret) {
        return;
      }
      if |contextMap| == 0 && IsHeaderStart(ret) {
        goOn, ok, pos := LoadHeader(text, ret, next, before);
        return;
      }
      if IsDiscard(ret) {
        pos := LoadDiscard(text, next);
        goOn := false;
        return;
      }
      if IsLineComment(ret) {
        var at := SkipBlanks(ret[2..]);
        contextMap := contextMap + [Item(LineComment, ret[2..][at..])];
        return;
      }
      if IsScopeCommentStart(ret) {
        goOn, ok, pos := LoadScope(text, next, before);
        return;
      }
      var brackets := IsVersionStart(ret);
      if brackets.Some? {
        goOn, ok, pos := LoadVersion(text, VersionData(line, brackets.value), next, before);
        return;
      }
      ok := false;
    }

    method LoadHeader(text: string, ret: string, next: nat, before: bool) returns (goOn: bool, ok: bool, pos: nat)
      requires next <= |text| && |ret| >= 2 && contextMap == []
      modifies this
      ensures next <= pos <= |text|
      ensures LoadedHeader(ret, Lines(text, next), before)
           == if goOn then Loaded(Lines(text, pos), contextMap, ok) else (contextMap, ok)
    {
      hide Loaded, Lines, Titles, Trimmed, Body;
      var at := SkipBlanks(ret[2..]);
      var description := ret[2..][at..];
      var find, cachelist;
      find, cachelist, pos := ReadBody(text, next, EndOfHeader);
      if !find {
        return false, false, |text|;
      }
      BodyFilled(Lines(text, next)[..EndIndex(EndOfHeader, Lines(text, next))]);
      var titles := CheckTitles(cachelist);
      goOn, ok := true, before;
      if titles.Some? {
        assert contextMap + [Item(HeaderStart, description)] == [Item(HeaderStart, description)];
        contextMap := contextMap + [Item(HeaderStart, description)] + titles.value + [Item(HeaderEnd, "")];
      } else {
        ok := false;
      }
    }

    method LoadScope(text: string, next: nat, before: bool) returns (goOn: bool, ok: bool, pos: nat)
      requires next <= |text|
      modifies this
      ensures next <= pos <= |text|
      ensures LoadedScope(Lines(text, next), old(contextMap), before)
           == if goOn then Loaded(Lines(text, pos), contextMap, ok) else (contextMap, ok)
    {
      hide *;
      ScopeDefined(Lines(text, next), contextMap, before);
      var find, cachelist;
      find, cachelist, pos := ReadBody(text, next, EndOfScope);
      if !find {
        return false, false, |text|;
      }
      goOn, ok := true, before;
      if |cachelist| > 0 {
        var data := JoinLines(cachelist);
        contextMap := contextMap + [Item(ScopeCommentStart, data)];
        contextMap := contextMap + [Item(ScopeCommentEnd, "")];
        assert contextMap == old(contextMap) + [Item(ScopeCommentStart, data), Item(ScopeCommentEnd, "")];
      }
    }

    lemma {:induction false} ScopeDefined(rest: seq<string>, items: seq<Item>, ok: bool)
      ensures var e := EndIndex(EndOfScope, rest);
              LoadedScope(rest, items, ok)
              == if e == |rest| then (items, false)
                 else if Body(rest[..e]) == [] then Loaded(rest[e + 1..], items, ok)
                 else Loaded(rest[e + 1..],
                             items + [Item(ScopeCommentStart, WithBreaks(Body(rest[..e]))), Item(ScopeCommentEnd, "")], ok)
    {
      hide EndIndex, Body, Loaded, WithBreaks;
    }

    method LoadVersion(text: string, data: string, next: nat, before: bool) returns (goOn: bool, ok: bool, pos: nat)
      requires next <= |text|
      modifies this
      ensures next <= pos <= |text|
      ensures LoadedVersion(data, Lines(text, next), old(contextMap), before)
           == if goOn then Loaded(Lines(text, pos), contextMap, ok) else (contextMap, ok)
    {
      hide Loaded, Lines, Titles, Trimmed, Body;
      var find, cachelist;
      find, cachelist, pos := ReadBody(text, next, EndOfVersion);
      if !find {
        return false, false, |text|;
      }
      BodyFilled(Lines(text, next)[..EndIndex(EndOfVersion, Lines(text, next))]);
      var titles := CheckTitles(cachelist);
      goOn, ok := true, before;
      if titles.Some? {
        contextMap := contextMap + [Item(VersionStart, data)] + titles.value + [Item(VersionEnd, "")];
      } else {
        ok := false;
      }
    }

    /** The rest of the file becomes the discarded tail. */
    method LoadDiscard(text: string, next: nat) returns (pos: nat)
      requires next <= |text|
      modifies this
      ensures pos == |text| && contextMap == old(contextMap) + [Item(DiscardContext, Concat(Lines(text, next)))]
    {
      var data := "";
      pos := next;
      while pos < |text|
        invariant next <= pos <= |text| && data + Concat(Lines(text, pos)) == Concat(Lines(text, next))
        invariant contextMap == old(contextMap)
      {
        var line;
        line, pos := GetLine(text, pos);
        hide Lines;
        assert (data + line) + Concat(Lines(text, pos)) == data + (line + Concat(Lines(text, pos)));
        data := data + line;
      }
      NoLines(text);
      assert data + Concat(Lines(text, pos)) == data;
      contextMap := contextMap + [Item(DiscardContext, data)];
    }

    /** dumpToFile: what it writes. */
    method DumpToFile() returns (text: string)
      ensures text == Print(contextMap)
    {
      hide PrintItem, Print;
      text := "";
      assert contextMap[0..] == contextMap;
      for i := 0 to |contextMap|
        invariant text + Print(contextMap[i..]) == Print(contextMap)
      {
        PrintNext(contextMap, i);
        var piece := WriteItem(contextMap[i]);
        if contextMap[i].kind.DiscardContext? {
          text := text + piece;
          return;
        }
        OneMorePiece(text, piece, Print(contextMap[i + 1..]));
        text := text + piece;
      }
      NothingPrinted(text, contextMap[|contextMap|..]);
    }
  }

  lemma {:induction false} PrintNext(items: seq<Item>, i: nat)
    requires i < |items|
    ensures Print(items[i..]) ==
            if items[i].kind.DiscardContext? then PrintItem(items[i]) else PrintItem(items[i]) + Print(items[i + 1..])
  {
    hide PrintItem;
    assert items[i..][0] == items[i] && items[i..][1..] == items[i + 1..];
  }

  lemma {:induction false} NothingPrinted(text: string, items: seq<Item>)
    requires items == []
    ensures text + Print(items) == text
  {
  }

  lemma {:induction false} OneMorePiece(text: string, piece: string, rest: string)
    ensures (text + piece) + rest == text + (piece + rest)
  {
  }

  lemma {:induction false} NoLines(text: string)
    ensures Lines(text, |text|) == [] && Concat([]) == ""
  {
  }

  /** The cases of the dump. */
  method WriteItem(item: Item) returns (piece: string)
    ensures piece == PrintItem(item)
  {
    match item.kind
    case HeaderStart => piece := "$$" + CString(item.data) + "\r\n";
    case HeaderEnd => piece := "$$$$\r\n\r\n";
    case ScopeCommentStart => piece := "/*\r\n" + CString(item.data) + "\r\n";
    case ScopeCommentEnd => piece := "*/\r\n\r\n";
    case LineComment => piece := "//" + CString(item.data) + "\r\n";
    case VersionStart => piece := EIGHT + CString(item.data) + EIGHT + "\r\n";
    case VersionEnd => piece := RULE + "\r\n\r\n";
    case TitleLevel1 => piece := "^" + CString(item.data) + "\r\n";
    case TitleLevel2 => piece := " **" + CString(item.data) + "\r\n";
    case DiscardContext => piece := "$\r\n" + CString(item.data);
  }

  method JoinLines(lines: seq<string>) returns (data: string)
    ensures data == WithBreaks(lines)
  {
    data := "";
    assert lines[..0] == [];
    for i := 0 to |lines|
      invariant data == WithBreaks(lines[..i])
    {
      assert lines[..i + 1][..i] == lines[..i];
      if data != "" {
        data := data + "\r\n";
      }
      data := data + lines[i];
    }
    assert lines[..|lines|] == lines;
  }

  lemma {:induction false} EndLoaded(text: string, items: seq<Item>, ok: bool)
    ensures Loaded(Lines(text, |text|), items, ok) == (items, ok)
  {
  }

  /** One step of the loader. */
  lemma {:induction false} LineLoaded(line: string, rest: seq<string>, items: seq<Item>, ok: bool)
    ensures var l := Trimmed(line);
            VersionBrackets(l).Some? ==> VersionBrackets(l).value.1 <= |line|
    ensures var l := Trimmed(line);
            Loaded([line] + rest, items, ok) ==
            if IsEmptyLine(l) then Loaded(rest, items, ok)
            else if items == [] && IsHeaderStart(l) then LoadedHeader(l, rest, ok)
            else if IsDiscard(l) then (items + [Item(DiscardContext, Concat(rest))], ok)
            else if IsLineComment(l) then Loaded(rest, items + [Item(LineComment, TrimLeft(l[2..]))], ok)
            else if IsScopeCommentStart(l) then LoadedScope(rest, items, ok)
            else match VersionBrackets(l)
                 case None => Loaded(rest, items, false)
                 case Some(b) => LoadedVersion(VersionData(line, b), rest, items, ok)
  {
    BracketsInRaw(line);
    var lines := [line] + rest;
    assert lines[0] == line && lines[1..] == rest;
    hide Trimmed, VersionBrackets, LoadedHeader, LoadedScope, LoadedVersion, TrimLeft, Concat;
  }
}
