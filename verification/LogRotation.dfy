/** Log rotation of log/aimy-log.cpp: the numbered files of a log family are
    renamed so that the newest ones are 1, 2, 3, ... and the oldest are removed. */
module LogRotation {
  import opened Containers
  import opened CText

  /** The regular files of the log directory, by name. */
  type Files = map<string, string>

  // ---------------------------------------------------------------- names

  const TWO_TO_THE_32: nat := 0x1_0000_0000
  const ULONG_MAX: nat := 0xffff_ffff_ffff_ffff

  /** std::to_string of an index. */
  function Decimal(n: nat): string {
    if n < 10 then [Digit(n)] else Decimal(n / 10) + [Digit(n % 10)]
  }

  function Digit(d: nat): char
    requires d < 10
  {
    '0' + d as char
  }

  predicate IsDigit(c: char) {
    '0' <= c <= '9'
  }

  function Value(digits: string): nat
    requires forall i :: 0 <= i < |digits| ==> IsDigit(digits[i])
  {
    if digits == [] then 0
    else
      assert IsDigit(digits[|digits| - 1]);
      10 * Value(digits[..|digits| - 1]) + (digits[|digits| - 1] as nat - '0' as nat)
  }

  function CurrentName(pro: string): string {
    pro + ".log"
  }

  function Name(pro: string, k: nat): string {
    pro + "_" + Decimal(k) + ".log"
  }

  /** How many characters "%[^_]" takes. */
  function PrefixLength(s: string): (n: nat)
    ensures n <= |s|
  {
    if s == [] || s[0] == '_' then 0 else 1 + PrefixLength(s[1..])
  }

  function DigitRun(s: string): (n: nat)
    ensures n <= |s| && forall i :: 0 <= i < n ==> IsDigit(s[i])
  {
    if s == [] || !IsDigit(s[0]) then 0 else 1 + DigitRun(s[1..])
  }

  /** What "%u" stores: strtoul in 64 bits, kept to 32. */
  function ScanUnsigned(s: string): Option<nat> {
    var t := SkipSpaces(s);
    var signed := t != [] && (t[0] == '-' || t[0] == '+');
    var u := if signed then t[1..] else t;
    var n := DigitRun(u);
    if n == 0 then None
    else
      var v := Value(u[..n]);
      var w := if v > ULONG_MAX then ULONG_MAX else if signed && t[0] == '-' then (ULONG_MAX + 1 - v) % (ULONG_MAX + 1) else v;
      Some(w % TWO_TO_THE_32)
  }

  /** The index under which a file is taken for one of the family. */
  function IndexOf(pro: string, name: string): Option<nat> {
    if name == CurrentName(pro) then Some(0)
    else if |name| > 512 then None
    else
      var p := PrefixLength(name);
      if p == 0 || p == |name| then None
      else
        match ScanUnsigned(name[p + 1..])
        case None => None
        case Some(index) => if name[..p] != pro || index == 0 then None else Some(index)
  }

  lemma {:induction false} DecimalValue(n: nat)
    ensures Decimal(n) != [] && forall i :: 0 <= i < |Decimal(n)| ==> IsDigit(Decimal(n)[i])
    ensures Value(Decimal(n)) == n
  {
    if n < 10 {
      assert Value([]) == 0;
      assert [Digit(n)][..0] == [];
    } else {
      DecimalValue(n / 10);
      assert Decimal(n)[..|Decimal(n)| - 1] == Decimal(n / 10);
    }
  }

  lemma {:induction false} DigitRunStops(d: string, rest: string)
    requires forall i :: 0 <= i < |d| ==> IsDigit(d[i])
    requires rest == [] || !IsDigit(rest[0])
    ensures DigitRun(d + rest) == |d|
  {
    if d == [] {
      assert d + rest == rest;
    } else {
      DigitRunStops(d[1..], rest);
      assert (d + rest)[1..] == d[1..] + rest;
    }
  }

  lemma {:induction false} PrefixStops(a: string, b: string)
    ensures PrefixLength(a + "_" + b) == PrefixLength(a)
  {
    var s := a + "_" + b;
    if a == [] {
      assert s[0] == '_';
    } else {
      PrefixStops(a[1..], b);
      assert s[1..] == a[1..] + "_" + b;
    }
  }

  lemma {:induction false} ScanDecimal(k: nat)
    requires k < TWO_TO_THE_32
    ensures ScanUnsigned(Decimal(k) + ".log") == Some(k)
  {
    hide Decimal, DigitRun, Value;
    var s := Decimal(k) + ".log";
    DecimalValue(k);
    DigitRunStops(Decimal(k), ".log");
    assert IsDigit(s[0]) && SkipSpaces(s) == s;
    assert s[..|Decimal(k)|] == Decimal(k);
  }

  /** A file that rotation has named is read back under its own index, or, when
      the program's name is not one the scanner can read, not at all. */
  lemma {:induction false} NameIndex(pro: string, k: nat)
    requires 1 <= k < TWO_TO_THE_32
    ensures IndexOf(pro, Name(pro, k)) == None || IndexOf(pro, Name(pro, k)) == Some(k)
    ensures IndexOf(pro, Name(pro, k)).Some? <==> pro != [] && '_' !in pro && |Name(pro, k)| <= 512
  {
    var name := Name(pro, k);
    var rest := Decimal(k) + ".log";
    assert name == pro + "_" + rest;
    PrefixStops(pro, rest);
    PrefixWhole(pro);
    DecimalValue(k);
    assert |name| > |CurrentName(pro)|;
    if PrefixLength(name) == |pro| {
      assert name[|pro| + 1..] == rest;
      ScanDecimal(k);
    } else {
      assert |name[..PrefixLength(name)]| < |pro|;
    }
  }

  lemma {:induction false} PrefixWhole(s: string)
    ensures PrefixLength(s) == |s| <==> '_' !in s
  {
    if s == [] || s[0] == '_' {
    } else {
      PrefixWhole(s[1..]);
    }
  }

  /** Only files of this program are taken. */
  lemma {:induction false} TakenIsOurs(pro: string, x: string)
    requires IndexOf(pro, x).Some?
    ensures x == pro + ".log" || pro + "_" <= x
  {
    if x != CurrentName(pro) {
      PrefixBehind(x);
    }
  }

  /** Besides pro.log, the names that are taken: pro_, then a number that is not 0,
      whatever stands behind it. */
  lemma {:induction false} TakenIff(pro: string, x: string)
    requires x != pro + ".log"
    ensures IndexOf(pro, x).Some? <==>
            && pro != [] && '_' !in pro && |x| <= 512 && pro + "_" <= x
            && ScanUnsigned(x[|pro| + 1..]).Some? && ScanUnsigned(x[|pro| + 1..]).value != 0
    ensures IndexOf(pro, x).Some? ==> IndexOf(pro, x) == ScanUnsigned(x[|pro| + 1..])
  {
    hide ScanUnsigned;
    PrefixClear(x);
    if PrefixLength(x) < |x| {
      PrefixBehind(x);
    }
    if pro + "_" <= x {
      assert x == pro + "_" + x[|pro| + 1..];
      PrefixStops(pro, x[|pro| + 1..]);
      PrefixWhole(pro);
      assert x[..|pro|] == pro;
    }
  }

  lemma {:induction false} PrefixClear(s: string)
    ensures '_' !in s[..PrefixLength(s)]
  {
    if s != [] && s[0] != '_' {
      PrefixClear(s[1..]);
      assert s[..PrefixLength(s)] == [s[0]] + s[1..][..PrefixLength(s[1..])];
    }
  }

  /** Scanning digits, without and with a sign, keeps 32 bits of a number that
      fits 64. */
  lemma {:induction false} ScanDigits(d: string, rest: string)
    requires d != [] && forall i :: 0 <= i < |d| ==> IsDigit(d[i])
    requires rest == [] || !IsDigit(rest[0])
    ensures Value(d) < 0x1_0000_0000_0000_0000 ==>
              && ScanUnsigned(d + rest) == ScanUnsigned("+" + d + rest) == Some(Value(d) % 0x1_0000_0000)
              && ScanUnsigned("-" + d + rest) == Some((0x1_0000_0000_0000_0000 - Value(d)) % 0x1_0000_0000)
    ensures Value(d) >= 0x1_0000_0000_0000_0000 ==> ScanUnsigned(d + rest) == Some(0xffff_ffff)
  {
    hide Value, DigitRun;
    DigitRunStops(d, rest);
    var u := d + rest;
    assert u[..|d|] == d && u[0] == d[0];
    assert SkipSpaces(u) == u;
    Signed("+", u, d, rest);
    Signed("-", u, d, rest);
  }

  lemma {:induction false} Signed(sign: string, u: string, d: string, rest: string)
    requires (sign == "+" || sign == "-") && u == d + rest
    ensures SkipSpaces(sign + d + rest) == sign + d + rest && (sign + d + rest)[1..] == u
  {
  }

  lemma {:induction false} PrefixBehind(s: string)
    requires PrefixLength(s) < |s|
    ensures s[PrefixLength(s)] == '_'
  {
    if s[0] != '_' {
      PrefixBehind(s[1..]);
    }
  }

  /** Files of other programs: their names are neither pro.log nor start with pro_. */
  ghost predicate Foreign(pro: string, x: string) {
    x != pro + ".log" && !(pro + "_" <= x)
  }

  /** The files of other programs are as they were. */
  ghost predicate ForeignKept(pro: string, before: Files, now: Files) {
    forall x :: Foreign(pro, x) ==> (x in now <==> x in before) && (x in before ==> now[x] == before[x])
  }

  lemma {:induction false} NameIsOurs(pro: string, k: nat)
    ensures !Foreign(pro, Name(pro, k))
  {
    hide Decimal;
  }

  lemma {:induction false} ForeignSame(pro: string, files: Files)
    ensures ForeignKept(pro, files, files)
  {
  }

  lemma {:induction false} RenameKeeps(pro: string, before: Files, now: Files, from: string, to: string)
    requires ForeignKept(pro, before, now) && !Foreign(pro, from) && !Foreign(pro, to)
    ensures ForeignKept(pro, before, Renamed(now, from, to))
  {
    hide Foreign;
  }

  lemma {:induction false} RemoveKeeps(pro: string, before: Files, now: Files, name: string)
    requires ForeignKept(pro, before, now) && !Foreign(pro, name)
    ensures ForeignKept(pro, before, now - {name})
  {
    hide Foreign;
  }

  ghost predicate AllOurs(pro: string, names: seq<string>) {
    forall i :: 0 <= i < |names| ==> !Foreign(pro, names[i])
  }

  lemma {:induction false} PlayedKeeps(pro: string, before: Files, now: Files, names: seq<string>)
    requires ForeignKept(pro, before, now) && AllOurs(pro, names)
    ensures ForeignKept(pro, before, Played(now, RenameList(pro, names)))
  {
    hide Foreign, Name, Renamed, ForeignKept;
    if names != [] {
      var n := |names|;
      PlayedKeeps(pro, before, now, names[..n - 1]);
      assert names[..n - 1] + [names[n - 1]] == names;
      RenameListNext(pro, names[..n - 1], names[n - 1]);
      if names[n - 1] != Name(pro, n) {
        PlayedNext(now, RenameList(pro, names[..n - 1]), (names[n - 1], Name(pro, n)));
        NameIsOurs(pro, n);
        RenameKeeps(pro, before, Played(now, RenameList(pro, names[..n - 1])), names[n - 1], Name(pro, n));
      }
    }
  }

  lemma {:induction false} ForeignMeans(pro: string, before: Files, now: Files)
    requires ForeignKept(pro, before, now)
    ensures forall x: string :: x != pro + ".log" && !(pro + "_" <= x) ==>
              (x in now <==> x in before) && (x in now ==> now[x] == before[x])
  {
    forall x: string | x != pro + ".log" && !(pro + "_" <= x) ensures (x in now <==> x in before) && (x in now ==> now[x] == before[x]) {
      assert Foreign(pro, x);
    }
  }

  lemma {:induction false} FoundOurs(pro: string, files: Files, found: map<nat, string>)
    requires Scanned(pro, files, found)
    ensures forall i :: i in found ==> !Foreign(pro, found[i])
  {
    hide IndexOf;
    forall i | i in found ensures !Foreign(pro, found[i]) {
      TakenIsOurs(pro, found[i]);
    }
  }

  lemma {:induction false} NameInjective(pro: string, j: nat, k: nat)
    requires Name(pro, j) == Name(pro, k)
    ensures j == k
  {
    DecimalValue(j);
    DecimalValue(k);
    var n := |pro| + 1;
    assert Name(pro, j)[n..|Name(pro, j)| - 4] == Decimal(j);
    assert Name(pro, k)[n..|Name(pro, k)| - 4] == Decimal(k);
  }

  // ---------------------------------------------------------------- directory

  function Renamed(files: Files, from: string, to: string): Files {
    if from !in files || from == to then files else (files - {from})[to := files[from]]
  }

  class Directory {
    var files: Files
    // Some rename has landed on an existing file.
    ghost var overwritten: bool

    method Rename(from: string, to: string)
      modifies this
      ensures files == Renamed(old(files), from, to)
      ensures overwritten <==> old(overwritten) || (from in old(files) && from != to && to in old(files))
    {
      if from in files && from != to {
        overwritten := overwritten || to in files;
        files := (files - {from})[to := files[from]];
      }
    }

    method Remove(name: string)
      modifies this`files
      ensures files == old(files) - {name}
    {
      files := files - {name};
    }
  }

  /** Files that the scan found, by index. When several share an index it keeps
      one, whichever the directory lists first. */
  ghost predicate Scanned(pro: string, files: Files, found: map<nat, string>) {
    && (forall i :: i in found ==> found[i] in files && IndexOf(pro, found[i]) == Some(i))
    && (forall x :: x in files && IndexOf(pro, x).Some? ==> IndexOf(pro, x).value in found)
  }

  /** The files the rotation does not handle. */
  ghost function Others(files: Files, found: map<nat, string>): Files {
    files - found.Values
  }

  /** The directory holds others and, for each index in place, the contents with
      that index under the name place gives it. */
  ghost predicate Holds(files: Files, others: Files, place: map<nat, string>, contents: map<nat, string>) {
    && (forall x :: x in files <==> x in others || exists i :: i in place && place[i] == x)
    && (forall x :: x in others ==> files[x] == others[x] && forall i :: i in place ==> place[i] != x)
    && (forall i :: i in place ==> i in contents && files[place[i]] == contents[i])
    && (forall i, j :: i in place && j in place && i != j ==> place[i] != place[j])
  }

  lemma {:induction false} RenameHolds(files: Files, others: Files, place: map<nat, string>, contents: map<nat, string>, i: nat, to: string)
    requires Holds(files, others, place, contents) && i in place && to !in files
    ensures Holds(Renamed(files, place[i], to), others, place[i := to], contents)
  {
    var files', place' := Renamed(files, place[i], to), place[i := to];
    RenamedNames(files, others, place, contents, i, to);
    forall j | j in place' ensures j in contents && place'[j] in files' && files'[place'[j]] == contents[j] {
      assert j != i ==> place[j] != place[i] && place[j] != to;
    }
    hide Renamed;
    assert forall x :: x in others ==> x != to && x != place[i];
  }

  lemma {:induction false} RenamedNames(files: Files, others: Files, place: map<nat, string>, contents: map<nat, string>, i: nat, to: string)
    requires Holds(files, others, place, contents) && i in place && to !in files
    ensures var files', place' := Renamed(files, place[i], to), place[i := to];
            && (forall x :: x in files' <==> x in others || exists j :: j in place' && place'[j] == x)
            && (forall x :: x in others ==> files'[x] == others[x])
  {
    var files', place' := Renamed(files, place[i], to), place[i := to];
    forall x ensures x in files' <==> x in others || exists j :: j in place' && place'[j] == x {
      if x in files' && x !in others {
        if x == to {
          assert place'[i] == x;
        } else {
          var j :| j in place && place[j] == x;
          assert j in place' && place'[j] == x;
        }
      }
    }
  }

  lemma {:induction false} RemoveHolds(files: Files, others: Files, place: map<nat, string>, contents: map<nat, string>, i: nat)
    requires Holds(files, others, place, contents) && i in place
    ensures Holds(files - {place[i]}, others, place - {i}, contents)
  {
    var files', place' := files - {place[i]}, place - {i};
    forall x ensures x in files' <==> x in others || exists j :: j in place' && place'[j] == x {
      if x in files' && x !in others {
        var j :| j in place && place[j] == x;
        assert j in place' && place'[j] == x;
      }
    }
  }

  /** If x is a numbered name at all, its number is b. */
  ghost predicate Says(pro: string, x: string, b: nat) {
    forall k :: 1 <= k < TWO_TO_THE_32 && x == Name(pro, k) ==> k == b
  }

  lemma {:induction false} FoundSays(pro: string, x: string, i: nat)
    requires IndexOf(pro, x) == Some(i)
    ensures Says(pro, x, i)
  {
    forall k | 1 <= k < TWO_TO_THE_32 && x == Name(pro, k) ensures k == i {
      NameIndex(pro, k);
    }
  }

  lemma {:induction false} NameSays(pro: string, b: nat)
    ensures Says(pro, Name(pro, b), b)
  {
    forall k | 1 <= k < TWO_TO_THE_32 && Name(pro, b) == Name(pro, k) ensures k == b {
      NameInjective(pro, b, k);
    }
  }

  /** No file that is not handled has a numbered name. */
  ghost predicate NoneNumbered(pro: string, others: Files) {
    forall k :: 1 <= k < TWO_TO_THE_32 ==> Name(pro, k) !in others
  }

  /** File indices are 32 bits wide; this bound keeps the ones that rotation makes
      within them. */
  const MAX_FILES: nat := 0x7fff_ffff

  ghost predicate Found(files: Files, found: map<nat, string>) {
    forall i :: i in found ==> found[i] in files
  }

  /** What each index stands for. */
  ghost function Contents(files: Files, found: map<nat, string>): map<nat, string>
    requires Found(files, found)
  {
    map i | i in found :: files[found[i]]
  }

  /** How far the first loop has come: the indices it has handled, their files'
      names, the number each of these says, and where all files are. */
  datatype Plan = Plan(kept: seq<nat>, names: seq<string>, bases: seq<nat>, place: map<nat, string>)

  ghost function Next(plan: Plan, first: nat, name: string, base: nat): Plan {
    Plan(plan.kept + [first], plan.names + [name], plan.bases + [base], plan.place[first := name])
  }

  /** The handled indices are the least ones, in order. */
  ghost predicate KeptLeast(found: map<nat, string>, rest: map<nat, string>, kept: seq<nat>) {
    && (forall i :: i in rest <==> i in found && i !in kept)
    && (forall i :: i in rest ==> rest[i] == found[i])
    && (forall l :: 0 <= l < |kept| ==> kept[l] in found)
    && (forall l, m :: 0 <= l < m < |kept| ==> kept[l] < kept[m])
    && (forall l, i :: 0 <= l < |kept| && i in rest ==> kept[l] < i)
  }

  /** They stand at increasing numbers, none before its target. */
  ghost predicate Standing(pro: string, names: seq<string>, bases: seq<nat>) {
    && |names| == |bases|
    && (forall l, m :: 0 <= l < m < |bases| ==> bases[l] < bases[m])
    && (forall l :: 0 <= l < |bases| ==> bases[l] >= l + 1 && Says(pro, names[l], bases[l]))
  }

  ghost predicate Placed(found: map<nat, string>, rest: map<nat, string>, kept: seq<nat>, names: seq<string>, place: map<nat, string>) {
    && |names| == |kept| && place.Keys == found.Keys
    && (forall l :: 0 <= l < |kept| ==> kept[l] in place && place[kept[l]] == names[l])
    && (forall i :: i in rest ==> i in place && place[i] == found[i])
  }

  ghost predicate Planned(pro: string, found: map<nat, string>, rest: map<nat, string>, plan: Plan) {
    && KeptLeast(found, rest, plan.kept)
    && Standing(pro, plan.names, plan.bases)
    && Placed(found, rest, plan.kept, plan.names, plan.place)
  }

  /** The next number: one for each handled file and each number passed over. */
  ghost predicate Numbers(found: map<nat, string>, plan: Plan, passed: set<nat>, base: nat) {
    && base == 1 + |plan.kept| + |passed|
    && (forall x :: x in passed ==> x < base && x in found)
    && (forall b :: b in plan.bases ==> b < base)
  }

  /** The second loop's list: the files that are not at their targets yet. */
  ghost function RenameList(pro: string, names: seq<string>): seq<(string, string)> {
    if names == [] then []
    else
      var n := |names|;
      RenameList(pro, names[..n - 1]) + (if names[n - 1] == Name(pro, n) then [] else [(names[n - 1], Name(pro, n))])
  }

  lemma {:induction false} RenameListNext(pro: string, names: seq<string>, name: string)
    ensures RenameList(pro, names + [name])
         == if name == Name(pro, |names| + 1) then RenameList(pro, names)
            else RenameList(pro, names) + [(name, Name(pro, |names| + 1))]
  {
    assert (names + [name])[..|names|] == names;
  }

  lemma {:induction false} PlannedNothing(pro: string, found: map<nat, string>)
    ensures Planned(pro, found, found, Plan([], [], [], found)) && RenameList(pro, []) == []
    ensures Numbers(found, Plan([], [], [], found), {}, 1)
  {
  }

  lemma {:induction false} KeptNext(found: map<nat, string>, rest: map<nat, string>, kept: seq<nat>, first: nat)
    requires KeptLeast(found, rest, kept) && IsLeast(rest.Keys, first)
    ensures KeptLeast(found, rest - {first}, kept + [first])
  {
    forall i ensures i in rest - {first} <==> i in found && i !in kept + [first] {
    }
  }

  lemma {:induction false} StandingNext(pro: string, names: seq<string>, bases: seq<nat>, name: string, base: nat)
    requires Standing(pro, names, bases) && Says(pro, name, base)
    requires base >= |names| + 1 && forall b :: b in bases ==> b < base
    ensures Standing(pro, names + [name], bases + [base])
    ensures forall b :: b in bases + [base] ==> b <= base
  {
    hide Says;
    forall l | 0 <= l < |bases| ensures bases[l] < base {
      assert bases[l] in bases;
    }
  }

  lemma {:induction false} PlacedNext(found: map<nat, string>, rest: map<nat, string>, plan: Plan, first: nat, name: string)
    requires Placed(found, rest, plan.kept, plan.names, plan.place) && KeptLeast(found, rest, plan.kept) && first in rest
    ensures Placed(found, rest - {first}, plan.kept + [first], plan.names + [name], plan.place[first := name])
    ensures first !in plan.kept && plan.place[first] == rest[first]
  {
  }

  lemma {:induction false} PlannedNext(pro: string, found: map<nat, string>, rest: map<nat, string>, plan: Plan, first: nat, name: string, base: nat,
                    passed: set<nat>)
    requires Planned(pro, found, rest, plan) && IsLeast(rest.Keys, first) && Says(pro, name, base)
    requires Numbers(found, plan, passed, base)
    ensures Planned(pro, found, rest - {first}, Next(plan, first, name, base))
    ensures Numbers(found, Next(plan, first, name, base), passed, base + 1)
  {
    hide KeptLeast, Standing, Says;
    KeptNext(found, rest, plan.kept, first);
    StandingNext(pro, plan.names, plan.bases, name, base);
    PlacedNext(found, rest, plan, first, name);
  }

  lemma {:induction false} NextParts(pro: string, found: map<nat, string>, rest: map<nat, string>, plan: Plan, first: nat, name: string, base: nat)
    requires Planned(pro, found, rest, plan)
    ensures |Next(plan, first, name, base).kept| == |plan.kept| + 1 && |plan.names| == |plan.kept|
    ensures Next(plan, first, name, base).names == plan.names + [name]
    ensures Next(plan, first, name, base).place == plan.place[first := name]
  {
  }

  lemma {:induction false} RestIsFound(pro: string, found: map<nat, string>, rest: map<nat, string>, plan: Plan)
    requires Planned(pro, found, rest, plan)
    ensures forall i :: i in rest ==> i in found && rest[i] == found[i] && i in plan.place && plan.place[i] == rest[i]
  {
  }

  /** Numbers stay within 32 bits. */
  lemma {:induction false} NumberFits(found: map<nat, string>, plan: Plan, passed: set<nat>, base: nat)
    requires Numbers(found, plan, passed, base) && |plan.kept| < |found| < MAX_FILES
    ensures 1 <= base < TWO_TO_THE_32
  {
    assert passed <= found.Keys && |passed| + |found.Keys - passed| == |found.Keys|;
  }

  lemma {:induction false} Elsewhere(pro: string, files: Files, others: Files, place: map<nat, string>, contents: map<nat, string>, i: nat, base: nat)
    requires Holds(files, others, place, contents) && i in place && Says(pro, place[i], i)
    requires base != i && 1 <= base < TWO_TO_THE_32
    ensures place[i] in files && place[i] != Name(pro, base)
  {
  }

  /** A number that nobody holds is free. */
  lemma {:induction false} NumberFree(pro: string, files: Files, others: Files, found: map<nat, string>, rest: map<nat, string>, plan: Plan,
                   contents: map<nat, string>, base: nat)
    requires Planned(pro, found, rest, plan) && forall i :: i in found ==> Says(pro, found[i], i)
    requires Holds(files, others, plan.place, contents) && NoneNumbered(pro, others)
    requires 1 <= base < TWO_TO_THE_32 && base !in rest && forall b :: b in plan.bases ==> b < base
    ensures Name(pro, base) !in files
  {
    hide IndexOf, Name;
    if Name(pro, base) in files {
      var i :| i in plan.place && plan.place[i] == Name(pro, base);
      NumberAt(pro, found, rest, plan, i, base);
    }
  }

  lemma {:induction false} NumberAt(pro: string, found: map<nat, string>, rest: map<nat, string>, plan: Plan, i: nat, k: nat)
    requires Planned(pro, found, rest, plan) && forall j :: j in found ==> Says(pro, found[j], j)
    requires i in plan.place && plan.place[i] == Name(pro, k) && 1 <= k < TWO_TO_THE_32
    ensures k in rest || k in plan.bases
  {
    hide IndexOf, Name;
    if i in rest {
      assert Says(pro, found[i], i);
    } else {
      var l :| 0 <= l < |plan.kept| && plan.kept[l] == i;
      assert plan.bases[l] in plan.bases && Says(pro, plan.names[l], plan.bases[l]);
    }
  }

  lemma {:induction false} NoneForeign(pro: string)
    ensures AllOurs(pro, [])
  {
  }

  lemma {:induction false} OneMoreOurs(pro: string, names: seq<string>, name: string)
    requires AllOurs(pro, names) && !Foreign(pro, name)
    ensures AllOurs(pro, names + [name])
  {
    hide Foreign;
  }

  class AimyLogger {
    const proName: string
    const maxCount: nat
    const directory: Directory

    constructor (proName: string, maxCount: nat, directory: Directory)
      ensures this.proName == proName && this.maxCount == maxCount && this.directory == directory
    {
      this.proName, this.maxCount, this.directory := proName, maxCount, directory;
    }

    /** The loop over the directory. */
    method Scan() returns (logFiles: map<nat, string>)
      ensures Scanned(proName, directory.files, logFiles) && |logFiles| <= |directory.files|
    {
      logFiles := map[];
      var rest := directory.files.Keys;
      while rest != {}
        invariant forall x :: x in rest ==> x in directory.files
        invariant forall i :: i in logFiles ==> logFiles[i] in directory.files && IndexOf(proName, logFiles[i]) == Some(i)
        invariant forall x :: x in directory.files && x !in rest && IndexOf(proName, x).Some? ==>
                    IndexOf(proName, x).value in logFiles
        invariant |logFiles| + |rest| <= |directory.files|
        decreases |rest|
      {
        var name :| name in rest;
        rest := rest - {name};
        var index := IndexOf(proName, name);
        if index.Some? {
          logFiles := Emplaced(logFiles, index.value, name);
        }
      }
    }

    /** The inner loop and the rename of one turn: the first file that is left
        moves to a number that no file that is left has. */
    method MoveAside(rest: map<nat, string>, first: nat, base: nat, ghost passed: set<nat>)
      returns (newName: string, baseIndex: nat, ghost passed': set<nat>)
      requires first in rest && Says(proName, rest[first], first)
      requires forall x :: x in passed ==> x < base
      modifies directory
      ensures base <= baseIndex && baseIndex - base == |passed'| - |passed|
      ensures forall x :: x in passed' ==> x < baseIndex && (x in passed || x in rest)
      ensures base != first ==> baseIndex !in rest
      ensures !Foreign(proName, rest[first]) ==> !Foreign(proName, newName)
      ensures Says(proName, newName, baseIndex)
      ensures if base == first then newName == rest[first] && baseIndex == first else newName == Name(proName, baseIndex)
      ensures base == first ==> directory.files == old(directory.files) && directory.overwritten == old(directory.overwritten)
      ensures base != first ==> directory.files == Renamed(old(directory.files), rest[first], newName)
      ensures base != first ==>
                directory.overwritten == (old(directory.overwritten)
                  || (rest[first] in old(directory.files) && rest[first] != newName && newName in old(directory.files)))
    {
      newName, baseIndex, passed' := rest[first], base, passed;
      if baseIndex != first {
        while baseIndex in rest
          invariant base <= baseIndex && baseIndex - base == |passed'| - |passed|
          invariant forall x :: x in passed' ==> x < baseIndex && (x in passed || x in rest)
          decreases |rest.Keys - passed'|
        {
          assert rest.Keys - (passed' + {baseIndex}) == (rest.Keys - passed') - {baseIndex};
          passed' := passed' + {baseIndex};
          baseIndex := baseIndex + 1;
        }
        newName := Name(proName, baseIndex);
        NameSays(proName, baseIndex);
        NameIsOurs(proName, baseIndex);
        directory.Rename(rest[first], newName);
      }
    }

    /** As long as no rename has landed on an existing file, all contents are
        there; and none has if no file in the way has a numbered name. */
    ghost predicate Safe(others: Files, place: map<nat, string>, contents: map<nat, string>)
      reads directory
    {
      && (directory.overwritten || Holds(directory.files, others, place, contents))
      && (NoneNumbered(proName, others) ==> !directory.overwritten)
    }

    /** Moving the first file that is left, seen on the whole directory. */
    method MoveNext(rest: map<nat, string>, first: nat, base: nat, ghost passed: set<nat>,
                    ghost found: map<nat, string>, ghost others: Files, ghost plan: Plan, ghost contents: map<nat, string>, ghost before: Files)
      returns (newName: string, baseIndex: nat, ghost passed': set<nat>)
      requires Planned(proName, found, rest, plan) && first in rest && |plan.kept| < |found| < MAX_FILES
      requires forall i :: i in found ==> Says(proName, found[i], i)
      requires Numbers(found, plan, passed, base) && Safe(others, plan.place, contents)
      requires !Foreign(proName, rest[first]) && ForeignKept(proName, before, directory.files)
      modifies directory
      ensures !Foreign(proName, newName) && ForeignKept(proName, before, directory.files)
      ensures Says(proName, newName, baseIndex)
      ensures Numbers(found, plan, passed', baseIndex) && Safe(others, plan.place[first := newName], contents)
    {
      hide Planned, Holds, NoneNumbered, Says, Name, IndexOf, Foreign, ForeignKept;
      RestIsFound(proName, found, rest, plan);
      newName, baseIndex, passed' := MoveAside(rest, first, base, passed);
      RenameKeeps(proName, before, old(directory.files), rest[first], newName);
      NumberFits(found, plan, passed', baseIndex);
      assert base != first ==> baseIndex != first;
      if base == first {
        assert plan.place[first := newName] == plan.place;
      } else if Holds(old(directory.files), others, plan.place, contents) {
        Elsewhere(proName, old(directory.files), others, plan.place, contents, first, baseIndex);
        if newName !in old(directory.files) {
          RenameHolds(old(directory.files), others, plan.place, contents, first, newName);
        } else if NoneNumbered(proName, others) {
          NumberFree(proName, old(directory.files), others, found, rest, plan, contents, baseIndex);
        }
      }
    }

    /** The first loop: while there are files to keep, the first one that is left
        moves aside, and is noted when it is not under its target name yet. */
    method MoveApart(logFiles: map<nat, string>, reserve: nat, ghost others: Files, ghost contents: map<nat, string>, ghost before: Files)
      returns (rest: map<nat, string>, renameList: seq<(string, string)>, ghost plan: Plan)
      requires forall i :: i in logFiles ==> Says(proName, logFiles[i], i)
      requires Safe(others, logFiles, contents) && reserve <= |logFiles| < MAX_FILES
      requires (forall i :: i in logFiles ==> !Foreign(proName, logFiles[i])) && ForeignKept(proName, before, directory.files)
      modifies directory
      ensures AllOurs(proName, plan.names) && ForeignKept(proName, before, directory.files)
      ensures Planned(proName, logFiles, rest, plan) && renameList == RenameList(proName, plan.names)
      ensures |plan.kept| == reserve && Safe(others, plan.place, contents)
    {
      hide *;
      rest, renameList, plan := logFiles, [], Plan([], [], [], logFiles);
      var baseIndex, fileIndex, reserveCnt := 1, 1, reserve;
      ghost var passed: set<nat> := {};
      PlannedNothing(proName, logFiles);
      NoneForeign(proName);
      while rest != map[] && reserveCnt > 0
        invariant Planned(proName, logFiles, rest, plan) && renameList == RenameList(proName, plan.names)
        invariant fileIndex == |plan.kept| + 1 && |rest| + |plan.kept| == |logFiles| && reserve - |plan.kept| == reserveCnt >= 0
        invariant Numbers(logFiles, plan, passed, baseIndex) && Safe(others, plan.place, contents)
        invariant AllOurs(proName, plan.names) && ForeignKept(proName, before, directory.files)
      {
        RestIsFound(proName, logFiles, rest, plan);
        var first := First(rest.Keys);
        var newName;
        newName, baseIndex, passed := MoveNext(rest, first, baseIndex, passed, logFiles, others, plan, contents, before);
        var targetName := Name(proName, fileIndex);
        PlannedNext(proName, logFiles, rest, plan, first, newName, baseIndex, passed);
        NextParts(proName, logFiles, rest, plan, first, newName, baseIndex);
        RenameListNext(proName, plan.names, newName);
        OneMoreOurs(proName, plan.names, newName);
        if targetName != newName {
          renameList := renameList + [(newName, targetName)];
        }
        plan := Next(plan, first, newName, baseIndex);
        baseIndex, reserveCnt, fileIndex := baseIndex + 1, reserveCnt - 1, fileIndex + 1;
        rest := rest - {first};
      }
    }

    method RemoveOne(ghost i: nat, name: string, ghost others: Files, ghost place: map<nat, string>, ghost contents: map<nat, string>,
                     ghost before: Files)
      requires !Foreign(proName, name) && ForeignKept(proName, before, directory.files)
      requires Safe(others, place, contents) && i in place && place[i] == name
      modifies directory
      ensures Safe(others, place - {i}, contents) && ForeignKept(proName, before, directory.files)
    {
      hide Holds, NoneNumbered, Foreign, ForeignKept;
      RemoveKeeps(proName, before, directory.files, name);
      if Holds(directory.files, others, place, contents) {
        RemoveHolds(directory.files, others, place, contents, i);
      }
      directory.Remove(name);
    }

    /** The files that are left are removed. */
    method RemoveOlder(rest: map<nat, string>, ghost others: Files, ghost place: map<nat, string>, ghost contents: map<nat, string>,
                       ghost before: Files)
      returns (ghost place': map<nat, string>)
      requires Safe(others, place, contents) && forall i :: i in rest ==> i in place && place[i] == rest[i]
      requires (forall i :: i in rest ==> !Foreign(proName, rest[i])) && ForeignKept(proName, before, directory.files)
      modifies directory
      ensures ForeignKept(proName, before, directory.files)
      ensures Safe(others, place', contents)
      ensures forall i :: i in place' <==> i in place && i !in rest
      ensures forall i :: i in place' ==> place'[i] == place[i]
    {
      hide *;
      var left := rest.Keys;
      place' := place;
      while left != {}
        invariant Safe(others, place', contents) && ForeignKept(proName, before, directory.files)
        invariant forall i :: i in left ==> i in rest
        invariant forall i :: i in place' <==> i in place && (i in left || i !in rest)
        invariant forall i :: i in place' ==> place'[i] == place[i]
        decreases |left|
      {
        var i :| i in left;
        RemoveOne(i, rest[i], others, place', contents, before);
        place' := place' - {i};
        left := left - {i};
      }
    }

    /** The second loop: the noted files move to their targets. */
    method MoveToTargets(renameList: seq<(string, string)>)
      modifies directory
      ensures directory.files == Played(old(directory.files), renameList)
      ensures directory.overwritten <==> old(directory.overwritten) || !Smooth(old(directory.files), renameList)
    {
      for q := 0 to |renameList|
        invariant directory.files == Played(old(directory.files), renameList[..q])
        invariant directory.overwritten <==> old(directory.overwritten) || !Smooth(old(directory.files), renameList[..q])
      {
        assert renameList[..q + 1][..q] == renameList[..q];
        directory.Rename(renameList[q].0, renameList[q].1);
      }
      assert renameList[..|renameList|] == renameList;
    }

    /** rename_file. */
    method RenameFile() returns (ghost found: map<nat, string>, ghost kept: seq<nat>)
      requires !directory.overwritten && |directory.files| < MAX_FILES
      modifies directory
      ensures Scanned(proName, old(directory.files), found) && Newest(kept, found)
      ensures |kept| == if 0 < maxCount < |found| then maxCount else |found|
      ensures NoneNumbered(proName, Others(old(directory.files), found)) ==> !directory.overwritten
      ensures directory.overwritten || Rotated(proName, old(directory.files), found, kept, directory.files)
      ensures Orderly(proName, old(directory.files)) <==>
              !directory.overwritten && OnlyTargets(proName, |kept|, directory.files)
      ensures forall x: string :: x != proName + ".log" && !(proName + "_" <= x) ==>
                (x in directory.files <==> x in old(directory.files))
                && (x in directory.files ==> directory.files[x] == old(directory.files)[x])
    {
      hide *;
      ghost var before := directory.files;
      var logFiles := Scan();
      found := logFiles;
      Start(before, found);
      ghost var others, contents := Others(before, found), Contents(before, found);
      var reserve := if 0 < maxCount < |logFiles| then maxCount else |logFiles|;
      var rest, renameList;
      ghost var plan, place;
      FoundOurs(proName, before, found);
      ForeignSame(proName, before);
      rest, renameList, plan := MoveApart(logFiles, reserve, others, contents, before);
      kept := plan.kept;
      RestIsFound(proName, found, rest, plan);
      place := RemoveOlder(rest, others, plan.place, contents, before);
      Kept(proName, found, rest, plan, place);
      SafeHolds(others, place, contents);
      if Holds(directory.files, others, place, contents) {
        Finish(proName, before, found, plan.kept, plan.names, plan.bases, place, directory.files);
      }
      PlayedKeeps(proName, before, directory.files, plan.names);
      MoveToTargets(renameList);
      ForeignMeans(proName, before, directory.files);
      RotatesIff(proName, before, found, kept, directory.files, directory.overwritten);
    }

    lemma {:induction false} Start(before: Files, found: map<nat, string>)
      requires Scanned(proName, before, found) && directory.files == before && !directory.overwritten
      ensures Found(before, found) && forall i :: i in found ==> Says(proName, found[i], i)
      ensures Safe(Others(before, found), found, Contents(before, found))
    {
      hide NoneNumbered, IndexOf, Says;
      forall i | i in found ensures Says(proName, found[i], i) {
        FoundSays(proName, found[i], i);
      }
      forall x | x in before && x !in Others(before, found) ensures exists i :: i in found && found[i] == x {
      }
    }

    lemma {:induction false} SafeHolds(others: Files, place: map<nat, string>, contents: map<nat, string>)
      requires Safe(others, place, contents)
      ensures directory.overwritten || Holds(directory.files, others, place, contents)
      ensures NoneNumbered(proName, others) ==> !directory.overwritten
    {
    }
  }

  /** kept are the least of the indices found, in order: the newest files. */
  ghost predicate Newest(kept: seq<nat>, found: map<nat, string>) {
    && (forall l, m :: 0 <= l < m < |kept| ==> kept[l] < kept[m])
    && (forall l :: 0 <= l < |kept| ==> kept[l] in found)
    && (forall l, i :: 0 <= l < |kept| && i in found && i !in kept ==> kept[l] < i)
  }

  ghost predicate IsTarget(pro: string, n: nat, x: string) {
    exists k :: 1 <= k <= n && x == Name(pro, k)
  }

  /** The k-th newest file is name_k with its contents; the other files the scan
      did not take are as before, and there is nothing else. */
  ghost predicate Rotated(pro: string, before: Files, found: map<nat, string>, kept: seq<nat>, after: Files) {
    var others := Others(before, found);
    && (forall x :: x in after <==> x in others || IsTarget(pro, |kept|, x))
    && (forall x :: x in others ==> after[x] == before[x])
    && (forall l :: 0 <= l < |kept| ==> kept[l] in found && found[kept[l]] in before)
    && (forall k :: 1 <= k <= |kept| ==>
          Name(pro, k) !in others && Name(pro, k) in after && after[Name(pro, k)] == before[found[kept[k - 1]]])
  }

  // ---------------------------------------------------------------- the second loop

  ghost function Played(files: Files, renames: seq<(string, string)>): Files {
    if renames == [] then files
    else
      var last := renames[|renames| - 1];
      Renamed(Played(files, renames[..|renames| - 1]), last.0, last.1)
  }

  /** None of the renames lands on an existing file. */
  ghost predicate Smooth(files: Files, renames: seq<(string, string)>) {
    renames == []
    || (var last := renames[|renames| - 1];
        var before := Played(files, renames[..|renames| - 1]);
        Smooth(files, renames[..|renames| - 1]) && !(last.0 in before && last.0 != last.1 && last.1 in before))
  }

  /** Where the files are once the first j are at their targets. */
  ghost function PlaceAfter(pro: string, place: map<nat, string>, kept: seq<nat>, j: nat): map<nat, string>
    requires j <= |kept|
  {
    if j == 0 then place else PlaceAfter(pro, place, kept, j - 1)[kept[j - 1] := Name(pro, j)]
  }

  ghost predicate Only(kept: seq<nat>, names: seq<string>, place: map<nat, string>) {
    && |names| == |kept| && (forall l, m :: 0 <= l < m < |kept| ==> kept[l] < kept[m])
    && (forall l :: 0 <= l < |kept| ==> kept[l] in place && place[kept[l]] == names[l])
    && (forall i :: i in place ==> i in kept)
  }

  lemma {:induction false} PlaceAfterAt(pro: string, place: map<nat, string>, kept: seq<nat>, names: seq<string>, j: nat)
    requires Only(kept, names, place) && j <= |kept|
    ensures PlaceAfter(pro, place, kept, j).Keys == place.Keys
    ensures forall l :: 0 <= l < |kept| ==>
              && kept[l] in place
              && PlaceAfter(pro, place, kept, j)[kept[l]] == if l < j then Name(pro, l + 1) else names[l]
  {
    hide Name;
    if j == 0 {
    } else {
      assert kept[j - 1] in place;
      PlaceAfterAt(pro, place, kept, names, j - 1);
    }
  }

  lemma {:induction false} Occupant(files: Files, others: Files, place: map<nat, string>, contents: map<nat, string>, x: string) returns (i: nat)
    requires Holds(files, others, place, contents) && x in files && x !in others
    ensures i in place && place[i] == x
  {
    i :| i in place && place[i] == x;
  }

  lemma {:induction false} PositionOf(kept: seq<nat>, names: seq<string>, place: map<nat, string>, i: nat) returns (l: nat)
    requires Only(kept, names, place) && i in place
    ensures l < |kept| && kept[l] == i
  {
    l :| 0 <= l < |kept| && kept[l] == i;
  }

  lemma {:induction false} StandsAt(pro: string, names: seq<string>, bases: seq<nat>, l: nat, k: nat)
    requires Standing(pro, names, bases) && l < |names| && names[l] == Name(pro, k) && 1 <= k < TWO_TO_THE_32
    ensures l + 1 <= k
  {
    hide IndexOf, Name;
    assert Says(pro, names[l], bases[l]);
  }

  /** The target of a file that is not there yet is free when its turn comes. */
  lemma {:induction false} TargetFree(pro: string, files: Files, others: Files, place: map<nat, string>, kept: seq<nat>, names: seq<string>,
                   bases: seq<nat>, contents: map<nat, string>, j: nat)
    requires Only(kept, names, place) && Standing(pro, names, bases)
    requires j < |kept| == |names| && j + 1 < TWO_TO_THE_32 && names[j] != Name(pro, j + 1)
    requires Name(pro, j + 1) !in others && Holds(files, others, PlaceAfter(pro, place, kept, j), contents)
    ensures Name(pro, j + 1) !in files
  {
    hide *;
    PlaceAfterAt(pro, place, kept, names, j);
    if Name(pro, j + 1) in files {
      var i := Occupant(files, others, PlaceAfter(pro, place, kept, j), contents, Name(pro, j + 1));
      var l := PositionOf(kept, names, place, i);
      if l < j {
        NameInjective(pro, l + 1, j + 1);
      } else {
        StandsAt(pro, names, bases, l, j + 1);
      }
    }
  }

  lemma {:induction false} Settles(pro: string, files: Files, others: Files, place: map<nat, string>, kept: seq<nat>,
                                   names: seq<string>, bases: seq<nat>, contents: map<nat, string>, j: nat)
    requires Only(kept, names, place) && Standing(pro, names, bases) && j <= |kept| == |names| && j < MAX_FILES
    requires Holds(files, others, place, contents)
    ensures NoneNumbered(pro, others) ==> Smooth(files, RenameList(pro, names[..j]))
    ensures Smooth(files, RenameList(pro, names[..j])) ==>
              Holds(Played(files, RenameList(pro, names[..j])), others, PlaceAfter(pro, place, kept, j), contents)
  {
    hide *;
    if j == 0 {
      NotBegun(pro, files, place, kept);
      assert names[..0] == [];
    } else {
      Settles(pro, files, others, place, kept, names, bases, contents, j - 1);
      PlaceAfterAt(pro, place, kept, names, j - 1);
      assert names[..j] == names[..j - 1] + [names[j - 1]];
      RenameListNext(pro, names[..j - 1], names[j - 1]);
      if names[j - 1] == Name(pro, j) {
        InPlace(pro, place, kept, j);
      } else {
        SettleOne(pro, files, others, place, kept, names, bases, contents, j - 1, RenameList(pro, names[..j - 1]));
      }
    }
  }

  lemma {:induction false} Kept(pro: string, found: map<nat, string>, rest: map<nat, string>, plan: Plan, place: map<nat, string>)
    requires Planned(pro, found, rest, plan)
    requires forall i :: i in place <==> i in plan.place && i !in rest
    requires forall i :: i in place ==> place[i] == plan.place[i]
    ensures Newest(plan.kept, found) && Only(plan.kept, plan.names, place) && Standing(pro, plan.names, plan.bases)
  {
    hide Standing;
    forall l | 0 <= l < |plan.kept| ensures plan.kept[l] !in rest {
      assert plan.kept[l] in plan.kept;
    }
  }

  lemma {:induction false} Finish(pro: string, before: Files, found: map<nat, string>, kept: seq<nat>, names: seq<string>, bases: seq<nat>,
               place: map<nat, string>, now: Files)
    requires Found(before, found) && Newest(kept, found) && |found| < MAX_FILES
    requires Only(kept, names, place) && Standing(pro, names, bases)
    requires Holds(now, Others(before, found), place, Contents(before, found))
    ensures NoneNumbered(pro, Others(before, found)) ==> Smooth(now, RenameList(pro, names))
    ensures Smooth(now, RenameList(pro, names)) ==>
              Rotated(pro, before, found, kept, Played(now, RenameList(pro, names)))
  {
    hide *;
    KeptSize(kept, names, place, found);
    Settles(pro, now, Others(before, found), place, kept, names, bases, Contents(before, found), |kept|);
    assert names[..|names|] == names;
    PlaceAfterAt(pro, place, kept, names, |kept|);
    if Smooth(now, RenameList(pro, names)) {
      AllInPlace(pro, before, found, kept, names, place, Played(now, RenameList(pro, names)));
    }
  }

  lemma {:induction false} KeptSize(kept: seq<nat>, names: seq<string>, place: map<nat, string>, found: map<nat, string>)
    requires Newest(kept, found) && Only(kept, names, place)
    ensures |kept| == |names| && |kept| <= |found|
  {
    var s := set i | i in kept;
    Distinct(kept, s);
    assert s <= found.Keys && |s| + |found.Keys - s| == |found.Keys|;
  }

  lemma {:induction false} Distinct(kept: seq<nat>, s: set<nat>)
    requires (forall l, m :: 0 <= l < m < |kept| ==> kept[l] < kept[m]) && s == set i | i in kept
    ensures |s| == |kept|
  {
    if kept == [] {
    } else {
      var n := |kept| - 1;
      assert s == (set i | i in kept[..n]) + {kept[n]};
      Distinct(kept[..n], s - {kept[n]});
    }
  }

  lemma {:induction false} AllInPlace(pro: string, before: Files, found: map<nat, string>, kept: seq<nat>, names: seq<string>,
                   place: map<nat, string>, after: Files)
    requires Found(before, found) && Newest(kept, found) && Only(kept, names, place)
    requires Holds(after, Others(before, found), PlaceAfter(pro, place, kept, |kept|), Contents(before, found))
    ensures Rotated(pro, before, found, kept, after)
  {
    hide PlaceAfter, Holds, Name, Only;
    PlaceAfterAt(pro, place, kept, names, |kept|);
    var target := PlaceAfter(pro, place, kept, |kept|);
    Spelled(after, Others(before, found), target, Contents(before, found));
    Targets(pro, kept, names, place, target);
  }

  lemma {:induction false} Targets(pro: string, kept: seq<nat>, names: seq<string>, place: map<nat, string>, target: map<nat, string>)
    requires Only(kept, names, place) && target.Keys == place.Keys
    requires forall l :: 0 <= l < |kept| ==> kept[l] in place && target[kept[l]] == Name(pro, l + 1)
    ensures forall x :: IsTarget(pro, |kept|, x) <==> exists i :: i in target && target[i] == x
    ensures forall k :: 1 <= k <= |kept| ==> kept[k - 1] in target && target[kept[k - 1]] == Name(pro, k)
  {
    hide Name;
    forall x ensures IsTarget(pro, |kept|, x) <==> exists i :: i in target && target[i] == x {
      if IsTarget(pro, |kept|, x) {
        var k :| 1 <= k <= |kept| && x == Name(pro, k);
        assert target[kept[k - 1]] == x;
      }
    }
  }

  /** Holds, spelled out. */
  lemma {:induction false} Spelled(files: Files, others: Files, place: map<nat, string>, contents: map<nat, string>)
    requires Holds(files, others, place, contents)
    ensures forall x :: x in files <==> x in others || exists i :: i in place && place[i] == x
    ensures forall x :: x in others ==> x in files && files[x] == others[x]
    ensures forall i :: i in place ==> place[i] in files && place[i] !in others && i in contents && files[place[i]] == contents[i]
  {
  }

  lemma {:induction false} NotBegun(pro: string, files: Files, place: map<nat, string>, kept: seq<nat>)
    ensures RenameList(pro, []) == [] && Smooth(files, []) && Played(files, []) == files
    ensures PlaceAfter(pro, place, kept, 0) == place
  {
  }

  lemma {:induction false} InPlace(pro: string, place: map<nat, string>, kept: seq<nat>, j: nat)
    requires 0 < j <= |kept| && kept[j - 1] in PlaceAfter(pro, place, kept, j - 1)
    requires PlaceAfter(pro, place, kept, j - 1)[kept[j - 1]] == Name(pro, j)
    ensures PlaceAfter(pro, place, kept, j) == PlaceAfter(pro, place, kept, j - 1)
  {
    hide Name;
  }

  lemma {:induction false} SettleOne(pro: string, files: Files, others: Files, place: map<nat, string>, kept: seq<nat>,
                  names: seq<string>, bases: seq<nat>, contents: map<nat, string>, j: nat, list: seq<(string, string)>)
    requires Only(kept, names, place) && Standing(pro, names, bases) && j < |kept| == |names| && j + 1 < MAX_FILES
    requires names[j] != Name(pro, j + 1)
    requires NoneNumbered(pro, others) ==> Smooth(files, list)
    requires Smooth(files, list) ==> Holds(Played(files, list), others, PlaceAfter(pro, place, kept, j), contents)
    ensures NoneNumbered(pro, others) ==> Smooth(files, list + [(names[j], Name(pro, j + 1))])
    ensures Smooth(files, list + [(names[j], Name(pro, j + 1))]) ==>
              Holds(Played(files, list + [(names[j], Name(pro, j + 1))]), others, PlaceAfter(pro, place, kept, j + 1), contents)
  {
    var pair := (names[j], Name(pro, j + 1));
    var before, at := Played(files, list), PlaceAfter(pro, place, kept, j);
    hide *;
    PlaceAfterAt(pro, place, kept, names, j);
    PlaceAfterNext(pro, place, kept, j);
    PlayedNext(files, list, pair);
    if Smooth(files, list) {
      Present(before, others, at, contents, kept[j]);
      if pair.1 !in before {
        RenameHolds(before, others, at, contents, kept[j], pair.1);
      } else if NoneNumbered(pro, others) {
        NotInTheWay(pro, others, j + 1);
        TargetFree(pro, before, others, place, kept, names, bases, contents, j);
      }
    }
  }

  lemma {:induction false} PlayedNext(files: Files, list: seq<(string, string)>, pair: (string, string))
    ensures Played(files, list + [pair]) == Renamed(Played(files, list), pair.0, pair.1)
    ensures Smooth(files, list + [pair]) <==>
              Smooth(files, list) && !(pair.0 in Played(files, list) && pair.0 != pair.1 && pair.1 in Played(files, list))
  {
    assert (list + [pair])[..|list|] == list;
  }

  lemma {:induction false} PlaceAfterNext(pro: string, place: map<nat, string>, kept: seq<nat>, j: nat)
    requires j < |kept|
    ensures PlaceAfter(pro, place, kept, j + 1) == PlaceAfter(pro, place, kept, j)[kept[j] := Name(pro, j + 1)]
  {
  }

  lemma {:induction false} Present(files: Files, others: Files, place: map<nat, string>, contents: map<nat, string>, i: nat)
    requires Holds(files, others, place, contents) && i in place
    ensures place[i] in files
  {
  }

  lemma {:induction false} NotInTheWay(pro: string, others: Files, k: nat)
    requires NoneNumbered(pro, others) && 1 <= k < MAX_FILES
    ensures Name(pro, k) !in others && k < TWO_TO_THE_32
  {
  }

  // ---------------------------------------------------------------- results

  /** The files of a log family: those the scan takes and those that have a
      numbered name. */
  ghost predicate Family(pro: string, x: string) {
    IndexOf(pro, x).Some? || exists k :: 1 <= k < TWO_TO_THE_32 && x == Name(pro, k)
  }

  /** The scan takes the whole family, and no two files share an index. */
  ghost predicate Orderly(pro: string, files: Files) {
    && (forall x :: x in files && Family(pro, x) ==> IndexOf(pro, x).Some?)
    && (forall x, y :: x in files && y in files && IndexOf(pro, x).Some? && IndexOf(pro, x) == IndexOf(pro, y) ==> x == y)
  }

  /** The family is name_1 to name_n and nothing else. */
  ghost predicate OnlyTargets(pro: string, n: nat, files: Files) {
    forall x :: x in files && Family(pro, x) ==> IsTarget(pro, n, x)
  }

  /** Exactly from an orderly directory, rotation never lands on an existing file
      and leaves nothing but the targets in the family. */
  lemma {:induction false} RotatesIff(pro: string, before: Files, found: map<nat, string>, kept: seq<nat>, after: Files, overwritten: bool)
    requires Scanned(pro, before, found)
    requires NoneNumbered(pro, Others(before, found)) ==> !overwritten
    requires overwritten || Rotated(pro, before, found, kept, after)
    ensures Orderly(pro, before) <==> !overwritten && OnlyTargets(pro, |kept|, after)
  {
    hide IndexOf, Name, Rotated;
    if Orderly(pro, before) {
      OrderlyTaken(pro, before, found);
      RotatedFamily(pro, before, found, kept, after);
    }
    if !overwritten && OnlyTargets(pro, |kept|, after) {
      OthersKept(pro, before, found, kept, after);
    }
  }

  lemma {:induction false} OrderlyTaken(pro: string, before: Files, found: map<nat, string>)
    requires Scanned(pro, before, found) && Orderly(pro, before)
    ensures forall x :: x in Others(before, found) ==> !Family(pro, x)
    ensures NoneNumbered(pro, Others(before, found))
  {
    hide IndexOf, Name;
    forall x | x in before && Family(pro, x) ensures x in found.Values {
      assert found[IndexOf(pro, x).value] == x;
    }
    forall k | 1 <= k < TWO_TO_THE_32 ensures Name(pro, k) !in Others(before, found) {
      assert Family(pro, Name(pro, k));
    }
  }

  lemma {:induction false} RotatedFamily(pro: string, before: Files, found: map<nat, string>, kept: seq<nat>, after: Files)
    requires forall x :: x in Others(before, found) ==> !Family(pro, x)
    ensures Rotated(pro, before, found, kept, after) ==> OnlyTargets(pro, |kept|, after)
  {
    hide IndexOf, Name, Family;
  }

  lemma {:induction false} OthersKept(pro: string, before: Files, found: map<nat, string>, kept: seq<nat>, after: Files)
    requires Scanned(pro, before, found) && Rotated(pro, before, found, kept, after) && OnlyTargets(pro, |kept|, after)
    ensures Orderly(pro, before)
  {
    hide IndexOf, Name, Family;
    forall x | x in before && Family(pro, x) ensures x in found.Values {
      assert x in after <==> x in Others(before, found) || IsTarget(pro, |kept|, x);
    }
    hide Rotated, OnlyTargets;
    IndexedOnce(pro, before, found);
  }

  lemma {:induction false} IndexedOnce(pro: string, before: Files, found: map<nat, string>)
    requires Scanned(pro, before, found) && forall x :: x in before && Family(pro, x) ==> x in found.Values
    ensures Orderly(pro, before)
  {
    hide IndexOf, Name;
  }

  /** A program name with an underscore is never read back: rotation is right
      only as long as there is no numbered file. */
  lemma {:induction false} Underscored(pro: string, files: Files)
    requires '_' in pro
    ensures Orderly(pro, files) <==> NoneNumbered(pro, files)
  {
    forall x | IndexOf(pro, x).Some? ensures x == CurrentName(pro) {
      if x != CurrentName(pro) {
        PrefixClean(x);
      }
    }
    forall k | 1 <= k < TWO_TO_THE_32 ensures Name(pro, k) != CurrentName(pro) && Family(pro, Name(pro, k)) {
      assert |Name(pro, k)| > |CurrentName(pro)|;
    }
    hide Name, IndexOf;
  }

  lemma {:induction false} PrefixClean(s: string)
    ensures '_' !in s[..PrefixLength(s)]
  {
    if s == [] || s[0] == '_' {
    } else {
      PrefixClean(s[1..]);
      assert s[..PrefixLength(s)] == [s[0]] + s[1..][..PrefixLength(s[1..])];
    }
  }

  /** A usual one always is: then rotation is right exactly when no two files
      share an index. */
  lemma {:induction false} Readable(pro: string, files: Files)
    requires pro != [] && '_' !in pro && |pro| <= 255
    ensures Orderly(pro, files) <==>
            forall x, y :: x in files && y in files && IndexOf(pro, x).Some? && IndexOf(pro, x) == IndexOf(pro, y) ==> x == y
  {
    forall k | 1 <= k < TWO_TO_THE_32 ensures IndexOf(pro, Name(pro, k)).Some? {
      DecimalLength(k, 10, 10_000_000_000);
      NameIndex(pro, k);
    }
    hide IndexOf, Name;
  }

  /** As here: the scan does not take my_app_1.log, so what it finds cannot be
      rotated: my_app.log lands on it. */
  lemma {:induction false} UnderscoredOverwrites(latest: string, older: string, found: map<nat, string>, kept: seq<nat>, after: Files)
    requires var files := map["my_app.log" := latest, "my_app_1.log" := older];
             Scanned("my_app", files, found) && Newest(kept, found) && |kept| == |found|
    ensures var files := map["my_app.log" := latest, "my_app_1.log" := older];
            && found == map[0 := "my_app.log"]
            && !Orderly("my_app", files) && !Rotated("my_app", files, found, kept, after)
  {
    var pro, now, one := "my_app", "my_app.log", "my_app_1.log";
    var files := map[now := latest, one := older];
    UnderscoredNames(pro, now, one);
    assert files.Keys == {now, one};
    assert now != one;
    hide *;
    NotTaken(pro, files, found, now, one);
    NotRotated(pro, files, found, kept, now, one, after);
  }

  lemma {:induction false} UnderscoredNames(pro: string, now: string, one: string)
    requires pro == "my_app" && now == "my_app.log" && one == "my_app_1.log"
    ensures Name(pro, 1) == one && IndexOf(pro, now) == Some(0) && IndexOf(pro, one) == None
  {
    NameOne(pro);
    NameIndex(pro, 1);
    assert pro[2] == '_';
    assert CurrentName(pro) == now;
    hide Name;
  }

  lemma {:induction false} NotTaken(pro: string, files: Files, found: map<nat, string>, now: string, one: string)
    requires files.Keys == {now, one} && now != one && Scanned(pro, files, found)
    requires Name(pro, 1) == one && IndexOf(pro, now) == Some(0) && IndexOf(pro, one) == None
    ensures found == map[0 := now] && !Orderly(pro, files)
  {
    hide IndexOf, Name;
    assert Family(pro, one);
    assert forall i :: i in found ==> found[i] == now && i == 0;
    assert now in files && 0 in found;
  }

  lemma {:induction false} NotRotated(pro: string, files: Files, found: map<nat, string>, kept: seq<nat>, now: string, one: string, after: Files)
    requires files.Keys == {now, one} && now != one && found == map[0 := now] && |kept| == |found| && Name(pro, 1) == one
    ensures !Rotated(pro, files, found, kept, after)
  {
    hide Name;
    assert one in Others(files, found);
  }

  lemma {:induction false} NameOne(pro: string)
    ensures Name(pro, 1) == pro + "_1.log"
  {
  }

  /** And here: two names for the first file. */
  lemma {:induction false} IndexShared(latest: string, older: string)
    ensures !Orderly("app", map["app_1.log" := latest, "app_01.log" := older])
  {
    var pro, x, y := "app", "app_1.log", "app_01.log";
    assert |x| != |y| && "app" + "_" + "01.log" == y;
    var files := map[x := latest, y := older];
    hide *;
    SharedNames(pro, x);
    assert pro + "_" + "01.log" == y;
    BothTaken(pro, files, x, y);
  }

  lemma {:induction false} SharedNames(pro: string, x: string)
    requires pro == "app" && x == "app_1.log"
    ensures IndexOf(pro, x) == Some(1) && IndexOf(pro, pro + "_" + "01.log") == Some(1)
  {
    assert pro != [] && '_' !in pro && |pro| == 3 && pro + "_1.log" == x;
    hide *;
    ScanZeroOne();
    IndexRead(pro, "01.log", 1);
    NameOne(pro);
    NameIndex(pro, 1);
    var both := IndexOf(pro, x);
    assert both == Some(1);
  }

  lemma {:induction false} BothTaken(pro: string, files: Files, x: string, y: string)
    requires x in files && y in files && x != y && IndexOf(pro, x) == IndexOf(pro, y) == Some(1)
    ensures !Orderly(pro, files)
  {
    hide IndexOf;
  }

  lemma {:induction false} IndexRead(pro: string, rest: string, k: nat)
    requires pro != [] && '_' !in pro && |pro| + |rest| < 512 && |rest| > 3 && ScanUnsigned(rest) == Some(k) && k > 0
    ensures IndexOf(pro, pro + "_" + rest) == Some(k)
  {
    var name := pro + "_" + rest;
    PrefixStops(pro, rest);
    PrefixWhole(pro);
    assert |name| > |CurrentName(pro)| && name[..|pro|] == pro && name[|pro| + 1..] == rest;
    hide PrefixLength, ScanUnsigned;
  }

  lemma {:induction false} ScanZeroOne()
    ensures ScanUnsigned("01.log") == Some(1)
  {
    var s := "01.log";
    DigitRunStops("01", ".log");
    assert s == "01" + ".log" && s[..2] == "01" && SkipSpaces(s) == s;
    assert "01"[..1] == "0" && "0"[..0] == "";
    assert Value("") == 0 && Value("0") == 0 && Value("01") == 1;
  }

  lemma {:induction false} DecimalLength(n: nat, d: nat, bound: nat)
    requires d >= 1 && n < bound && bound == TenTo(d)
    ensures |Decimal(n)| <= d
  {
    assert TenTo(1) == 10;
    if n < 10 {
    } else {
      DecimalLength(n / 10, d - 1, TenTo(d - 1));
    }
  }

  function TenTo(d: nat): nat {
    if d == 0 then 1 else 10 * TenTo(d - 1)
  }
}
