/** The pending connects of imp/network/itcp-server.cpp: the search for a token,
    and the maps between tokens, descriptors and tasks. */
module Connector {
  import opened Containers

  const TWO_TO_THE_32: nat := 0x1_0000_0000
  const TRIES: nat := 1000
  /** While no more connects than this are pending, the search finds a token, */
  const SAFE_PENDING: nat := 998
  /** and up to this many it at least hands out none that is in use. */
  const HARMLESS_PENDING: nat := 1000

  // ---------------------------------------------------------------- the tokens tried

  /** What the random device answers in the last tries. */
  predicate IsRandom(random: seq<nat>) {
    |random| == 101 && forall i :: 0 <= i < |random| ==> 1 <= random[i] <= 100
  }

  /** How far the search moves on after try k. */
  function Stride(random: seq<nat>, k: nat): (s: nat)
    requires IsRandom(random) && k < TRIES
    ensures 1 <= s <= 200
  {
    if k < 99 then 1 else if k < 499 then 100 else if k < 899 then 200 else random[k - 899]
  }

  /** Where the search stands before try k, without the wrap at 2^32, */
  function Raw(nextToken: nat, random: seq<nat>, k: nat): nat
    requires IsRandom(random) && k <= TRIES
    decreases k, 0
  {
    if k == 0 then nextToken else Position(nextToken, random, k - 1) + Stride(random, k - 1)
  }

  /** and where try k is: 0 is left out. */
  function Position(nextToken: nat, random: seq<nat>, k: nat): nat
    requires IsRandom(random) && k < TRIES
    decreases k, 1
  {
    var raw := Raw(nextToken, random, k);
    if raw % TWO_TO_THE_32 == 0 then raw + 1 else raw
  }

  /** The token of try k. */
  function Tried(nextToken: nat, random: seq<nat>, k: nat): nat
    requires IsRandom(random) && k < TRIES
  {
    Position(nextToken, random, k) % TWO_TO_THE_32
  }

  /** The token after the last try, which is not tried. */
  function Untried(nextToken: nat, random: seq<nat>): nat
    requires IsRandom(random)
  {
    Raw(nextToken, random, TRIES) % TWO_TO_THE_32
  }

  lemma {:induction false} PositionsAscend(nextToken: nat, random: seq<nat>, j: nat, k: nat)
    requires IsRandom(random) && j <= k < TRIES
    ensures Position(nextToken, random, j) + (k - j) <= Position(nextToken, random, k)
         <= Position(nextToken, random, j) + 201 * (k - j)
    decreases k
  {
    hide Stride;
    if j == k {
    } else {
      PositionsAscend(nextToken, random, j, k - 1);
    }
  }

  /** All tokens tried are different, and so is the next one. */
  lemma {:induction false} TriedDiffer(nextToken: nat, random: seq<nat>, j: nat, k: nat)
    requires IsRandom(random) && j < k < TRIES
    ensures Tried(nextToken, random, j) != Tried(nextToken, random, k)
  {
    PositionsAscend(nextToken, random, j, k);
    hide Position;
    Residues(Position(nextToken, random, j), Position(nextToken, random, k));
  }

  lemma {:induction false} UntriedDiffers(nextToken: nat, random: seq<nat>, j: nat)
    requires IsRandom(random) && j < TRIES
    ensures Tried(nextToken, random, j) != Untried(nextToken, random)
  {
    PositionsAscend(nextToken, random, j, TRIES - 1);
    hide Position, Stride;
    Residues(Position(nextToken, random, j), Raw(nextToken, random, TRIES));
  }

  lemma {:induction false} Residues(a: nat, b: nat)
    requires a < b < a + TWO_TO_THE_32
    ensures a % TWO_TO_THE_32 != b % TWO_TO_THE_32
  {
  }

  ghost function TriedSet(nextToken: nat, random: seq<nat>, k: nat): set<nat>
    requires IsRandom(random) && k <= TRIES
  {
    set j | 0 <= j < k :: Tried(nextToken, random, j)
  }

  lemma {:induction false} TriedCount(nextToken: nat, random: seq<nat>, k: nat)
    requires IsRandom(random) && k <= TRIES
    ensures |TriedSet(nextToken, random, k)| == k
  {
    hide Tried;
    if k == 0 {
    } else {
      TriedCount(nextToken, random, k - 1);
      forall j | 0 <= j < k - 1 ensures Tried(nextToken, random, j) != Tried(nextToken, random, k - 1) {
        TriedDiffer(nextToken, random, j, k - 1);
      }
      assert TriedSet(nextToken, random, k) == TriedSet(nextToken, random, k - 1) + {Tried(nextToken, random, k - 1)};
    }
  }

  lemma {:induction false} CountUsed(s: set<nat>, used: set<nat>)
    requires forall x :: x in s ==> x in used
    ensures |s| <= |used|
  {
    assert s <= used && |s| + |used - s| == |used|;
  }

  // ---------------------------------------------------------------- the search

  function Add32(a: nat, b: nat): nat {
    (a + b) % TWO_TO_THE_32
  }

  /** The first k tokens tried are in use. */
  ghost predicate UsedUpTo(used: set<nat>, nextToken: nat, random: seq<nat>, k: nat)
    requires IsRandom(random) && k <= TRIES
  {
    forall j :: 0 <= j < k ==> Tried(nextToken, random, j) in used
  }

  lemma {:induction false} ManyUsed(used: set<nat>, nextToken: nat, random: seq<nat>, k: nat)
    requires IsRandom(random) && k <= TRIES && UsedUpTo(used, nextToken, random, k)
    ensures k <= |used|
    ensures k == TRIES && Untried(nextToken, random) in used ==> TRIES + 1 <= |used|
  {
    TriedCount(nextToken, random, k);
    hide Tried;
    CountUsed(TriedSet(nextToken, random, k), used);
    if k == TRIES && Untried(nextToken, random) in used {
      forall j | 0 <= j < k ensures Tried(nextToken, random, j) != Untried(nextToken, random) {
        UntriedDiffers(nextToken, random, j);
      }
      hide Untried;
      CountUsed(TriedSet(nextToken, random, k) + {Untried(nextToken, random)}, used);
    }
  }

  /** The token search of activeConnect. The counter is unsigned: when the tries
      run out it wraps past 0, and the next token is handed out without a look.
      When only the last try finds a token, the counter reads 0 and the token is
      thrown away. */
  method FindToken(used: set<nat>, nextToken: nat, random: seq<nat>) returns (token: nat)
    requires nextToken < TWO_TO_THE_32 && IsRandom(random)
    ensures token < TWO_TO_THE_32
    ensures token != 0 && token in used <==>
            UsedUpTo(used, nextToken, random, TRIES) && Untried(nextToken, random) != 0 && Untried(nextToken, random) in used
    ensures token == 0 <==>
            UsedUpTo(used, nextToken, random, TRIES - 1)
            && (UsedUpTo(used, nextToken, random, TRIES) ==> Untried(nextToken, random) == 0)
    ensures |used| <= SAFE_PENDING ==> token != 0 && token !in used
    ensures |used| <= HARMLESS_PENDING ==> token == 0 || token !in used
  {
    var maxTryTimes := TRIES;
    token := nextToken;
    ghost var k := 0;
    hide UsedUpTo, Position;
    assert UsedUpTo(used, nextToken, random, 0) by {
      NoneTried(used, nextToken, random);
    }
    while true
      invariant 0 <= k <= TRIES && maxTryTimes == TRIES - k
      invariant token == Raw(nextToken, random, k) % TWO_TO_THE_32 && UsedUpTo(used, nextToken, random, k)
      decreases maxTryTimes
    {
      var more := maxTryTimes > 0;
      maxTryTimes := (maxTryTimes + TWO_TO_THE_32 - 1) % TWO_TO_THE_32;
      if !more {
        ManyUsed(used, nextToken, random, TRIES);
        FewerUsed(used, nextToken, random);
        break;
      }
      PositionIs(nextToken, random, k);
      if token == 0 {
        token := Add32(token, 1);
      }
      if token !in used {
        ManyUsed(used, nextToken, random, k);
        NotAllUsed(used, nextToken, random, k, TRIES);
        if k < TRIES - 1 {
          NotAllUsed(used, nextToken, random, k, TRIES - 1);
        }
        break;
      }
      OneMoreUsed(used, nextToken, random, k);
      var stride := if maxTryTimes > 900 then 1 else if maxTryTimes > 500 then 100 else if maxTryTimes > 100 then 200
                    else random[100 - maxTryTimes];
      token := Add32(token, stride);
      k := k + 1;
    }
    if maxTryTimes == 0 {
      token := 0;
    }
  }

  lemma {:induction false} NoneTried(used: set<nat>, nextToken: nat, random: seq<nat>)
    requires IsRandom(random)
    ensures UsedUpTo(used, nextToken, random, 0)
  {
  }

  lemma {:induction false} PositionIs(nextToken: nat, random: seq<nat>, k: nat)
    requires IsRandom(random) && k < TRIES
    ensures var raw := Raw(nextToken, random, k) % TWO_TO_THE_32;
            Tried(nextToken, random, k) == if raw == 0 then 1 else raw
    ensures Raw(nextToken, random, k + 1) % TWO_TO_THE_32
         == Add32(Tried(nextToken, random, k), Stride(random, k))
  {
    hide Stride;
    var raw, position := Raw(nextToken, random, k), Position(nextToken, random, k);
    AddWraps(raw, 1);
    AddWraps(position, Stride(random, k));
    hide Position, Raw;
  }

  lemma {:induction false} AddWraps(a: nat, b: nat)
    ensures Add32(a % TWO_TO_THE_32, b) == (a + b) % TWO_TO_THE_32
  {
  }

  lemma {:induction false} NotAllUsed(used: set<nat>, nextToken: nat, random: seq<nat>, k: nat, n: nat)
    requires IsRandom(random) && k < n <= TRIES && Tried(nextToken, random, k) !in used
    ensures !UsedUpTo(used, nextToken, random, n)
  {
    hide Tried;
  }

  lemma {:induction false} FewerUsed(used: set<nat>, nextToken: nat, random: seq<nat>)
    requires IsRandom(random) && UsedUpTo(used, nextToken, random, TRIES)
    ensures UsedUpTo(used, nextToken, random, TRIES - 1)
  {
    hide Tried;
  }

  lemma {:induction false} OneMoreUsed(used: set<nat>, nextToken: nat, random: seq<nat>, k: nat)
    requires IsRandom(random) && k < TRIES && UsedUpTo(used, nextToken, random, k) && Tried(nextToken, random, k) in used
    ensures UsedUpTo(used, nextToken, random, k + 1)
  {
    hide Tried;
  }

  /** A thousand and one tokens in use can make the search hand out one of them:
      the bound is exact. */
  lemma {:induction false} UsedTokenComesBack(random: seq<nat>) returns (used: set<nat>)
    requires IsRandom(random)
    ensures |used| == HARMLESS_PENDING + 1 && 0 !in used
    ensures UsedUpTo(used, 1, random, TRIES) && Untried(1, random) != 0 && Untried(1, random) in used
  {
    used := TriedSet(1, random, TRIES) + {Untried(1, random)};
    TriedCount(1, random, TRIES);
    forall j | 0 <= j < TRIES ensures Tried(1, random, j) != Untried(1, random) && Tried(1, random, j) != 0 {
      UntriedDiffers(1, random, j);
      NotZero(random, j);
    }
    UntriedNotZero(random);
    hide Tried, Untried;
  }

  /** With 999 tokens in use the search can find a free one and throw it away. */
  lemma {:induction false} FreeTokenThrownAway(random: seq<nat>) returns (used: set<nat>)
    requires IsRandom(random)
    ensures |used| == SAFE_PENDING + 1 && 0 !in used
    ensures UsedUpTo(used, 1, random, TRIES - 1) && !UsedUpTo(used, 1, random, TRIES)
  {
    used := TriedSet(1, random, TRIES - 1);
    TriedCount(1, random, TRIES - 1);
    forall j | 0 <= j < TRIES - 1 ensures Tried(1, random, j) != Tried(1, random, TRIES - 1) && Tried(1, random, j) != 0 {
      TriedDiffer(1, random, j, TRIES - 1);
      NotZero(random, j);
    }
    hide Tried;
    NotAllUsed(used, 1, random, TRIES - 1, TRIES);
  }

  lemma {:induction false} NotZero(random: seq<nat>, j: nat)
    requires IsRandom(random) && j < TRIES
    ensures Tried(1, random, j) != 0
  {
    PositionIs(1, random, j);
    hide *;
  }

  lemma {:induction false} UntriedNotZero(random: seq<nat>)
    requires IsRandom(random)
    ensures Untried(1, random) != 0
  {
    hide *;
    FirstPosition(random);
    LastRaw(1, random);
    PositionsAscend(1, random, 0, 999);
    SmallResidue(Raw(1, random, 1000));
    UntriedIs(1, random);
  }

  lemma {:induction false} LastRaw(nextToken: nat, random: seq<nat>)
    requires IsRandom(random)
    ensures TRIES == 1000 && Position(nextToken, random, 999) < Raw(nextToken, random, 1000)
         <= Position(nextToken, random, 999) + 200
  {
    hide Position, Stride;
  }

  lemma {:induction false} SmallResidue(a: nat)
    requires 0 < a < 1_000_000
    ensures a % TWO_TO_THE_32 != 0
  {
  }

  lemma {:induction false} UntriedIs(nextToken: nat, random: seq<nat>)
    requires IsRandom(random)
    ensures TRIES == 1000 && Untried(nextToken, random) == Raw(nextToken, random, 1000) % TWO_TO_THE_32
  {
    hide Raw;
  }

  lemma {:induction false} FirstPosition(random: seq<nat>)
    requires IsRandom(random)
    ensures Position(1, random, 0) == 1
  {
  }

  // ---------------------------------------------------------------- the maps

  datatype Task = Task(fd: nat, token: nat)

  /** Tokens to descriptors and descriptors to tasks are inverse to each other. */
  ghost predicate Inverse(connections: map<nat, Task>, directory: map<nat, nat>) {
    && (forall t :: t in directory ==> t != 0 && directory[t] in connections && connections[directory[t]].token == t)
    && (forall f :: f in connections ==>
          connections[f].fd == f && connections[f].token in directory && directory[connections[f].token] == f)
  }

  /** There are as many pending connects as tokens in use. */
  lemma {:induction false} SamePending(connections: map<nat, Task>, directory: map<nat, nat>)
    requires Inverse(connections, directory)
    ensures |connections| == |directory|
    decreases |connections|
  {
    if connections == map[] {
      assert forall t :: t !in directory;
      assert directory == map[];
    } else {
      var f :| f in connections;
      var t := connections[f].token;
      SamePending(connections - {f}, directory - {t});
    }
  }

  class ITcpServer {
    var nextToken: nat
    var connectionsMap: map<nat, Task>
    var tokenDirectory: map<nat, nat>

    constructor ()
      ensures Valid() && connectionsMap == map[] && tokenDirectory == map[]
    {
      nextToken, connectionsMap, tokenDirectory := 0, map[], map[];
    }

    ghost predicate Valid()
      reads this
    {
      nextToken < TWO_TO_THE_32 && Inverse(connectionsMap, tokenDirectory)
    }

    /** activeConnect when the address is understood; fd is what socket gave, if
        anything. The system does not give a descriptor that is still open. The
        maps stay inverse exactly when the token handed out was not in use. */
    method ActiveConnect(fd: Option<nat>, random: seq<nat>) returns (token: nat)
      requires Valid() && (fd.Some? ==> fd.value !in connectionsMap) && IsRandom(random)
      modifies this
      ensures token == 0 ==> Valid() && connectionsMap == old(connectionsMap) && tokenDirectory == old(tokenDirectory)
      ensures token != 0 ==> fd.Some? && connectionsMap == old(connectionsMap)[fd.value := Task(fd.value, token)]
      ensures token != 0 ==> (Valid() <==> token !in old(tokenDirectory))
      ensures token != 0 && token !in old(tokenDirectory) ==> tokenDirectory == old(tokenDirectory)[token := fd.value]
      ensures |old(connectionsMap)| <= HARMLESS_PENDING ==> Valid()
      ensures |old(connectionsMap)| <= SAFE_PENDING ==> (token != 0 <==> fd.Some?)
      ensures nextToken == if token != 0 then (token + 1) % 0x1_0000_0000 else old(nextToken)
    {
      SamePending(connectionsMap, tokenDirectory);
      token := FindToken(tokenDirectory.Keys, nextToken, random);
      if token > 0 {
        if fd.None? {
          token := 0;
        } else {
          nextToken := Add32(token, 1);
          connectionsMap := Emplaced(connectionsMap, fd.value, Task(fd.value, token));
          tokenDirectory := Emplaced(tokenDirectory, token, fd.value);
          assert fd.value in connectionsMap && connectionsMap[fd.value].token == token;
          assert token in old(tokenDirectory) ==> tokenDirectory[token] in old(connectionsMap);
        }
      }
    }

    /** release_task: a pending connect is over, by success, failure or timeout. */
    method ReleaseTask(task: Task)
      requires Valid() && task.fd in connectionsMap && connectionsMap[task.fd] == task
      modifies this`connectionsMap, this`tokenDirectory
      ensures Valid() && connectionsMap == old(connectionsMap) - {task.fd}
      ensures tokenDirectory == old(tokenDirectory) - {task.token}
    {
      connectionsMap := connectionsMap - {task.fd};
      tokenDirectory := tokenDirectory - {task.token};
    }

    /** cancelActiveConnecttion; closed is the descriptor it closes. */
    method Cancel(token: nat) returns (closed: Option<nat>)
      requires Valid()
      modifies this`connectionsMap, this`tokenDirectory
      ensures Valid() && tokenDirectory == old(tokenDirectory) - {token}
      ensures closed == if token in old(tokenDirectory) then Some(old(tokenDirectory)[token]) else None
      ensures connectionsMap == if closed == None then old(connectionsMap) else old(connectionsMap) - {closed.value}
    {
      closed := None;
      if token !in tokenDirectory {
        return;
      }
      var fd := tokenDirectory[token];
      if fd in connectionsMap {
        closed := Some(connectionsMap[fd].fd);
        connectionsMap := connectionsMap - {fd};
      }
      tokenDirectory := tokenDirectory - {token};
    }

    /** stopAll: every pending connect is closed, its token given back. */
    method StopAll() returns (closed: set<nat>)
      requires Valid()
      modifies this`connectionsMap, this`tokenDirectory
      ensures Valid() && connectionsMap == map[] && tokenDirectory == map[]
      ensures forall f :: f in closed <==> f in old(connectionsMap)
    {
      var rest := connectionsMap.Keys;
      closed := {};
      while rest != {}
        invariant connectionsMap == old(connectionsMap) && forall f :: f in rest ==> f in connectionsMap
        invariant forall f :: f in connectionsMap ==> (f in closed <==> f !in rest)
        invariant forall f :: f in closed ==> f in connectionsMap
        invariant forall t :: t in tokenDirectory ==> t in old(tokenDirectory) && old(tokenDirectory)[t] in rest
        decreases |rest|
      {
        var f :| f in rest;
        tokenDirectory := tokenDirectory - {connectionsMap[f].token};
        closed := closed + {connectionsMap[f].fd};
        rest := rest - {f};
      }
      connectionsMap := map[];
      assert tokenDirectory == map[];
    }
  }

  /** How the search moves on: by one in the first 99 tries, then by 100, then by
      200, and at random in the last hundred. */
  lemma {:induction false} Strides(nextToken: nat, random: seq<nat>, k: nat)
    requires IsRandom(random) && k < 1000
    ensures Raw(nextToken, random, k + 1) - Position(nextToken, random, k)
         == if k < 99 then 1 else if k < 499 then 100 else if k < 899 then 200 else random[k - 899]
    ensures Raw(nextToken, random, 0) == nextToken
  {
    hide Position;
  }
}
