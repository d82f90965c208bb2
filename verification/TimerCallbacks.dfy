/** The timer pass of core/object.cpp when callbacks that run in place stop, release
    or start timers of the owner whose pass it is. */
module TimerCallbacks {
  import opened Timers

  /** The timers by id, and the keys of the deadline index. */
  datatype Sched = Sched(timers: map<nat, TimerState>, index: set<Key>)

  /** What a callback can do. */
  datatype Act = StopIt(id: nat) | ReleaseIt(id: nat) | StartIt(id: nat, now: int)

  // ---------------------------------------------------------------- meaning

  /** The index holds exactly the working timers under their deadlines. */
  ghost predicate Consistent(s: Sched) {
    && 0 !in s.timers
    && forall k: Key :: k in s.index <==> k.1 in s.timers && s.timers[k.1].working && s.timers[k.1].next == k.0
  }

  /** stopTimer, releaseTimer and startTimer. */
  function Apply(s: Sched, a: Act): Sched {
    if a.id !in s.timers then s
    else
      var t := s.timers[a.id];
      match a
      case StopIt(id) => Sched(s.timers[id := t.(working := false)], s.index - {(t.next, id)})
      case ReleaseIt(id) => Sched(s.timers - {id}, s.index - {(t.next, id)})
      case StartIt(id, now) =>
        if t.working then s
        else Sched(s.timers[id := t.(working := true, next := now + t.interval)], s.index + {(now + t.interval, id)})
  }

  function ApplyAll(s: Sched, acts: seq<Act>): Sched
    decreases |acts|
  {
    if acts == [] then s else ApplyAll(Apply(s, acts[0]), acts[1..])
  }

  function TouchedBy(acts: seq<Act>): set<nat> {
    set a | a in acts :: a.id
  }

  function ReleasedBy(acts: seq<Act>): set<nat> {
    set a | a in acts && a.ReleaseIt? :: a.id
  }

  /** What the first n callbacks have touched, or released. */
  function Touched(script: seq<seq<Act>>, n: nat): set<nat>
    requires n <= |script|
  {
    if n == 0 then {} else Touched(script, n - 1) + TouchedBy(script[n - 1])
  }

  function Released(script: seq<seq<Act>>, n: nat): set<nat>
    requires n <= |script|
  {
    if n == 0 then {} else Released(script, n - 1) + ReleasedBy(script[n - 1])
  }

  /** No callback starts a timer. */
  ghost predicate Quiet(script: seq<seq<Act>>) {
    forall i, a :: 0 <= i < |script| && a in script[i] ==> !a.StartIt?
  }

  /** Ids of timers that work and are out of the index: the due ones, once each. */
  ghost predicate TakenOut(before: Sched, s: Sched, due: seq<nat>) {
    && Consistent(before) && s.timers == before.timers
    && (forall i :: 0 <= i < |due| ==> due[i] in s.timers && s.timers[due[i]].working)
    && (forall i, j :: 0 <= i < j < |due| ==> due[i] != due[j])
    && (forall k: Key :: k in s.index <==> k in before.index && k.1 !in due)
  }

  // ---------------------------------------------------------------- the code

  /** The two loops of handleTimerEvent that follow when the due timers are out of
      the index; script[i] is what the callback of the i-th timer does. A timer
      that was released meanwhile has id 0. */
  method Pass(s: Sched, due: seq<nat>, script: seq<seq<Act>>, later: int) returns (t: Sched)
    requires |script| == |due|
    ensures t == Again(Turns(s, due, script, |due|), Intervals(s, due, script, |due|), later)
  {
    t := s;
    var cycleQueue: seq<(nat, int)> := [];
    var i := 0;
    while i < |due|
      invariant 0 <= i <= |due| && t == Turns(s, due, script, i) && cycleQueue == Intervals(s, due, script, i)
    {
      t := ApplyAll(t, script[i]);
      if due[i] in t.timers && !t.timers[due[i]].single && t.timers[due[i]].working {
        cycleQueue := cycleQueue + [(due[i], t.timers[due[i]].interval)];
      } else if due[i] in t.timers {
        t := t.(timers := t.timers[due[i] := t.timers[due[i]].(working := false)]);
      }
      i := i + 1;
    }
    var q := 0;
    assert cycleQueue[..0] == [];
    while q < |cycleQueue|
      invariant 0 <= q <= |cycleQueue| && t == Again(Turns(s, due, script, |due|), cycleQueue[..q], later)
    {
      assert cycleQueue[..q + 1][..q] == cycleQueue[..q];
      var (id, interval) := cycleQueue[q];
      if id in t.timers {
        t := Sched(t.timers[id := t.timers[id].(next := later + interval)], t.index + {(later + interval, id)});
      } else {
        t := t.(index := t.index + {(later + interval, 0)});
      }
      q := q + 1;
    }
    assert cycleQueue[..q] == cycleQueue;
  }

  predicate ComesAgain(s: Sched, id: nat) {
    id in s.timers && !s.timers[id].single && s.timers[id].working
  }

  function Idle(s: Sched, id: nat): Sched {
    if id in s.timers then s.(timers := s.timers[id := s.timers[id].(working := false)]) else s
  }

  /** After the first n callbacks. */
  function Turns(s: Sched, due: seq<nat>, script: seq<seq<Act>>, n: nat): Sched
    requires n <= |due| == |script|
  {
    if n == 0 then s
    else
      var t := ApplyAll(Turns(s, due, script, n - 1), script[n - 1]);
      if ComesAgain(t, due[n - 1]) then t else Idle(t, due[n - 1])
  }

  function Intervals(s: Sched, due: seq<nat>, script: seq<seq<Act>>, n: nat): seq<(nat, int)>
    requires n <= |due| == |script|
  {
    if n == 0 then []
    else
      var t := ApplyAll(Turns(s, due, script, n - 1), script[n - 1]);
      var id := due[n - 1];
      Intervals(s, due, script, n - 1) + (if ComesAgain(t, id) then [(id, t.timers[id].interval)] else [])
  }

  function Again(s: Sched, queue: seq<(nat, int)>, later: int): Sched {
    if queue == [] then s
    else
      var t := Again(s, queue[..|queue| - 1], later);
      var (id, interval) := queue[|queue| - 1];
      if id in t.timers then Sched(t.timers[id := t.timers[id].(next := later + interval)], t.index + {(later + interval, id)})
      else t.(index := t.index + {(later + interval, 0)})
  }

  // ---------------------------------------------------------------- stops and releases

  ghost predicate Fits(s: Sched) {
    forall k: Key :: k in s.index ==> k.1 in s.timers && s.timers[k.1].next == k.0
  }

  /** t is s after ids were touched, some of them released. */
  ghost predicate Changed(s: Sched, t: Sched, touched: set<nat>, released: set<nat>) {
    && released <= touched
    && (forall id :: id in t.timers <==> id in s.timers && id !in released)
    && (forall id :: id in t.timers ==>
          t.timers[id] == if id in touched then s.timers[id].(working := false) else s.timers[id])
    && (forall k: Key :: k in t.index <==> k in s.index && k.1 !in touched)
  }

  lemma {:induction false} ApplyChanges(s: Sched, a: Act)
    requires Fits(s) && !a.StartIt?
    ensures Changed(s, Apply(s, a), {a.id}, if a.ReleaseIt? then {a.id} else {})
    ensures Fits(Apply(s, a))
  {
  }

  lemma {:induction false} ChangedTwice(s: Sched, t: Sched, u: Sched, a: set<nat>, ra: set<nat>, b: set<nat>, rb: set<nat>)
    requires Changed(s, t, a, ra) && Changed(t, u, b, rb)
    ensures Changed(s, u, a + b, ra + rb)
  {
  }

  lemma {:induction false} AllApplied(s: Sched, acts: seq<Act>)
    requires Fits(s) && forall a :: a in acts ==> !a.StartIt?
    ensures Changed(s, ApplyAll(s, acts), TouchedBy(acts), ReleasedBy(acts)) && Fits(ApplyAll(s, acts))
    decreases |acts|
  {
    if acts == [] {
    } else {
      var t := Apply(s, acts[0]);
      FirstAct(acts);
      hide Changed, Fits, Apply, TouchedBy, ReleasedBy;
      ApplyChanges(s, acts[0]);
      AllApplied(t, acts[1..]);
      ChangedTwice(s, t, ApplyAll(t, acts[1..]), {acts[0].id}, if acts[0].ReleaseIt? then {acts[0].id} else {},
                   TouchedBy(acts[1..]), ReleasedBy(acts[1..]));
    }
  }

  lemma {:induction false} FirstAct(acts: seq<Act>)
    requires acts != []
    ensures TouchedBy(acts) == {acts[0].id} + TouchedBy(acts[1..])
    ensures ReleasedBy(acts) == (if acts[0].ReleaseIt? then {acts[0].id} else {}) + ReleasedBy(acts[1..])
  {
    assert acts == [acts[0]] + acts[1..];
  }

  /** A due timer that has had its turn and waits to come again. */
  ghost predicate Waits(s: Sched, due: seq<nat>, script: seq<seq<Act>>, n: nat, i: nat)
    requires i < n <= |due| == |script|
  {
    due[i] in s.timers && !s.timers[due[i]].single && due[i] !in Touched(script, i + 1)
  }

  /** Where the first loop is after n callbacks. */
  ghost predicate Turned(s: Sched, due: seq<nat>, script: seq<seq<Act>>, n: nat, t: Sched)
    requires n <= |due| == |script|
  {
    && (forall id :: id in t.timers <==> id in s.timers && id !in Released(script, n))
    && (forall id :: id in t.timers ==>
          t.timers[id] == if id in Touched(script, n) || (id in due[..n] && s.timers[id].single)
                          then s.timers[id].(working := false) else s.timers[id])
    && (forall k: Key :: k in t.index <==> k in s.index && k.1 !in Touched(script, n))
  }

  ghost predicate Queues(s: Sched, due: seq<nat>, script: seq<seq<Act>>, n: nat, queue: seq<(nat, int)>)
    requires n <= |due| == |script|
  {
    && (forall i :: 0 <= i < n && Waits(s, due, script, n, i) ==> (due[i], s.timers[due[i]].interval) in queue)
    && (forall q :: q in queue ==>
          exists i :: 0 <= i < n && Waits(s, due, script, n, i) && q == (due[i], s.timers[due[i]].interval))
  }

  lemma {:induction false} TurnsKept(s: Sched, due: seq<nat>, script: seq<seq<Act>>, n: nat)
    requires n <= |due| == |script| && Fits(s) && Quiet(script) && Due(s, due)
    ensures Turned(s, due, script, n, Turns(s, due, script, n)) && Fits(Turns(s, due, script, n))
    ensures Queues(s, due, script, n, Intervals(s, due, script, n))
  {
    hide *;
    if n == 0 {
      NoTurns(s, due, script);
    } else {
      var t, acts := Turns(s, due, script, n - 1), script[n - 1];
      TurnsKept(s, due, script, n - 1);
      QuietAt(script, n - 1);
      AllApplied(t, acts);
      AfterCallback(s, due, script, n, t, ApplyAll(t, acts));
      TurnsNext(s, due, script, n);
      IdleFits(ApplyAll(t, acts), due[n - 1]);
      QueuesNext(s, due, script, n, Intervals(s, due, script, n - 1));
    }
  }

  ghost predicate Due(s: Sched, due: seq<nat>) {
    && (forall i :: 0 <= i < |due| ==> due[i] in s.timers && s.timers[due[i]].working)
    && (forall i, j :: 0 <= i < j < |due| ==> due[i] != due[j])
  }

  lemma {:induction false} NoTurns(s: Sched, due: seq<nat>, script: seq<seq<Act>>)
    requires |due| == |script| && Fits(s)
    ensures Turned(s, due, script, 0, Turns(s, due, script, 0)) && Fits(Turns(s, due, script, 0))
    ensures Queues(s, due, script, 0, Intervals(s, due, script, 0))
  {
  }

  lemma {:induction false} QuietAt(script: seq<seq<Act>>, n: nat)
    requires Quiet(script) && n < |script|
    ensures forall a :: a in script[n] ==> !a.StartIt?
  {
  }

  lemma {:induction false} TurnsNext(s: Sched, due: seq<nat>, script: seq<seq<Act>>, n: nat)
    requires 0 < n <= |due| == |script|
    ensures var t := ApplyAll(Turns(s, due, script, n - 1), script[n - 1]); var id := due[n - 1];
            && Turns(s, due, script, n) == (if ComesAgain(t, id) then t else Idle(t, id))
            && Intervals(s, due, script, n)
               == Intervals(s, due, script, n - 1)
                  + (if ComesAgain(t, id) then [(id, if id in t.timers then t.timers[id].interval else 0)] else [])
  {
    hide ApplyAll, Idle;
  }

  lemma {:induction false} IdleFits(s: Sched, id: nat)
    requires Fits(s)
    ensures Fits(Idle(s, id))
  {
  }

  /** One turn: the callback, then what follows it. */
  lemma {:induction false} AfterCallback(s: Sched, due: seq<nat>, script: seq<seq<Act>>, n: nat, t: Sched, u: Sched)
    requires 0 < n <= |due| == |script| && Due(s, due) && Turned(s, due, script, n - 1, t)
    requires Changed(t, u, TouchedBy(script[n - 1]), ReleasedBy(script[n - 1]))
    ensures ComesAgain(u, due[n - 1]) <==> Waits(s, due, script, n, n - 1)
    ensures ComesAgain(u, due[n - 1]) ==> due[n - 1] in u.timers && u.timers[due[n - 1]].interval == s.timers[due[n - 1]].interval
    ensures Turned(s, due, script, n, if ComesAgain(u, due[n - 1]) then u else Idle(u, due[n - 1]))
  {
    ReleasedTouched(script, n);
    hide TouchedBy, ReleasedBy;
    assert due[..n] == due[..n - 1] + [due[n - 1]];
    assert due[n - 1] !in due[..n - 1];
  }

  lemma {:induction false} ReleasedTouched(script: seq<seq<Act>>, n: nat)
    requires n <= |script|
    ensures Released(script, n) <= Touched(script, n)
  {
    if n == 0 {
    } else {
      ReleasedTouched(script, n - 1);
    }
  }

  lemma {:induction false} QueuesNext(s: Sched, due: seq<nat>, script: seq<seq<Act>>, n: nat, queue: seq<(nat, int)>)
    requires 0 < n <= |due| == |script| && Due(s, due) && Queues(s, due, script, n - 1, queue)
    ensures due[n - 1] in s.timers
    ensures Queues(s, due, script, n,
                   queue + (if Waits(s, due, script, n, n - 1) then [(due[n - 1], s.timers[due[n - 1]].interval)] else []))
  {
    hide Touched;
  }

  /** t with the queued timers back under new deadlines. */
  ghost predicate BackAgain(t: Sched, queue: seq<(nat, int)>, later: int, u: Sched) {
    && u.timers.Keys == t.timers.Keys
    && (forall id :: id in t.timers ==> u.timers[id].working == t.timers[id].working)
    && (forall q :: q in queue && q.0 in t.timers ==> u.timers[q.0].next == later + q.1)
    && (forall id :: id in t.timers && (forall q :: q in queue ==> q.0 != id) ==> u.timers[id] == t.timers[id])
    && (forall k: Key :: k in t.index ==> k in u.index)
    && (forall q :: q in queue ==> (later + q.1, if q.0 in t.timers then q.0 else 0) in u.index)
    && (forall k: Key :: k in u.index ==>
          k in t.index || exists q :: q in queue && k == (later + q.1, if q.0 in t.timers then q.0 else 0))
  }

  lemma {:induction false} AgainIs(t: Sched, queue: seq<(nat, int)>, later: int)
    requires forall p, q :: p in queue && q in queue && p.0 == q.0 ==> p.1 == q.1
    ensures BackAgain(t, queue, later, Again(t, queue, later))
  {
    if queue == [] {
    } else {
      var n := |queue| - 1;
      var rest, last := queue[..n], queue[n];
      AgainIs(t, rest, later);
      assert queue == rest + [last];
      OneMoreBack(t, rest, last, later, Again(t, rest, later), Again(t, queue, later));
    }
  }

  lemma {:induction false} OneMoreBack(t: Sched, queue: seq<(nat, int)>, q: (nat, int), later: int, u: Sched, v: Sched)
    requires BackAgain(t, queue, later, u) && forall p :: p in queue && p.0 == q.0 ==> p.1 == q.1
    requires v == if q.0 in u.timers
                  then Sched(u.timers[q.0 := u.timers[q.0].(next := later + q.1)], u.index + {(later + q.1, q.0)})
                  else u.(index := u.index + {(later + q.1, 0)})
    ensures BackAgain(t, queue + [q], later, v)
  {
    forall id | id in t.timers && (forall p :: p in queue + [q] ==> p.0 != id) ensures v.timers[id] == t.timers[id] {
      assert q in queue + [q];
      assert forall p :: p in queue ==> p in queue + [q];
    }
    assert q in queue + [q];
    forall k: Key | k in v.index && k !in t.index
      ensures exists p :: p in queue + [q] && k == (later + p.1, if p.0 in t.timers then p.0 else 0) {
      if k in u.index {
        var p :| p in queue && k == (later + p.1, if p.0 in t.timers then p.0 else 0);
        assert p in queue + [q];
      }
    }
  }

  // ---------------------------------------------------------------- results

  /** When callbacks stop and release timers, map and index agree after the pass if
      and only if none of them does so to a periodic timer that has had its turn in
      the same pass: such a timer comes back, stopped, or under id 0. */
  lemma {:induction false} StopsHonouredIff(before: Sched, s: Sched, due: seq<nat>, script: seq<seq<Act>>, later: int)
    requires |script| == |due| && TakenOut(before, s, due) && Quiet(script)
    ensures Consistent(Again(Turns(s, due, script, |due|), Intervals(s, due, script, |due|), later))
       <==> forall i :: 0 <= i < |due| && Waits(s, due, script, |due|, i) ==> due[i] !in Touched(script, |due|)
  {
    var n := |due|;
    var t, queue := Turns(s, due, script, n), Intervals(s, due, script, n);
    var u := Again(t, queue, later);
    TakenOutParts(before, s, due);
    TurnsKept(s, due, script, n);
    ReleasedTouched(script, n);
    hide *;
    QueueAgrees(s, due, script, queue);
    AgainIs(t, queue, later);
    if i :| 0 <= i < n && Waits(s, due, script, n, i) && due[i] in Touched(script, n) {
      StillBack(s, due, script, t, queue, later, u, i);
    } else {
      AllHonoured(before, s, due, script, t, queue, later, u);
    }
  }

  lemma {:induction false} TakenOutParts(before: Sched, s: Sched, due: seq<nat>)
    requires TakenOut(before, s, due)
    ensures Due(s, due) && Fits(s)
  {
  }

  lemma {:induction false} QueueAgrees(s: Sched, due: seq<nat>, script: seq<seq<Act>>, queue: seq<(nat, int)>)
    requires |due| == |script| && Queues(s, due, script, |due|, queue)
    ensures forall p, q :: p in queue && q in queue && p.0 == q.0 ==> p.1 == q.1
  {
    hide Waits;
  }

  lemma {:induction false} StillBack(s: Sched, due: seq<nat>, script: seq<seq<Act>>, t: Sched, queue: seq<(nat, int)>, later: int,
                                     u: Sched, i: nat)
    requires i < |due| == |script| && Waits(s, due, script, |due|, i) && due[i] in Touched(script, |due|)
    requires Turned(s, due, script, |due|, t) && Queues(s, due, script, |due|, queue) && BackAgain(t, queue, later, u)
    ensures !Consistent(u)
  {
    var id := due[i];
    var q := (id, s.timers[id].interval);
    assert q in queue;
    IdleOnce(s, due, script, t, id);
    hide Turned, Queues, Waits, Touched, Released;
    var k: Key := (later + q.1, if id in t.timers then id else 0);
    assert k in u.index;
  }

  lemma {:induction false} IdleOnce(s: Sched, due: seq<nat>, script: seq<seq<Act>>, t: Sched, id: nat)
    requires |due| == |script| && Turned(s, due, script, |due|, t) && id in Touched(script, |due|)
    ensures id in t.timers ==> !t.timers[id].working
  {
    hide Touched, Released;
  }

  lemma {:induction false} AllHonoured(before: Sched, s: Sched, due: seq<nat>, script: seq<seq<Act>>, t: Sched,
                                       queue: seq<(nat, int)>, later: int, u: Sched)
    requires |due| == |script| && TakenOut(before, s, due) && Released(script, |due|) <= Touched(script, |due|)
    requires forall i :: 0 <= i < |due| && Waits(s, due, script, |due|, i) ==> due[i] !in Touched(script, |due|)
    requires Turned(s, due, script, |due|, t) && Queues(s, due, script, |due|, queue) && BackAgain(t, queue, later, u)
    ensures Consistent(u)
  {
    var n := |due|;
    assert due[..n] == due;
    Backed(s, due, script, t, queue);
    forall k: Key ensures k in u.index <==> k.1 in u.timers && u.timers[k.1].working && u.timers[k.1].next == k.0 {
      KeyAgrees(before, s, due, script, t, queue, later, u, k);
    }
    hide BackAgain, Queues, Touched, Released, Waits;
    assert 0 !in u.timers by {
      hide Turned;
      SameKeys(t, queue, later, u);
      KeysOf(s, due, script, t);
    }
  }

  lemma {:induction false} SameKeys(t: Sched, queue: seq<(nat, int)>, later: int, u: Sched)
    requires BackAgain(t, queue, later, u)
    ensures u.timers.Keys == t.timers.Keys
  {
  }

  lemma {:induction false} KeysOf(s: Sched, due: seq<nat>, script: seq<seq<Act>>, t: Sched)
    requires |due| == |script| && Turned(s, due, script, |due|, t)
    ensures forall id :: id in t.timers ==> id in s.timers
  {
    hide Touched, Released;
  }

  /** Then the queue holds just the periodic due timers that are still working. */
  lemma {:induction false} Backed(s: Sched, due: seq<nat>, script: seq<seq<Act>>, t: Sched, queue: seq<(nat, int)>)
    requires |due| == |script| && Due(s, due) && Released(script, |due|) <= Touched(script, |due|)
    requires forall i :: 0 <= i < |due| && Waits(s, due, script, |due|, i) ==> due[i] !in Touched(script, |due|)
    requires Turned(s, due, script, |due|, t) && Queues(s, due, script, |due|, queue)
    ensures forall q :: q in queue ==> q.0 in due && q.0 in t.timers && t.timers[q.0].working && q.1 == s.timers[q.0].interval
    ensures forall id :: id in due && id in t.timers && t.timers[id].working ==> (id, s.timers[id].interval) in queue
  {
    var n := |due|;
    assert due[..n] == due;
    forall id | id in due && id in t.timers && t.timers[id].working ensures (id, s.timers[id].interval) in queue {
      var i :| 0 <= i < n && due[i] == id;
      TouchedGrows(script, i + 1, n);
      assert Waits(s, due, script, n, i);
    }
    hide Touched, Released;
  }

  lemma {:induction false} TouchedGrows(script: seq<seq<Act>>, m: nat, n: nat)
    requires m <= n <= |script|
    ensures Touched(script, m) <= Touched(script, n)
    decreases n
  {
    if m < n {
      TouchedGrows(script, m, n - 1);
    }
  }

  lemma {:induction false} KeyAgrees(before: Sched, s: Sched, due: seq<nat>, script: seq<seq<Act>>, t: Sched,
                                     queue: seq<(nat, int)>, later: int, u: Sched, k: Key)
    requires |due| == |script| && TakenOut(before, s, due) && Released(script, |due|) <= Touched(script, |due|)
    requires Turned(s, due, script, |due|, t) && BackAgain(t, queue, later, u)
    requires forall q :: q in queue ==> q.0 in due && q.0 in t.timers && t.timers[q.0].working && q.1 == s.timers[q.0].interval
    requires forall id :: id in due && id in t.timers && t.timers[id].working ==> (id, s.timers[id].interval) in queue
    ensures k in u.index <==> k.1 in u.timers && u.timers[k.1].working && u.timers[k.1].next == k.0
  {
    var n := |due|;
    assert due[..n] == due;
    hide Touched, Released;
    if k.1 in due {
      assert k !in t.index;
      if k.1 in t.timers && t.timers[k.1].working {
        assert (k.1, s.timers[k.1].interval) in queue;
      }
    } else {
      assert forall q :: q in queue ==> q.0 != k.1;
    }
  }

  function Restart(id: nat, at: int): seq<Act> {
    [StopIt(id), StartIt(id, at)]
  }

  function Restarted(s: Sched, id: nat, at: int): Sched
    requires id in s.timers
  {
    var t := s.timers[id];
    Sched(s.timers[id := t.(working := true, next := at + t.interval)], s.index - {(t.next, id)} + {(at + t.interval, id)})
  }

  lemma {:induction false} RestartApplied(s: Sched, id: nat, at: int)
    requires id in s.timers && s.timers[id].working
    ensures ApplyAll(s, Restart(id, at)) == Restarted(s, id, at)
  {
    var stopped := Apply(s, StopIt(id));
    assert Restart(id, at)[1..] == [StartIt(id, at)] && [StartIt(id, at)][1..] == [];
    assert ApplyAll(stopped, [StartIt(id, at)]) == Apply(stopped, StartIt(id, at));
    assert stopped.timers[id := Restarted(s, id, at).timers[id]] == Restarted(s, id, at).timers;
  }

  /** A pass with one due timer that its own callback restarts. */
  lemma {:induction false} RestartedOnce(s: Sched, id: nat, at: int)
    requires id in s.timers && s.timers[id].working
    ensures var u := Restarted(s, id, at); var t := Turns(s, [id], [Restart(id, at)], 1);
            && t == (if s.timers[id].single then Idle(u, id) else u)
            && Intervals(s, [id], [Restart(id, at)], 1) == if s.timers[id].single then [] else [(id, s.timers[id].interval)]
  {
    var script := [Restart(id, at)];
    RestartApplied(s, id, at);
    hide ApplyAll, Restart;
    assert Turns(s, [id], script, 0) == s && Intervals(s, [id], script, 0) == [];
    TurnsNext(s, [id], script, 1);
    hide Turns, Intervals;
    assert [] + [(id, s.timers[id].interval)] == [(id, s.timers[id].interval)];
  }

  /** A periodic timer that its own callback restarts has two keys, unless that was
      at the very time of re-arming: then map and index agree. Stopping the timer
      leaves the other key. */
  lemma {:induction false} PeriodicRestartIff(before: Sched, s: Sched, id: nat, at: int, later: int)
    requires TakenOut(before, s, [id]) && id in s.timers && !s.timers[id].single
    ensures var script := [Restart(id, at)]; var interval := s.timers[id].interval;
            var t := Again(Turns(s, [id], script, 1), Intervals(s, [id], script, 1), later);
            && (at + interval, id) in t.index && (later + interval, id) in t.index
            && id in t.timers && t.timers[id].next == later + interval
            && (Consistent(t) <==> at == later)
            && ((at + interval, id) in Apply(t, StopIt(id)).index <==> at != later)
  {
    var u, q := Restarted(s, id, at), (id, s.timers[id].interval);
    TakenOutOne(before, s, id);
    RestartedOnce(s, id, at);
    AgainOnce(u, q, later);
    var t := Again(u, [q], later);
    hide Turns, Intervals, Restart, Again, TakenOut;
    var stale: Key := (at + q.1, id);
    assert stale in t.index;
    if at == later {
      forall k: Key ensures k in t.index <==> k.1 in t.timers && t.timers[k.1].working && t.timers[k.1].next == k.0 {
        assert k in before.index <==> k.1 in before.timers && before.timers[k.1].working && before.timers[k.1].next == k.0;
      }
    }
  }

  lemma {:induction false} TakenOutOne(before: Sched, s: Sched, id: nat)
    requires TakenOut(before, s, [id])
    ensures id in s.timers && s.timers[id].working && s.timers == before.timers && Consistent(before)
    ensures forall k: Key :: k in s.index <==> k in before.index && k.1 != id
  {
    assert [id][0] == id;
  }

  lemma {:induction false} AgainOnce(u: Sched, q: (nat, int), later: int)
    requires q.0 in u.timers
    ensures Again(u, [q], later)
         == Sched(u.timers[q.0 := u.timers[q.0].(next := later + q.1)], u.index + {(later + q.1, q.0)})
  {
    assert [q][..0] == [];
    assert Again(u, [], later) == u;
  }

  /** A one-shot timer that its own callback restarts ends up idle, with a key: it
      fires although it does not work. */
  lemma {:induction false} OneShotRestart(before: Sched, s: Sched, id: nat, at: int, later: int)
    requires TakenOut(before, s, [id]) && id in s.timers && s.timers[id].single
    ensures var script := [Restart(id, at)];
            var t := Again(Turns(s, [id], script, 1), Intervals(s, [id], script, 1), later);
            && id in t.timers && !t.timers[id].working && (at + s.timers[id].interval, id) in t.index && !Consistent(t)
  {
    TakenOutOne(before, s, id);
    RestartedOnce(s, id, at);
    var u := Idle(Restarted(s, id, at), id);
    assert Again(u, [], later) == u;
    var k: Key := (at + s.timers[id].interval, id);
    assert k in u.index;
    hide Turns, Intervals, Restart, TakenOut;
  }
}
