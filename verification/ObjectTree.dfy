/** The tree of cooperative schedulers of core/object.cpp: trigger queues, exec
    sets and the flag that says an object is already on its parent's list. */
module ObjectTree {

  /** What a trigger event does when it runs: it posts events to objects of the
      tree, in order. */
  datatype Event = Event(posts: seq<Post>)
  datatype Post = Post(target: Object, event: Event)

  /** An entry of the deadline index, which is kept by deadline. */
  datatype TimerEntry = TimerEntry(deadline: int, interval: int, single: bool, timeout: Event)

  const CAPACITY: nat := 100000
  const DEFAULT_TIMEOUT_MSEC: int := 5000
  const NO_DEADLINE: int := 0x7fff_ffff_ffff_ffff

  class Object {
    const parent: Object?
    const depth: nat
    var queue: seq<Event>
    var execSubObjectSet: set<Object>
    var isTriggering: bool
    var timerEvents: seq<TimerEntry>
    // All events ever accepted, and those that have been run.
    ghost var posted: seq<Event>
    ghost var ran: seq<Event>

    constructor (parent: Object?)
      ensures this.parent == parent && depth == (if parent == null then 0 else parent.depth + 1)
      ensures queue == [] && execSubObjectSet == {} && !isTriggering && timerEvents == []
      ensures posted == [] && ran == []
    {
      this.parent := parent;
      depth := if parent == null then 0 else parent.depth + 1;
      queue, execSubObjectSet, isTriggering, timerEvents := [], {}, false, [];
      posted, ran := [], [];
    }

    /** addTriggerEvent; false when the queue is full. */
    method AddTriggerEvent(event: Event, ghost w: set<Object>, ghost active: set<Object>, ghost pending: set<Object>,
                           ghost l: Ledger, ghost open: set<Object>)
      returns (ok: bool)
      requires this in w && EventIn(event, w) && Tree(w) && Inv(w, active, pending) && ExecBooks(w, l, open)
      modifies w`queue, w`execSubObjectSet, w`isTriggering, w`posted
      ensures Inv(w, active, pending) && ExecBooks(w, l, open)
      ensures ok == (|old(queue)| < 100000)
      ensures queue == old(queue) + (if ok then [event] else [])
      ensures posted == old(posted) + (if ok then [event] else [])
      ensures forall o :: o in w && o != this ==> o.queue == old(o.queue) && o.posted == old(o.posted)
    {
      if |queue| >= CAPACITY {
        return false;
      }
      hide *;
      var unflagged := Enqueue(event, w, active, pending);
      if unflagged {
        parent.PushExec(this, w, active, pending, l, open);
      }
      return true;
    }

    /** The first half of addTriggerEvent: the event is queued, and the flag is set
        where the parent has to be told. */
    method Enqueue(event: Event, ghost w: set<Object>, ghost active: set<Object>, ghost pending: set<Object>)
      returns (unflagged: bool)
      requires this in w && EventIn(event, w) && Tree(w) && Inv(w, active, pending)
      modifies this`queue, this`isTriggering, this`posted
      ensures unflagged ==> parent != null && parent in w && this !in active && this !in pending
      ensures Inv(w, active, if unflagged then pending + {this} else pending)
      ensures queue == old(queue) + [event] && posted == old(posted) + [event]
    {
      hide TimersInside, EventIn;
      queue := queue + [event];
      posted := posted + [event];
      unflagged := parent != null && !isTriggering;
      if unflagged {
        isTriggering := true;
      }
    }

    /** pushExec: note the child, and make sure this object is noted by its own
        parent. */
    method PushExec(child: Object, ghost w: set<Object>, ghost active: set<Object>, ghost pending: set<Object>,
                    ghost l: Ledger, ghost open: set<Object>)
      requires this in w && child in w && child.parent == this && Tree(w) && Inv(w, active, pending + {child})
      requires child !in active && child !in pending && ExecBooks(w, l, open)
      modifies w`execSubObjectSet, w`isTriggering
      ensures Inv(w, active, pending) && ExecBooks(w, l, open)
      ensures child in execSubObjectSet
      ensures forall o :: o in w && o.depth > depth ==> o.execSubObjectSet == old(o.execSubObjectSet)
      decreases depth
    {
      hide *;
      var again := Note(child, w, active, pending, l, open);
      if again {
        parent.PushExec(this, w, active, pending, l, open);
      }
    }

    /** What pushExec does at one object. */
    method Note(child: Object, ghost w: set<Object>, ghost active: set<Object>, ghost pending: set<Object>,
                ghost l: Ledger, ghost open: set<Object>)
      returns (again: bool)
      requires this in w && child in w && child.parent == this && Tree(w) && Inv(w, active, pending + {child})
      requires child !in active && child !in pending && ExecBooks(w, l, open)
      modifies this`execSubObjectSet, this`isTriggering
      ensures child in execSubObjectSet && ExecBooks(w, l, open)
      ensures again ==> parent != null && parent in w && depth == parent.depth + 1 && this !in active && this !in pending
      ensures Inv(w, active, if again then pending + {this} else pending)
    {
      hide TimersInside, EventIn;
      execSubObjectSet := execSubObjectSet + {child};
      again := parent != null && !isTriggering;
      if again {
        isTriggering := true;
      }
    }

    /** handleTriggerQueue: the queue is taken out, then its events run in order;
        what they post waits for the next pass. */
    method HandleTriggerQueue(ghost w: set<Object>, ghost active: set<Object>, ghost pending: set<Object>,
                              ghost l: Ledger, ghost open: set<Object>)
      returns (ghost l': Ledger)
      requires this in w && this in active && Tree(w) && Inv(w, active, pending) && History(w)
      requires Books(w, l, open)
      modifies w`queue, w`execSubObjectSet, w`isTriggering, w`posted, this`ran
      ensures Inv(w, active, pending) && History(w) && Books(w, l', open) && Goes(l, l')
      ensures ran == old(ran) + old(queue)
    {
      hide *;
      ghost var was := ran;
      var execQueue := TakeQueue(w, active, pending);
      var i := 0;
      l' := l;
      assert execQueue[0..] == execQueue && execQueue[..0] == [] && was + [] == was;
      GoesNowhere(l);
      while i < |execQueue|
        invariant 0 <= i <= |execQueue|
        invariant Inv(w, active, pending) && History(w - {this})
        invariant forall e :: e in execQueue ==> EventIn(e, w)
        invariant posted == ran + execQueue[i..] + queue && ran == was + execQueue[..i]
        invariant Books(w, l', open) && Goes(l, l')
      {
        assert execQueue[i] in execQueue;
        assert execQueue[i..] == [execQueue[i]] + execQueue[i + 1..];
        assert execQueue[..i + 1] == execQueue[..i] + [execQueue[i]];
        ghost var before := l';
        l' := RunNext(execQueue[i], execQueue[i + 1..], w, active, pending, l', open);
        GoesOn(l, before, l');
        assert was + execQueue[..i] + [execQueue[i]] == was + execQueue[..i + 1];
        i := i + 1;
      }
      assert execQueue[i..] == [] && execQueue[..i] == execQueue && ran + [] == ran;
      WholeHistory(this, w);
    }

    /** The swap at its start. */
    method TakeQueue(ghost w: set<Object>, ghost active: set<Object>, ghost pending: set<Object>)
      returns (execQueue: seq<Event>)
      requires this in w && Tree(w) && Inv(w, active, pending) && History(w)
      modifies this`queue
      ensures Inv(w, active, pending) && History(w - {this})
      ensures execQueue == old(queue) && queue == [] && posted == ran + execQueue + queue
      ensures forall e :: e in execQueue ==> EventIn(e, w)
    {
      execQueue := queue;
      queue := [];
    }

    /** One turn of that loop. */
    method RunNext(e: Event, ghost rest: seq<Event>, ghost w: set<Object>, ghost active: set<Object>, ghost pending: set<Object>,
                   ghost l: Ledger, ghost open: set<Object>)
      returns (ghost l': Ledger)
      requires EventIn(e, w)
      requires this in w && Tree(w) && Inv(w, active, pending) && History(w - {this})
      requires posted == ran + ([e] + rest) + queue && Books(w, l, open)
      modifies w`queue, w`execSubObjectSet, w`isTriggering, w`posted, this`ran
      ensures Inv(w, active, pending) && History(w - {this})
      ensures ran == old(ran) + [e] && posted == ran + rest + queue
      ensures Books(w, l', open) && Goes(l, l')
    {
      hide *;
      ghost var was := map o | o in w :: Was(o.posted, o.queue, o.ran);
      BooksParts(w, l, open);
      BooksThen(w, was, l, this, [e] + rest);
      Run(e, w, active, pending, was, l, open);
      HistoryAfter(w, was, l, e.posts, this, [e] + rest);
      l' := l.(trace := l.trace + [Ran(this, e)]);
      StepGoes(l, Ran(this, e));
      PostsAreSteps(this, e);
      PostsAfter(w, was, l, l', Ran(this, e), this, [e] + rest);
      RanExactly(w, was, e.posts);
      assert ran + ([e] + rest) == (ran + [e]) + rest;
      ran := ran + [e];
      RanAfter(w, was, l, l', this, e, [e] + rest);
      TimersAfter(w, l, l', this, e);
      ExecsAfter(w, l, l', open);
      BooksWhole(w, l', open);
    }

    /** handleTimerEvent at two times sampled from the clock on: due entries are
        taken out and fire, periodic ones come back with a new deadline. */
    method HandleTimerEvent(ghost w: set<Object>, ghost active: set<Object>, ghost pending: set<Object>,
                            clock: int, ghost l: Ledger, ghost open: set<Object>)
      returns (now: int, later: int, ghost l': Ledger)
      requires this in w && Tree(w) && Inv(w, active, pending) && History(w)
      requires Books(w, l, open) && this !in l.times && this in open
      modifies w`queue, w`execSubObjectSet, w`isTriggering, w`posted, this`timerEvents
      ensures clock <= now <= later
      ensures Inv(w, active, pending) && History(w) && Goes(l, l') && BooksBut(w, this, l', open)
      ensures timerEvents == After(old(timerEvents), now, later)
      ensures FiredBy(l'.trace, this) == Due(old(timerEvents), now)
    {
      hide *;
      BooksParts(w, l, open);
      now :| clock <= now;
      ghost var before := timerEvents;
      var timeoutQueue := TakeDue(now, w, active, pending, l, open);
      var cycleQueue;
      cycleQueue, l' := FireAll(timeoutQueue, w, active, pending, l, open);
      later :| now <= later;
      GoesParts(l, l');
      AfterIs(before, now, later);
      AddAgain(cycleQueue, later, w, active, pending, l', open);
      BooksButWhole(w, this, l', open);
    }

    /** The first block of handleTimerEvent: the entries up to now, from the
        beginning of the index, are erased. */
    method TakeDue(now: int, ghost w: set<Object>, ghost active: set<Object>, ghost pending: set<Object>,
                   ghost l: Ledger, ghost open: set<Object>)
      returns (timeoutQueue: seq<TimerEntry>)
      requires this in w && Tree(w) && Inv(w, active, pending)
      requires TimerBooks(w, l) && ExecBooks(w, l, open) && this !in l.times
      modifies this`timerEvents
      ensures Inv(w, active, pending) && EntriesInside(timeoutQueue, w)
      ensures TimerBooks(w - {this}, l) && ExecBooks(w, l, open)
      ensures timeoutQueue == Due(old(timerEvents), now) && timerEvents == old(timerEvents)[|timeoutQueue|..]
      ensures FiredBy(l.trace, this) == []
    {
      hide *;
      var n := 0;
      while n < |timerEvents| && timerEvents[n].deadline <= now
        invariant 0 <= n <= |timerEvents| && forall i :: 0 <= i < n ==> timerEvents[i].deadline <= now
      {
        n := n + 1;
      }
      DueCounted(timerEvents, now, n);
      DueIs(timerEvents, now, n);
      timeoutQueue := timerEvents[..n];
      NothingFired(this, w, l);
      Erase(n, w, active, pending, l, open);
    }

    /** erase(begin(), iter). */
    method Erase(n: nat, ghost w: set<Object>, ghost active: set<Object>, ghost pending: set<Object>,
                 ghost l: Ledger, ghost open: set<Object>)
      requires this in w && n <= |timerEvents| && Tree(w) && Inv(w, active, pending)
      requires TimerBooks(w, l) && ExecBooks(w, l, open) && this !in l.times
      modifies this`timerEvents
      ensures Inv(w, active, pending) && EntriesInside(old(timerEvents)[..n], w)
      ensures TimerBooks(w - {this}, l) && ExecBooks(w, l, open)
      ensures timerEvents == old(timerEvents)[n..]
    {
      hide TimersAs, EventIn, Covered, Flagged;
      TimersInsideAt(this, w, n);
      SetTimers(timerEvents[n..], w, active, pending, l, open);
    }

    /** The index of an object that has not been handled is set. */
    method SetTimers(timers: seq<TimerEntry>, ghost w: set<Object>, ghost active: set<Object>, ghost pending: set<Object>,
                     ghost l: Ledger, ghost open: set<Object>)
      requires this in w && Tree(w) && Inv(w, active, pending) && TimersInside(timers, w)
      requires ExecBooks(w, l, open) && this !in l.times
      modifies this`timerEvents
      ensures Inv(w, active, pending) && ExecBooks(w, l, open) && timerEvents == timers
    {
      hide TimersInside, EventIn, Covered, Flagged;
      timerEvents := timers;
    }

    /** The first loop of handleTimerEvent. */
    method FireAll(timeouts: seq<TimerEntry>, ghost w: set<Object>, ghost active: set<Object>, ghost pending: set<Object>,
                   ghost l: Ledger, ghost open: set<Object>)
      returns (cycleQueue: seq<TimerEntry>, ghost l': Ledger)
      requires this in w && Tree(w) && Inv(w, active, pending) && History(w) && EntriesInside(timeouts, w)
      requires RanBooks(w, l) && PostBooks(w, l) && TimerBooks(w - {this}, l) && ExecBooks(w, l, open)
      requires TimesBooks(w, l) && FiredBy(l.trace, this) == []
      modifies w`queue, w`execSubObjectSet, w`isTriggering, w`posted
      ensures Inv(w, active, pending) && History(w) && Goes(l, l')
      ensures RanBooks(w, l') && PostBooks(w, l') && TimerBooks(w - {this}, l') && ExecBooks(w, l', open)
      ensures TimesBooks(w, l') && FiredBy(l'.trace, this) == timeouts
      ensures cycleQueue == Cycle(timeouts) && EntriesInside(cycleQueue, w)
    {
      hide *;
      var i := 0;
      cycleQueue, l' := [], l;
      assert timeouts[..0] == [];
      NothingCycles();
      CycleInside(timeouts, w);
      GoesNowhere(l);
      while i < |timeouts|
        invariant 0 <= i <= |timeouts|
        invariant Inv(w, active, pending) && History(w) && Goes(l, l')
        invariant RanBooks(w, l') && PostBooks(w, l') && TimerBooks(w - {this}, l') && ExecBooks(w, l', open)
        invariant TimesBooks(w, l') && FiredBy(l'.trace, this) == timeouts[..i]
        invariant cycleQueue == Cycle(timeouts[..i])
      {
        CycleStep(timeouts, i);
        EntryInside(timeouts, i, w);
        ghost var before := l';
        l' := Fire(timeouts[i], w, active, pending, l', open);
        GoesOn(l, before, l');
        assert timeouts[..i] + [timeouts[i]] == timeouts[..i + 1];
        if !timeouts[i].single {
          cycleQueue := cycleQueue + [timeouts[i]];
        } else {
          assert cycleQueue + [] == cycleQueue;
        }
        i := i + 1;
      }
      assert timeouts[..i] == timeouts;
    }

    /** One timer fires. */
    method Fire(entry: TimerEntry, ghost w: set<Object>, ghost active: set<Object>, ghost pending: set<Object>,
                ghost l: Ledger, ghost open: set<Object>)
      returns (ghost l': Ledger)
      requires this in w && Tree(w) && Inv(w, active, pending) && History(w) && EventIn(entry.timeout, w)
      requires RanBooks(w, l) && PostBooks(w, l) && TimerBooks(w - {this}, l) && ExecBooks(w, l, open) && TimesBooks(w, l)
      modifies w`queue, w`execSubObjectSet, w`isTriggering, w`posted
      ensures Inv(w, active, pending) && History(w) && Goes(l, l')
      ensures RanBooks(w, l') && PostBooks(w, l') && TimerBooks(w - {this}, l') && ExecBooks(w, l', open)
      ensures TimesBooks(w, l') && FiredBy(l'.trace, this) == FiredBy(l.trace, this) + [entry]
    {
      hide *;
      ghost var was := map o | o in w :: Was(o.posted, o.queue, o.ran);
      NothingGone(this, w);
      BooksThen(w, was, l, this, []);
      Run(entry.timeout, w, active, pending, was, l, open);
      HistoryAfter(w, was, l, entry.timeout.posts, this, []);
      assert ran + [] == ran;
      WholeHistory(this, w);
      l' := l.(trace := l.trace + [Fired(this, entry)]);
      StepGoes(l, Fired(this, entry));
      TimeoutsAreSteps(this, entry);
      PostsAfter(w, was, l, l', Fired(this, entry), this, []);
      RanKept(w, l, l', this, entry);
      FiredAfter(w - {this}, l, l', this, entry);
      ExecsAfter(w, l, l', open);
    }

    /** The second loop of handleTimerEvent. */
    method AddAgain(cycleQueue: seq<TimerEntry>, later: int, ghost w: set<Object>, ghost active: set<Object>, ghost pending: set<Object>,
                    ghost l: Ledger, ghost open: set<Object>)
      requires this in w && Tree(w) && Inv(w, active, pending) && EntriesInside(cycleQueue, w)
      requires ExecBooks(w, l, open) && this !in l.times
      modifies this`timerEvents
      ensures Inv(w, active, pending) && ExecBooks(w, l, open)
      ensures timerEvents == EmplacedAll(old(timerEvents), cycleQueue, later)
    {
      hide *;
      var i := 0;
      assert cycleQueue[..0] == [];
      EmplacedNone(timerEvents, later);
      while i < |cycleQueue|
        invariant 0 <= i <= |cycleQueue|
        invariant Inv(w, active, pending) && ExecBooks(w, l, open)
        invariant timerEvents == EmplacedAll(old(timerEvents), cycleQueue[..i], later)
      {
        var entry := cycleQueue[i].(deadline := later + cycleQueue[i].interval);
        EmplacedNext(old(timerEvents), cycleQueue, i, later);
        EntryInside(cycleQueue, i, w);
        TimersInsideAll(this, w, active, pending);
        EmplacedInside(timerEvents, entry, w);
        var timers := Emplace(timerEvents, entry);
        SetTimers(timers, w, active, pending, l, open);
        i := i + 1;
      }
      assert cycleQueue[..i] == cycleQueue;
    }

    /** handleChildEvent: the exec set is taken out, then its objects are handled. */
    method HandleChildEvent(ghost w: set<Object>, ghost height: nat, ghost active: set<Object>, ghost pending: set<Object>,
                            clock: int, ghost l: Ledger, ghost open: set<Object>)
      returns (end: int, ghost l': Ledger)
      requires this in w && Tree(w) && Below(w, height)
      requires this in active && Outer(this, active, pending)
      requires Inv(w, active, pending) && History(w)
      requires Books(w, l, open) && Untouched(this, w, l, open) && clock == l.clock
      modifies w
      ensures Inv(w, active, pending) && History(w)
      ensures Books(w, l', open + {this}) && Continues(l, l') && end == l'.clock
      ensures OnlyUnder(this, w, l, l') && this !in l'.times && forall c :: c in l.base[this].exec ==> c in l'.times
      ensures forall d :: d in w && d != this && Under(this, d, w) ==> Caught(l', d)
      decreases height - depth, 0, 1
    {
      hide *;
      end, l' := clock, l;
      ghost var noted, now := execSubObjectSet, l;
      QuietChildren(this, w, active, pending);
      BooksParts(w, l, open);
      ExecsNoted(this, w, l, open);
      QuietCaught(this, w, l);
      NothingTouched(this, w, l, open);
      var execSet := TakeExecSet(w, active, pending, l, open);
      BooksWhole(w, l, open + {this});
      ChildrenStart(this, w, execSet, l, open);
      while execSet != {}
        invariant forall c :: c in execSet ==> c in noted && c in w && c.parent == this && c.depth == depth + 1
        invariant Inv(w, active, pending + execSet) && History(w)
        invariant Books(w, l', open + {this}) && end == l'.clock
        invariant ChildrenDone(this, w, noted, execSet, l, l', open)
        decreases |execSet|
      {
        var i :| i in execSet;
        now := l';
        ChildNext(this, w, noted, execSet, l, now, open, i);
        end, l' := HandleChild(i, execSet, w, height, active, pending, end, now, open + {this});
        ChildDone(this, w, noted, execSet, l, now, l', open, i);
        execSet := execSet - {i};
      }
      assert pending + {} == pending;
      AllCaught(this, w, noted, l, l', open);
    }

    /** One turn of that loop. */
    method HandleChild(i: Object, ghost execSet: set<Object>, ghost w: set<Object>, ghost height: nat,
                       ghost active: set<Object>, ghost pending: set<Object>, clock: int, ghost l: Ledger, ghost open: set<Object>)
      returns (end: int, ghost l': Ledger)
      requires this in w && Tree(w) && Below(w, height)
      requires this in active && Outer(this, active, pending)
      requires Inv(w, active, pending + execSet) && History(w)
      requires i in execSet && forall c :: c in execSet ==> c in w && c.parent == this && c.depth == depth + 1
      requires Books(w, l, open) && Untouched(i, w, l, open) && clock == l.clock
      modifies w
      ensures Inv(w, active, pending + (execSet - {i})) && History(w)
      ensures Books(w, l', open) && Continues(l, l') && end == l'.clock
      ensures OnlyUnder(i, w, l, l') && i in l'.times && CaughtUp(i, w, l')
      decreases height - depth, 0, 0
    {
      hide *;
      ghost var rest := execSet - {i};
      BelowHeight(this, w, height);
      Handover(i, w, active, pending, execSet);
      OuterChild(this, i, w, active, pending, rest);
      BelowHeight(i, w, height);
      end, l' := i.HandleEvent(w, height, active, pending + rest, clock, l, open);
    }

    /** The swap at the start of handleChildEvent. */
    method TakeExecSet(ghost w: set<Object>, ghost active: set<Object>, ghost pending: set<Object>, ghost l: Ledger, ghost open: set<Object>)
      returns (execSet: set<Object>)
      requires this in w && this in active && Tree(w) && Inv(w, active, pending)
      requires ExecBooks(w, l, open) && forall d :: d in w && d.parent == this ==> d !in l.times
      modifies this`execSubObjectSet
      ensures execSet == old(execSubObjectSet) && Inv(w, active, pending + execSet)
      ensures forall c :: c in execSet ==> c in w && c.parent == this && c.depth == depth + 1
      ensures ExecBooks(w, l, open + {this})
    {
      execSet := execSubObjectSet;
      execSubObjectSet := {};
    }

    /** The last step of handleEvent when nothing is left to do. */
    method ClearFlag(ghost w: set<Object>, ghost active: set<Object>, ghost pending: set<Object>)
      requires this in w && this !in active && this !in pending && Tree(w) && Inv(w, active + {this}, pending)
      requires parent == null || (queue == [] && execSubObjectSet == {})
      modifies this`isTriggering
      ensures Inv(w, active, pending)
    {
      isTriggering := false;
    }

    /** handleEvent: the queue, then the noted children, then the timers; at the
        end the object is noted again if it has work left, or loses its flag. */
    method HandleEvent(ghost w: set<Object>, ghost height: nat, ghost active: set<Object>, ghost pending: set<Object>,
                       clock: int, ghost l: Ledger, ghost open: set<Object>)
      returns (end: int, ghost l': Ledger)
      requires this in w && this !in active && Tree(w) && Below(w, height)
      requires Outer(this, active + {this}, pending)
      requires Inv(w, active + {this}, pending) && History(w)
      requires Books(w, l, open) && Untouched(this, w, l, open) && clock == l.clock
      modifies w
      ensures Inv(w, active, pending) && History(w)
      ensures Books(w, l', open) && Continues(l, l') && end == l'.clock
      ensures OnlyUnder(this, w, l, l') && this in l'.times && CaughtUp(this, w, l')
      decreases height - depth, 1, 1
    {
      hide *;
      var now;
      ghost var done;
      now, end, done := Work(w, height, active, pending, clock, l, open);
      OuterSelf(this, active, pending);
      WorkParts(this, w, l, done, open, now, end);
      if parent != null && (queue != [] || timerEvents != [] || execSubObjectSet != {}) {
        NotedAgain(this, w, active, pending);
        parent.PushExec(this, w, active, pending, done, open + {this});
      } else {
        ClearFlag(w, active, pending);
      }
      l' := done.(times := done.times[this := (now, end)], clock := end);
      Close(this, w, l, done, l', open, now, end);
    }

    /** The three stages of handleEvent. */
    method Work(ghost w: set<Object>, ghost height: nat, ghost active: set<Object>, ghost pending: set<Object>,
                clock: int, ghost l: Ledger, ghost open: set<Object>)
      returns (now: int, end: int, ghost l': Ledger)
      requires this in w && this !in active && Tree(w) && Below(w, height)
      requires Outer(this, active + {this}, pending)
      requires Inv(w, active + {this}, pending) && History(w)
      requires Books(w, l, open) && Untouched(this, w, l, open) && clock == l.clock
      modifies w
      ensures Inv(w, active + {this}, pending) && History(w)
      ensures Worked(this, w, l, l', open, now, end)
      decreases height - depth, 1, 0
    {
      hide *;
      InActive(this, active);
      UntouchedParts(this, w, l, open);
      BooksParts(w, l, open);
      ghost var a, b;
      PostsOf(this, w, l);
      ghost var all := ran + queue;
      a := HandleTriggerQueue(w, active + {this}, pending, l, open);
      BooksParts(w, a, open);
      GoesParts(l, a);
      QueueCaught(this, w, a, all);
      StillUntouched(this, w, l, a, open);
      var mid;
      mid, b := HandleChildEvent(w, height, active + {this}, pending, clock, a, open);
      BooksParts(w, b, open + {this});
      ContinuesParts(a, b);
      TimersYet(this, w, b);
      ghost var before := timerEvents;
      now, end, l' := HandleTimerEvent(w, active + {this}, pending, mid, b, open + {this});
      WorkDone(this, w, l, a, b, l', open, before, now, end);
    }

    /** getNextTimeOut at the sampled time now: 0 when something can be done at
        once, -1 when the object has neither timers nor noted children, else the
        least time to a deadline. */
    method GetNextTimeOut(now: int, ghost w: set<Object>, ghost height: nat) returns (t: int)
      requires this in w && Tree(w) && Below(w, height) && Shape(w)
      ensures t == 0 ==> exists d :: d in w && ExecUnder(this, d, w) && Ready(d, now)
      ensures t > 0 ==> NothingBefore(this, t, now, w) && Attained(this, t, now, w)
      ensures t < 0 ==> t == -1 && queue == [] && timerEvents == [] && execSubObjectSet == {}
      decreases height - depth
    {
      hide ExecUnder, Tree, Below, Shape, NothingBefore, Attained;
      SelfUnder(this, w);
      if queue != [] {
        return 0;
      }
      if timerEvents == [] && execSubObjectSet == {} {
        return -1;
      }
      FirstIsLeast(this, w);
      t := if timerEvents == [] then NO_DEADLINE else timerEvents[0].deadline - now;
      if t <= 0 {
        return 0;
      }
      AttainedBySelf(this, t, now, w);
      var rest := execSubObjectSet;
      while rest != {}
        invariant rest <= execSubObjectSet && t > 0
        invariant Clear(this, t, now) && Attained(this, t, now, w)
        invariant forall c :: c in execSubObjectSet - rest ==> c in w && NothingBefore(c, t, now, w)
        decreases |rest|
      {
        var i :| i in rest;
        Noted(this, i, w, height);
        var timeout := i.GetNextTimeOut(now, w, height);
        if timeout == 0 {
          UnderThrough(this, i, w);
          return 0;
        }
        Merged(this, i, t, timeout, execSubObjectSet - rest, now, w);
        if timeout > 0 {
          t := if t < timeout then t else timeout;
        }
        assert execSubObjectSet - (rest - {i}) == (execSubObjectSet - rest) + {i};
        rest := rest - {i};
      }
      NothingBeforeAll(this, t, now, w);
    }

    /** One turn of TaskScheduler::exec, from the time clock on: handle, then find
        out how long to wait for the network, at the time asked. */
    method LoopTurn(clock: int, ghost w: set<Object>, ghost height: nat) returns (timeout: int, asked: int, ghost l: Ledger)
      requires this in w && parent == null && Tree(w) && Below(w, height)
      requires Inv(w, {}, {}) && History(w)
      modifies w
      ensures Inv(w, {}, {}) && History(w)
      ensures forall o :: o in w ==> o in l.base && l.base[o] == Snap(old(o.posted), old(o.ran), old(o.execSubObjectSet), old(o.timerEvents))
      ensures Books(w, l, {}) && l.start == clock && l.clock <= asked
      ensures forall d :: d in w && old(ExecUnder(this, d, w)) ==> d in l.times
      ensures forall d, i :: d in w && old(ExecUnder(this, d, w)) && 0 <= i < |old(d.timerEvents)| && old(d.timerEvents)[i].deadline <= clock ==>
                Fired(d, old(d.timerEvents)[i]) in l.trace
      ensures forall d :: d in w && Under(this, d, w) ==> old(d.posted) <= d.ran
      ensures old(TimersNoted(w)) ==> TimersNoted(w)
      ensures timeout == 0 ==> exists d :: d in w && ExecUnder(this, d, w) && Ready(d, asked)
      ensures timeout > 0 ==> NothingBefore(this, timeout, asked, w)
      ensures 0 < timeout < 5000 ==> Attained(this, timeout, asked, w)
      ensures 0 <= timeout <= 5000
      ensures (exists d :: d in w && Under(this, d, w) && d.queue != []) ==> timeout == 0
    {
      hide *;
      ghost var start := Opening(clock, w);
      OpeningIs(clock, w);
      OpeningBooks(clock, w);
      ReachedThen(this, w, clock);
      if TimersNoted(w) {
        NotedThen(w, clock);
      }
      RootStarts(this, w);
      RootUntouched(this, w, clock);
      var end;
      end, l := HandleEvent(w, height, {}, {}, clock, start, {});
      TurnDone(this, w, start, l);
      AllFire(w, l);
      asked :| end <= asked;
      InvShape(w);
      timeout := GetNextTimeOut(asked, w, height);
      Waiting(this, w, timeout, asked);
      if timeout < 0 || timeout > DEFAULT_TIMEOUT_MSEC {
        timeout := DEFAULT_TIMEOUT_MSEC;
      }
    }
  }

  /** d is o, or is reached from o through exec sets. */
  ghost predicate ExecUnder(o: Object, d: Object, w: set<Object>)
    requires Tree(w) && d in w
    reads w`execSubObjectSet
    decreases d.depth
  {
    d == o || (d.parent != null && d in d.parent.execSubObjectSet && ExecUnder(o, d.parent, w))
  }

  /** Something can be done at once. */
  ghost predicate Ready(d: Object, now: int)
    reads d
  {
    d.queue != [] || exists i :: 0 <= i < |d.timerEvents| && d.timerEvents[i].deadline <= now
  }

  /** Nothing can be done at d before t more milliseconds. */
  ghost predicate Clear(d: Object, t: int, now: int)
    reads d
  {
    !Ready(d, now) && forall i :: 0 <= i < |d.timerEvents| ==> t <= d.timerEvents[i].deadline - now
  }

  /** Nor at any object reached from o through exec sets. */
  ghost predicate NothingBefore(o: Object, t: int, now: int, w: set<Object>)
    requires Tree(w)
    reads w
  {
    forall d :: d in w && ExecUnder(o, d, w) ==> Clear(d, t, now)
  }

  /** Some deadline among them is exactly t milliseconds away; the largest 64-bit
      number stands for no deadline. */
  ghost predicate Attained(o: Object, t: int, now: int, w: set<Object>)
    requires Tree(w)
    reads w
  {
    t == 0x7fff_ffff_ffff_ffff
    || exists d, i :: d in w && ExecUnder(o, d, w) && 0 <= i < |d.timerEvents| && t == d.timerEvents[i].deadline - now
  }

  lemma {:induction false} FirstIsLeast(o: Object, w: set<Object>)
    requires o in w && Shape(w)
    ensures forall i :: 0 <= i < |o.timerEvents| ==> o.timerEvents[0].deadline <= o.timerEvents[i].deadline
  {
    assert TimersInside(o.timerEvents, w);
    hide Shape, EventIn;
  }

  lemma {:induction false} BelowHeight(o: Object, w: set<Object>, height: nat)
    requires Below(w, height) && o in w
    ensures o.depth < height
  {
  }

  /** The child of o through which d lies under o. */
  lemma {:induction false} ChildTowards(o: Object, d: Object, w: set<Object>) returns (c: Object)
    requires Tree(w) && d in w && d != o && Under(o, d, w)
    ensures c in w && c.parent == o && Under(c, d, w)
    decreases d.depth
  {
    if d.parent == o {
      c := d;
    } else {
      c := ChildTowards(o, d.parent, w);
    }
  }

  lemma {:induction false} OuterSelf(o: Object, active: set<Object>, pending: set<Object>)
    requires Outer(o, active + {o}, pending)
    ensures o !in pending
  {
  }

  lemma {:induction false} NotedAgain(o: Object, w: set<Object>, active: set<Object>, pending: set<Object>)
    requires Tree(w) && o in w && o.parent != null && Inv(w, active + {o}, pending)
    ensures o.parent in w && Inv(w, active, pending + {o})
  {
  }

  /** Taking the next object out of the set that waits. */
  lemma {:induction false} Handover(i: Object, w: set<Object>, active: set<Object>, pending: set<Object>, execSet: set<Object>)
    requires Tree(w) && i in execSet && Inv(w, active, pending + execSet)
    ensures Inv(w, active + {i}, pending + (execSet - {i}))
  {
  }

  lemma {:induction false} OuterChild(o: Object, i: Object, w: set<Object>, active: set<Object>, pending: set<Object>, rest: set<Object>)
    requires o in active && Outer(o, active, pending) && i.depth == o.depth + 1 && i !in rest
    requires forall c :: c in rest ==> c.depth == o.depth + 1
    ensures i !in active && Outer(i, active + {i}, pending + rest)
  {
  }

  // ---------------------------------------------------------------- the books

  /** What an object was like when the turn began. */
  datatype Snap = Snap(posted: seq<Event>, ran: seq<Event>, exec: set<Object>, timers: seq<TimerEntry>)

  /** What happened in it, in order: an object ran an event of its queue, or one of
      its timers fired. */
  datatype Step = Ran(o: Object, e: Event) | Fired(o: Object, entry: TimerEntry)

  /** The books of a turn: how it began, when, the clock now, what happened, and
      the objects handled, with the two times each has sampled. */
  datatype Ledger = Ledger(base: map<Object, Snap>, start: int, clock: int, trace: seq<Step>, times: map<Object, (int, int)>)

  datatype Was = Was(posted: seq<Event>, queue: seq<Event>, ran: seq<Event>)

  ghost function StepPosts(s: Step): seq<Post> {
    match s
    case Ran(_, e) => e.posts
    case Fired(_, entry) => entry.timeout.posts
  }

  /** The events that posts have for o, in order. */
  ghost function For(posts: seq<Post>, o: Object): seq<Event> {
    if posts == [] then []
    else
      var last := posts[|posts| - 1];
      For(posts[..|posts| - 1], o) + (if last.target == o then [last.event] else [])
  }

  /** As many of them as a queue with some waiting has room for. */
  ghost function Fit(s: seq<Event>, waiting: nat): seq<Event> {
    if waiting + |s| <= CAPACITY then s else if waiting >= CAPACITY then [] else s[..CAPACITY - waiting]
  }

  ghost function Offers(trace: seq<Step>, o: Object): seq<Event> {
    if trace == [] then [] else Offers(trace[..|trace| - 1], o) + For(StepPosts(trace[|trace| - 1]), o)
  }

  ghost function RanBy(trace: seq<Step>, o: Object): seq<Event> {
    if trace == [] then []
    else
      var last := trace[|trace| - 1];
      RanBy(trace[..|trace| - 1], o) + (if last.Ran? && last.o == o then [last.e] else [])
  }

  ghost function FiredBy(trace: seq<Step>, o: Object): seq<TimerEntry> {
    if trace == [] then []
    else
      var last := trace[|trace| - 1];
      FiredBy(trace[..|trace| - 1], o) + (if last.Fired? && last.o == o then [last.entry] else [])
  }

  lemma {:induction false} TraceNext(trace: seq<Step>, s: Step, o: Object)
    ensures Offers(trace + [s], o) == Offers(trace, o) + For(StepPosts(s), o)
    ensures RanBy(trace + [s], o) == RanBy(trace, o) + (if s.Ran? && s.o == o then [s.e] else [])
    ensures FiredBy(trace + [s], o) == FiredBy(trace, o) + (if s.Fired? && s.o == o then [s.entry] else [])
  {
    assert (trace + [s])[..|trace|] == trace;
  }

  /** Of what was offered everything was accepted, as long as there was room. */
  ghost predicate Accepted(b: Snap, offered: seq<Event>, posted: seq<Event>) {
    && |b.ran| <= |b.posted| && b.posted <= posted && |posted| <= |b.posted| + |offered|
    && ((|b.posted| - |b.ran|) + |offered| <= CAPACITY ==> posted == b.posted + offered)
  }

  lemma {:induction false} AcceptedNext(b: Snap, offered: seq<Event>, posted: seq<Event>, x: seq<Event>, waiting: nat)
    requires Accepted(b, offered, posted) && waiting <= |posted| - |b.ran|
    ensures Accepted(b, offered + x, posted + Fit(x, waiting))
  {
    assert |Fit(x, waiting)| <= |x|;
    if (|b.posted| - |b.ran|) + |offered + x| <= CAPACITY {
      assert Fit(x, waiting) == x;
      assert b.posted + offered + x == b.posted + (offered + x);
    }
  }

  ghost predicate RanBooks(w: set<Object>, l: Ledger)
    reads w`ran
  {
    forall o :: o in w ==> o in l.base && o.ran == l.base[o].ran + RanBy(l.trace, o)
  }

  ghost predicate PostBooks(w: set<Object>, l: Ledger)
    reads w`posted
  {
    forall o :: o in w ==> o in l.base && Accepted(l.base[o], Offers(l.trace, o), o.posted)
  }

  /** A handled object has fired what was due and armed it again; the others have
      their timers as they were. */
  ghost predicate TimerBooks(w: set<Object>, l: Ledger)
    reads w`timerEvents
  {
    forall o :: o in w ==> o in l.base && TimersAs(l.base[o].timers, l.trace, l.times, o, o.timerEvents)
  }

  ghost predicate TimersAs(before: seq<TimerEntry>, trace: seq<Step>, times: map<Object, (int, int)>, o: Object, timers: seq<TimerEntry>) {
    if o in times then timers == After(before, times[o].0, times[o].1) && FiredBy(trace, o) == Due(before, times[o].0)
    else timers == before && FiredBy(trace, o) == []
  }

  /** Exec sets have not shrunk where they have not been taken; and a handled object
      with timers left is noted by its parent. */
  ghost predicate ExecBooks(w: set<Object>, l: Ledger, open: set<Object>)
    requires Tree(w)
    reads w`execSubObjectSet, w`timerEvents
  {
    && (forall o :: o in w && o !in l.times && o !in open ==> o in l.base && forall c :: c in l.base[o].exec ==> c in o.execSubObjectSet)
    && (forall d :: d in w && d in l.times && d.parent != null && d.timerEvents != [] ==> d in d.parent.execSubObjectSet)
  }

  /** Whoever was noted by a handled object is handled. */
  ghost predicate TimesBooks(w: set<Object>, l: Ledger) {
    && (forall o :: o in l.times ==> o in w)
    && (forall o :: o in w ==> o in l.base && Ordered(l.base[o].timers))
    && (forall o, c :: o in l.times && c in l.base[o].exec ==> c in l.times)
    && (forall o :: o in l.times ==> l.start <= l.times[o].0 <= l.times[o].1 <= l.clock)
    && l.start <= l.clock
  }

  ghost predicate Books(w: set<Object>, l: Ledger, open: set<Object>)
    requires Tree(w)
    reads w`ran, w`posted, w`timerEvents, w`execSubObjectSet
  {
    RanBooks(w, l) && PostBooks(w, l) && TimerBooks(w, l) && ExecBooks(w, l, open) && TimesBooks(w, l)
  }

  /** All books but the timers of o. */
  ghost predicate BooksBut(w: set<Object>, o: Object, l: Ledger, open: set<Object>)
    requires Tree(w)
    reads w`ran, w`posted, w`timerEvents, w`execSubObjectSet
  {
    RanBooks(w, l) && PostBooks(w, l) && TimerBooks(w - {o}, l) && ExecBooks(w, l, open) && TimesBooks(w, l)
  }

  /** More has happened. */
  ghost predicate Goes(l: Ledger, l': Ledger) {
    l' == l.(trace := l'.trace) && l.trace <= l'.trace
  }

  ghost predicate Continues(l: Ledger, l': Ledger) {
    && l'.base == l.base && l'.start == l.start && l.clock <= l'.clock && l.trace <= l'.trace
    && forall o :: o in l.times ==> o in l'.times && l'.times[o] == l.times[o]
  }

  /** Everything o had accepted when the turn began has been run. */
  ghost predicate Caught(l: Ledger, o: Object) {
    o in l.base && l.base[o].posted <= l.base[o].ran + RanBy(l.trace, o)
  }

  ghost predicate CaughtUp(o: Object, w: set<Object>, l: Ledger)
    requires Tree(w)
  {
    forall d :: d in w && Under(o, d, w) ==> Caught(l, d)
  }

  /** Nothing under o has been handled or is being handled. */
  ghost predicate Untouched(o: Object, w: set<Object>, l: Ledger, open: set<Object>)
    requires Tree(w)
  {
    forall d :: d in w && Under(o, d, w) ==> d !in l.times && d !in open
  }

  /** Only objects under o have been handled meanwhile. */
  ghost predicate OnlyUnder(o: Object, w: set<Object>, l: Ledger, l': Ledger)
    requires Tree(w)
  {
    forall d :: d in l'.times ==> d in l.times || (d in w && Under(o, d, w))
  }

  ghost predicate PostedExactly(w: set<Object>, was: map<Object, Was>, posts: seq<Post>)
    reads w`posted, w`queue, w`ran
  {
    forall o :: o in w ==>
      && o in was && o.ran == was[o].ran
      && o.posted == was[o].posted + Fit(For(posts, o), |was[o].queue|)
      && o.queue == was[o].queue + Fit(For(posts, o), |was[o].queue|)
  }

  // ---------------------------------------------------------------- keeping the books

  lemma {:induction false} GoesNowhere(l: Ledger)
    ensures Goes(l, l) && Continues(l, l)
  {
  }

  lemma {:induction false} StepGoes(l: Ledger, s: Step)
    ensures Goes(l, l.(trace := l.trace + [s]))
  {
  }

  lemma {:induction false} GoesParts(l: Ledger, l': Ledger)
    requires Goes(l, l')
    ensures l'.base == l.base && l'.start == l.start && l'.clock == l.clock && l'.times == l.times && l.trace <= l'.trace
  {
  }

  lemma {:induction false} ContinuesParts(l: Ledger, l': Ledger)
    requires Continues(l, l')
    ensures l'.base == l.base && l'.start == l.start && l.clock <= l'.clock && l.trace <= l'.trace
  {
  }

  lemma {:induction false} GoesOn(a: Ledger, b: Ledger, c: Ledger)
    requires Goes(a, b) && Goes(b, c)
    ensures Goes(a, c)
  {
  }

  lemma {:induction false} BooksParts(w: set<Object>, l: Ledger, open: set<Object>)
    requires Tree(w) && Books(w, l, open)
    ensures RanBooks(w, l) && PostBooks(w, l) && TimerBooks(w, l) && ExecBooks(w, l, open) && TimesBooks(w, l)
  {
  }

  lemma {:induction false} BooksWhole(w: set<Object>, l: Ledger, open: set<Object>)
    requires Tree(w)
    requires RanBooks(w, l) && PostBooks(w, l) && TimerBooks(w, l) && ExecBooks(w, l, open) && TimesBooks(w, l)
    ensures Books(w, l, open)
  {
  }

  lemma {:induction false} BooksButWhole(w: set<Object>, o: Object, l: Ledger, open: set<Object>)
    requires Tree(w)
    requires RanBooks(w, l) && PostBooks(w, l) && TimerBooks(w - {o}, l) && ExecBooks(w, l, open) && TimesBooks(w, l)
    ensures BooksBut(w, o, l, open)
  {
  }

  /** The books in terms of what was. */
  ghost predicate WasBooked(w: set<Object>, was: map<Object, Was>, l: Ledger, o: Object, gone: seq<Event>) {
    && (forall d :: d in w ==>
          && d in was && d in l.base
          && was[d].ran == l.base[d].ran + RanBy(l.trace, d)
          && Accepted(l.base[d], Offers(l.trace, d), was[d].posted)
          && |was[d].queue| <= |was[d].posted| - |was[d].ran|)
    && (forall d :: d in w && d != o ==> was[d].posted == was[d].ran + was[d].queue)
    && (o in w ==> was[o].posted == was[o].ran + gone + was[o].queue)
  }

  lemma {:induction false} BooksThen(w: set<Object>, was: map<Object, Was>, l: Ledger, o: Object, gone: seq<Event>)
    requires o in w && RanBooks(w, l) && PostBooks(w, l)
    requires forall d :: d in w ==> d in was && was[d] == Was(d.posted, d.queue, d.ran)
    requires History(w - {o}) && o.posted == o.ran + gone + o.queue
    ensures WasBooked(w, was, l, o, gone)
  {
    hide Accepted, Offers, RanBy;
  }

  lemma {:induction false} HistoryAfter(w: set<Object>, was: map<Object, Was>, l: Ledger, posts: seq<Post>, o: Object, gone: seq<Event>)
    requires o in w && WasBooked(w, was, l, o, gone) && PostedExactly(w, was, posts)
    ensures History(w - {o}) && o.posted == o.ran + gone + o.queue
  {
    hide Accepted, Offers, RanBy, For, Fit;
    forall d | d in w - {o} ensures d.posted == d.ran + d.queue {
    }
  }

  lemma {:induction false} PostsAfter(w: set<Object>, was: map<Object, Was>, l: Ledger, l': Ledger, s: Step, o: Object, gone: seq<Event>)
    requires WasBooked(w, was, l, o, gone) && PostedExactly(w, was, StepPosts(s))
    requires l' == l.(trace := l.trace + [s])
    ensures PostBooks(w, l')
  {
    hide Accepted, Offers, RanBy, FiredBy, For, Fit, StepPosts;
    forall d | d in w ensures d in l'.base && Accepted(l'.base[d], Offers(l'.trace, d), d.posted) {
      TraceNext(l.trace, s, d);
      AcceptedNext(l.base[d], Offers(l.trace, d), was[d].posted, For(StepPosts(s), d), |was[d].queue|);
    }
  }

  lemma {:induction false} RanAfter(w: set<Object>, was: map<Object, Was>, l: Ledger, l': Ledger, o: Object, e: Event, gone: seq<Event>)
    requires WasBooked(w, was, l, o, gone) && l' == l.(trace := l.trace + [Ran(o, e)])
    requires forall d :: d in w ==> d.ran == was[d].ran + (if d == o then [e] else [])
    ensures RanBooks(w, l')
  {
    hide Accepted, Offers, RanBy, FiredBy, StepPosts;
    forall d | d in w ensures d in l'.base && d.ran == l'.base[d].ran + RanBy(l'.trace, d) {
      TraceNext(l.trace, Ran(o, e), d);
    }
  }

  lemma {:induction false} RanExactly(w: set<Object>, was: map<Object, Was>, posts: seq<Post>)
    requires PostedExactly(w, was, posts)
    ensures forall d :: d in w ==> d in was && d.ran == was[d].ran
  {
    hide For, Fit;
  }

  lemma {:induction false} RanKept(w: set<Object>, l: Ledger, l': Ledger, o: Object, entry: TimerEntry)
    requires RanBooks(w, l) && l' == l.(trace := l.trace + [Fired(o, entry)])
    ensures RanBooks(w, l')
  {
    hide Offers, RanBy, FiredBy, StepPosts;
    forall d | d in w ensures d in l'.base && d.ran == l'.base[d].ran + RanBy(l'.trace, d) {
      TraceNext(l.trace, Fired(o, entry), d);
      assert RanBy(l.trace, d) + [] == RanBy(l.trace, d);
    }
  }

  lemma {:induction false} TimersAfter(w: set<Object>, l: Ledger, l': Ledger, o: Object, e: Event)
    requires TimerBooks(w, l) && l' == l.(trace := l.trace + [Ran(o, e)])
    ensures TimerBooks(w, l')
  {
    hide Offers, RanBy, FiredBy, StepPosts, After, Due;
    forall d | d in w ensures d in l'.base && TimersAs(l'.base[d].timers, l'.trace, l'.times, d, d.timerEvents) {
      TraceNext(l.trace, Ran(o, e), d);
      assert FiredBy(l.trace, d) + [] == FiredBy(l.trace, d);
    }
  }

  lemma {:induction false} FiredAfter(w: set<Object>, l: Ledger, l': Ledger, o: Object, entry: TimerEntry)
    requires TimerBooks(w, l) && o !in w && l' == l.(trace := l.trace + [Fired(o, entry)])
    ensures TimerBooks(w, l') && FiredBy(l'.trace, o) == FiredBy(l.trace, o) + [entry]
  {
    hide Offers, RanBy, FiredBy, StepPosts, After, Due;
    TraceNext(l.trace, Fired(o, entry), o);
    forall d | d in w ensures d in l'.base && TimersAs(l'.base[d].timers, l'.trace, l'.times, d, d.timerEvents) {
      TraceNext(l.trace, Fired(o, entry), d);
      assert FiredBy(l.trace, d) + [] == FiredBy(l.trace, d);
    }
  }

  lemma {:induction false} ExecsAfter(w: set<Object>, l: Ledger, l': Ledger, open: set<Object>)
    requires Tree(w) && l' == l.(trace := l'.trace)
    ensures ExecBooks(w, l, open) ==> ExecBooks(w, l', open)
    ensures TimesBooks(w, l) ==> TimesBooks(w, l')
  {
  }

  lemma {:induction false} PostsAreSteps(o: Object, e: Event)
    ensures StepPosts(Ran(o, e)) == e.posts
  {
  }

  lemma {:induction false} TimeoutsAreSteps(o: Object, entry: TimerEntry)
    ensures StepPosts(Fired(o, entry)) == entry.timeout.posts
  {
  }

  lemma {:induction false} NothingGone(o: Object, w: set<Object>)
    requires o in w && History(w)
    ensures History(w - {o}) && o.posted == o.ran + [] + o.queue
  {
    assert o.ran + [] == o.ran;
  }

  lemma {:induction false} WholeHistory(o: Object, w: set<Object>)
    requires o in w && History(w - {o}) && o.posted == o.ran + o.queue
    ensures History(w)
  {
  }

  /** Below an object that handles its children, a child that is not noted has
      nothing waiting under it. */
  lemma {:induction false} QuietChildren(o: Object, w: set<Object>, active: set<Object>, pending: set<Object>)
    requires o in w && o in active && Tree(w) && Outer(o, active, pending) && Inv(w, active, pending) && History(w)
    ensures forall c, d :: c in w && c.parent == o && c !in o.execSubObjectSet && d in w && Under(c, d, w) ==>
              d.posted == d.ran
  {
    forall c, d | c in w && c.parent == o && c !in o.execSubObjectSet && d in w && Under(c, d, w)
      ensures d.posted == d.ran
    {
      QuietUnder(o, c, d, w, active, pending);
    }
  }

  lemma {:induction false} QuietUnder(o: Object, c: Object, d: Object, w: set<Object>, active: set<Object>, pending: set<Object>)
    requires o in w && o in active && Tree(w) && Outer(o, active, pending) && Inv(w, active, pending) && History(w)
    requires c in w && c.parent == o && c !in o.execSubObjectSet && d in w && Under(c, d, w)
    ensures !d.isTriggering && d.posted == d.ran && d.depth > o.depth && d.parent != null
    decreases d.depth
  {
    if d != c {
      QuietUnder(o, c, d.parent, w, active, pending);
    }
  }

  // ---------------------------------------------------------------- timers

  /** How many entries at the front are due. */
  function DueCount(timers: seq<TimerEntry>, now: int): (n: nat)
    ensures n <= |timers|
  {
    if timers == [] || timers[0].deadline > now then 0 else 1 + DueCount(timers[1..], now)
  }

  function Due(timers: seq<TimerEntry>, now: int): seq<TimerEntry> {
    timers[..DueCount(timers, now)]
  }

  function Kept(timers: seq<TimerEntry>, now: int): seq<TimerEntry> {
    timers[DueCount(timers, now)..]
  }

  lemma {:induction false} DueCounted(timers: seq<TimerEntry>, now: int, n: nat)
    requires n <= |timers| && forall i :: 0 <= i < n ==> timers[i].deadline <= now
    requires n < |timers| ==> timers[n].deadline > now
    ensures DueCount(timers, now) == n
  {
    if n == 0 {
    } else {
      DueCounted(timers[1..], now, n - 1);
    }
  }

  function Cycle(timers: seq<TimerEntry>): seq<TimerEntry> {
    if timers == [] then []
    else Cycle(timers[..|timers| - 1]) + (if timers[|timers| - 1].single then [] else [timers[|timers| - 1]])
  }

  /** emplace: behind the entries with the same deadline or an earlier one. */
  function Emplaced(timers: seq<TimerEntry>, e: TimerEntry): (r: seq<TimerEntry>)
    ensures |r| == |timers| + 1
  {
    if timers == [] || e.deadline >= timers[|timers| - 1].deadline then timers + [e]
    else Emplaced(timers[..|timers| - 1], e) + [timers[|timers| - 1]]
  }

  function EmplacedAll(timers: seq<TimerEntry>, queue: seq<TimerEntry>, later: int): seq<TimerEntry> {
    if queue == [] then timers
    else
      var last := queue[|queue| - 1];
      Emplaced(EmplacedAll(timers, queue[..|queue| - 1], later), last.(deadline := later + last.interval))
  }

  /** The index after a pass at now that re-arms at later. */
  function After(timers: seq<TimerEntry>, now: int, later: int): seq<TimerEntry> {
    EmplacedAll(Kept(timers, now), Cycle(Due(timers, now)), later)
  }

  lemma {:induction false} AfterIs(timers: seq<TimerEntry>, now: int, later: int)
    ensures After(timers, now, later) == EmplacedAll(timers[|Due(timers, now)|..], Cycle(Due(timers, now)), later)
  {
    hide EmplacedAll, Cycle, DueCount;
  }

  ghost predicate Ordered(timers: seq<TimerEntry>) {
    forall i, j :: 0 <= i < j < |timers| ==> timers[i].deadline <= timers[j].deadline
  }

  ghost predicate TimersInside(timers: seq<TimerEntry>, w: set<Object>) {
    Ordered(timers) && forall i :: 0 <= i < |timers| ==> EventIn(timers[i].timeout, w)
  }

  ghost predicate EntriesInside(timers: seq<TimerEntry>, w: set<Object>) {
    forall i :: 0 <= i < |timers| ==> EventIn(timers[i].timeout, w)
  }

  lemma {:induction false} EntryInside(timers: seq<TimerEntry>, i: nat, w: set<Object>)
    requires EntriesInside(timers, w) && i < |timers|
    ensures EventIn(timers[i].timeout, w)
  {
  }

  lemma {:induction false} OrderedFront(timers: seq<TimerEntry>)
    requires Ordered(timers) && timers != []
    ensures var n := |timers| - 1;
            timers == timers[..n] + [timers[n]] && Ordered(timers[..n]) && (n > 0 ==> timers[n - 1].deadline <= timers[n].deadline)
  {
  }

  lemma {:induction false} OrderedNext(timers: seq<TimerEntry>, e: TimerEntry)
    requires Ordered(timers) && (timers != [] ==> timers[|timers| - 1].deadline <= e.deadline)
    ensures Ordered(timers + [e])
  {
  }

  lemma {:induction false} EmplacedCases(timers: seq<TimerEntry>, e: TimerEntry)
    ensures Emplaced(timers, e) ==
            if timers == [] || e.deadline >= timers[|timers| - 1].deadline then timers + [e]
            else Emplaced(timers[..|timers| - 1], e) + [timers[|timers| - 1]]
  {
  }

  /** An entry emplaced is in the index, with what was there, and the index is still
      in order. */
  lemma {:induction false} EmplacedMeans(timers: seq<TimerEntry>, e: TimerEntry)
    requires Ordered(timers)
    ensures Ordered(Emplaced(timers, e)) && e in Emplaced(timers, e)
    ensures forall i :: 0 <= i < |timers| ==> timers[i] in Emplaced(timers, e)
    ensures forall i :: 0 <= i <= |timers| ==> Emplaced(timers, e)[i] == e || Emplaced(timers, e)[i] in timers
    ensures Emplaced(timers, e)[|timers|].deadline ==
            if timers == [] || e.deadline >= timers[|timers| - 1].deadline then e.deadline else timers[|timers| - 1].deadline
  {
    hide *;
    EmplacedCases(timers, e);
    if timers == [] || e.deadline >= timers[|timers| - 1].deadline {
      OrderedNext(timers, e);
    } else {
      var n := |timers| - 1;
      var front, last := timers[..n], timers[n];
      OrderedFront(timers);
      EmplacedMeans(front, e);
      assert n > 0 ==> front[n - 1] == timers[n - 1];
      OrderedNext(Emplaced(front, e), last);
      AllIn(front, last, Emplaced(front, e), e);
    }
  }

  lemma {:induction false} AllIn(front: seq<TimerEntry>, last: TimerEntry, r: seq<TimerEntry>, e: TimerEntry)
    requires |r| == |front| + 1 && e in r
    requires forall i :: 0 <= i < |front| ==> front[i] in r
    requires forall i :: 0 <= i <= |front| ==> r[i] == e || r[i] in front
    ensures var timers, all := front + [last], r + [last];
            && e in all && (forall i :: 0 <= i < |timers| ==> timers[i] in all)
            && (forall i :: 0 <= i <= |timers| ==> all[i] == e || all[i] in timers)
  {
  }

  lemma {:induction false} EmplacedInside(timers: seq<TimerEntry>, e: TimerEntry, w: set<Object>)
    requires TimersInside(timers, w) && EventIn(e.timeout, w)
    ensures TimersInside(Emplaced(timers, e), w)
  {
    EmplacedMeans(timers, e);
    hide Emplaced, Ordered, EventIn;
    forall i | 0 <= i < |Emplaced(timers, e)| ensures EventIn(Emplaced(timers, e)[i].timeout, w) {
      if Emplaced(timers, e)[i] != e {
        var j :| 0 <= j < |timers| && timers[j] == Emplaced(timers, e)[i];
      }
    }
  }

  method Emplace(timers: seq<TimerEntry>, e: TimerEntry) returns (r: seq<TimerEntry>)
    ensures r == Emplaced(timers, e)
  {
    hide *;
    var n := |timers|;
    assert timers[..n] == timers && Emplaced(timers, e) + [] == Emplaced(timers, e);
    while n > 0 && e.deadline < timers[n - 1].deadline
      invariant 0 <= n <= |timers|
      invariant Emplaced(timers, e) == Emplaced(timers[..n], e) + timers[n..]
    {
      EmplacedCases(timers[..n], e);
      assert timers[..n][..n - 1] == timers[..n - 1] && timers[n - 1..] == [timers[n - 1]] + timers[n..];
      assert Emplaced(timers[..n - 1], e) + [timers[n - 1]] + timers[n..] == Emplaced(timers[..n - 1], e) + timers[n - 1..];
      n := n - 1;
    }
    EmplacedCases(timers[..n], e);
    r := timers[..n] + [e] + timers[n..];
  }

  lemma {:induction false} EmplacedNone(timers: seq<TimerEntry>, later: int)
    ensures EmplacedAll(timers, [], later) == timers
  {
  }

  lemma {:induction false} EmplacedNext(timers: seq<TimerEntry>, queue: seq<TimerEntry>, i: nat, later: int)
    requires i < |queue|
    ensures EmplacedAll(timers, queue[..i + 1], later)
         == Emplaced(EmplacedAll(timers, queue[..i], later), queue[i].(deadline := later + queue[i].interval))
  {
    assert queue[..i + 1][..i] == queue[..i];
    hide Emplaced;
  }

  lemma {:induction false} TimersInsideAll(o: Object, w: set<Object>, active: set<Object>, pending: set<Object>)
    requires o in w && Tree(w) && Inv(w, active, pending)
    ensures TimersInside(o.timerEvents, w)
  {
    hide TimersInside;
  }

  lemma {:induction false} TimersInsideAt(o: Object, w: set<Object>, n: nat)
    requires o in w && Shape(w) && n <= |o.timerEvents|
    ensures EntriesInside(o.timerEvents[..n], w) && TimersInside(o.timerEvents[n..], w)
  {
    assert TimersInside(o.timerEvents, w);
    hide Shape, EventIn;
  }

  lemma {:induction false} DueIs(timers: seq<TimerEntry>, now: int, n: nat)
    requires DueCount(timers, now) == n
    ensures Due(timers, now) == timers[..n]
  {
  }

  lemma {:induction false} NothingFired(o: Object, w: set<Object>, l: Ledger)
    requires o in w && TimerBooks(w, l) && o !in l.times
    ensures FiredBy(l.trace, o) == []
  {
    hide FiredBy, After, Due;
  }

  lemma {:induction false} NothingCycles()
    ensures Cycle([]) == []
  {
  }

  lemma {:induction false} CycleStep(timers: seq<TimerEntry>, i: nat)
    requires i < |timers|
    ensures Cycle(timers[..i + 1]) == Cycle(timers[..i]) + (if timers[i].single then [] else [timers[i]])
  {
    assert timers[..i + 1][..i] == timers[..i];
  }

  lemma {:induction false} CycleInside(timers: seq<TimerEntry>, w: set<Object>)
    requires EntriesInside(timers, w)
    ensures EntriesInside(Cycle(timers), w)
  {
    if timers == [] {
    } else {
      CycleInside(timers[..|timers| - 1], w);
    }
  }

  ghost predicate Below(w: set<Object>, height: nat) {
    forall o :: o in w ==> o.depth < height
  }

  /** The objects being handled are this one and some above it, and what waits in
      taken-out exec sets is no deeper than it. */
  ghost predicate Outer(o: Object, active: set<Object>, pending: set<Object>) {
    && (forall a :: a in active && a != o ==> a.depth < o.depth)
    && (forall p :: p in pending ==> p.depth <= o.depth && p != o)
  }

  /** d is o or has o among its ancestors. */
  ghost predicate Under(o: Object, d: Object, w: set<Object>)
    requires Tree(w) && d in w
    decreases d.depth
  {
    d == o || (d.parent != null && Under(o, d.parent, w))
  }

  // ---------------------------------------------------------------- running

  /** Running an event: what it posts is accepted, in order, as far as there is
      room, and nothing else. */
  method Run(e: Event, ghost w: set<Object>, ghost active: set<Object>, ghost pending: set<Object>,
             ghost was: map<Object, Was>, ghost l: Ledger, ghost open: set<Object>)
    requires EventIn(e, w) && Tree(w) && Inv(w, active, pending) && ExecBooks(w, l, open)
    requires forall o :: o in w ==> o in was && was[o] == Was(o.posted, o.queue, o.ran)
    modifies w`queue, w`execSubObjectSet, w`isTriggering, w`posted
    ensures Inv(w, active, pending) && ExecBooks(w, l, open) && PostedExactly(w, was, e.posts)
  {
    hide *;
    var i := 0;
    NothingPosted(w, was);
    assert e.posts[..0] == [];
    while i < |e.posts|
      invariant 0 <= i <= |e.posts|
      invariant Inv(w, active, pending) && ExecBooks(w, l, open) && PostedExactly(w, was, e.posts[..i])
    {
      PostInside(e, i, w);
      PostOne(e.posts[..i], e.posts[i], w, active, pending, was, l, open);
      assert e.posts[..i] + [e.posts[i]] == e.posts[..i + 1];
      i := i + 1;
    }
    assert e.posts[..i] == e.posts;
  }

  /** One turn of that loop. */
  method PostOne(ghost done: seq<Post>, post: Post, ghost w: set<Object>, ghost active: set<Object>, ghost pending: set<Object>,
                 ghost was: map<Object, Was>, ghost l: Ledger, ghost open: set<Object>)
    requires post.target in w && EventIn(post.event, w) && Tree(w) && Inv(w, active, pending) && ExecBooks(w, l, open)
    requires PostedExactly(w, was, done)
    modifies w`queue, w`execSubObjectSet, w`isTriggering, w`posted
    ensures Inv(w, active, pending) && ExecBooks(w, l, open) && PostedExactly(w, was, done + [post])
  {
    hide *;
    ghost var mid := map o | o in w :: Was(o.posted, o.queue, o.ran);
    ExactlyThen(w, was, done, mid);
    var ok := post.target.AddTriggerEvent(post.event, w, active, pending, l, open);
    OneMorePosted(w, was, done, mid, post, ok);
  }

  lemma {:induction false} PostInside(e: Event, i: nat, w: set<Object>)
    requires EventIn(e, w) && i < |e.posts|
    ensures e.posts[i].target in w && EventIn(e.posts[i].event, w)
  {
  }

  lemma {:induction false} NothingPosted(w: set<Object>, was: map<Object, Was>)
    requires forall o :: o in w ==> o in was && was[o] == Was(o.posted, o.queue, o.ran)
    ensures PostedExactly(w, was, [])
  {
    forall o | o in w ensures o.posted == was[o].posted + Fit(For([], o), |was[o].queue|) {
      assert Fit(For([], o), |was[o].queue|) == [];
    }
    forall o | o in w ensures o.queue == was[o].queue + Fit(For([], o), |was[o].queue|) {
      assert Fit(For([], o), |was[o].queue|) == [];
    }
  }

  lemma {:induction false} ExactlyThen(w: set<Object>, was: map<Object, Was>, posts: seq<Post>, mid: map<Object, Was>)
    requires PostedExactly(w, was, posts)
    requires forall o :: o in w ==> o in mid && mid[o] == Was(o.posted, o.queue, o.ran)
    ensures ThenExactly(w, was, posts, mid)
  {
    hide For, Fit;
  }

  /** PostedExactly, of what was then. */
  ghost predicate ThenExactly(w: set<Object>, was: map<Object, Was>, posts: seq<Post>, mid: map<Object, Was>) {
    forall o :: o in w ==>
      && o in was && o in mid && mid[o].ran == was[o].ran
      && mid[o].posted == was[o].posted + Fit(For(posts, o), |was[o].queue|)
      && mid[o].queue == was[o].queue + Fit(For(posts, o), |was[o].queue|)
  }

  lemma {:induction false} OneMorePosted(w: set<Object>, was: map<Object, Was>, done: seq<Post>, mid: map<Object, Was>, post: Post, ok: bool)
    requires ThenExactly(w, was, done, mid) && post.target in w
    requires ok == (|mid[post.target].queue| < 100000)
    requires forall o :: o in w ==> o.ran == mid[o].ran
    requires forall o :: o in w && o != post.target ==> o.queue == mid[o].queue && o.posted == mid[o].posted
    requires post.target.queue == mid[post.target].queue + (if ok then [post.event] else [])
    requires post.target.posted == mid[post.target].posted + (if ok then [post.event] else [])
    ensures PostedExactly(w, was, done + [post])
  {
    hide For, Fit;
    forall o | o in w
      ensures o.posted == was[o].posted + Fit(For(done + [post], o), |was[o].queue|)
      ensures o.queue == was[o].queue + Fit(For(done + [post], o), |was[o].queue|)
    {
      PostFits(was[o], mid[o], done, post, o, o.posted, o.queue);
    }
  }

  lemma {:induction false} PostFits(was: Was, mid: Was, done: seq<Post>, post: Post, o: Object, posted: seq<Event>, queue: seq<Event>)
    requires mid.posted == was.posted + Fit(For(done, o), |was.queue|) && mid.queue == was.queue + Fit(For(done, o), |was.queue|)
    requires o != post.target ==> posted == mid.posted && queue == mid.queue
    requires o == post.target ==>
               var more := if |mid.queue| < CAPACITY then [post.event] else [];
               posted == mid.posted + more && queue == mid.queue + more
    ensures posted == was.posted + Fit(For(done + [post], o), |was.queue|)
    ensures queue == was.queue + Fit(For(done + [post], o), |was.queue|)
  {
    hide *;
    ForNext(done, post, o);
    if o == post.target {
      var x, more := Fit(For(done, o), |was.queue|), if |mid.queue| < CAPACITY then [post.event] else [];
      FitNext(For(done, o), post.event, |was.queue|);
      assert x + [] == x;
      assert was.posted + x + more == was.posted + (x + more) && was.queue + x + more == was.queue + (x + more);
    }
  }

  lemma {:induction false} ForNext(posts: seq<Post>, post: Post, o: Object)
    ensures For(posts + [post], o) == if post.target == o then For(posts, o) + [post.event] else For(posts, o)
  {
    assert (posts + [post])[..|posts|] == posts;
    assert For(posts, o) + [] == For(posts, o);
  }

  lemma {:induction false} FitNext(s: seq<Event>, e: Event, waiting: nat)
    ensures Fit(s + [e], waiting)
         == if waiting + |Fit(s, waiting)| < CAPACITY then Fit(s, waiting) + [e] else Fit(s, waiting)
  {
    if waiting + |s| < CAPACITY {
    } else if waiting < CAPACITY {
      assert (s + [e])[..CAPACITY - waiting] == s[..CAPACITY - waiting];
      assert s[..|s|] == s;
    }
  }

  /** What was accepted is what was run and what still waits, in order. */
  ghost predicate History(w: set<Object>)
    reads w`posted, w`queue, w`ran
  {
    forall o :: o in w ==> o.posted == o.ran + o.queue
  }

  // ---------------------------------------------------------------- the invariant

  ghost predicate EventIn(e: Event, w: set<Object>) {
    forall i :: 0 <= i < |e.posts| ==> e.posts[i].target in w && EventIn(e.posts[i].event, w)
  }

  /** w holds the parent of each of its objects. */
  ghost predicate Tree(w: set<Object>) {
    forall o :: o in w && o.parent != null ==> o.parent in w && o.depth == o.parent.depth + 1
  }

  /** Only children are noted, all of them flagged; all events stay in the tree. */
  ghost predicate Shape(w: set<Object>)
    reads w`queue, w`execSubObjectSet, w`isTriggering, w`timerEvents
  {
    && (forall o, c :: o in w && c in o.execSubObjectSet ==> c in w && c.parent == o && c.isTriggering)
    && (forall o, e :: o in w && e in o.queue ==> EventIn(e, w))
    && (forall o :: o in w ==> TimersInside(o.timerEvents, w))
  }

  /** A flagged object is noted by its parent, or is being handled, or waits in
      the exec set its parent has taken out to handle. */
  ghost predicate Covered(w: set<Object>, active: set<Object>, pending: set<Object>)
    requires Tree(w)
    reads w`execSubObjectSet, w`isTriggering
  {
    && (forall o :: o in w && o.parent != null && o.isTriggering ==>
          o in o.parent.execSubObjectSet || o in active || o in pending)
    && (forall o :: o in w && (o in active || o in pending) && o.parent != null ==>
          o.isTriggering && o !in o.parent.execSubObjectSet)
  }

  /** An object with work to do is flagged. */
  ghost predicate Flagged(w: set<Object>)
    reads w`queue, w`execSubObjectSet, w`isTriggering
  {
    forall o :: o in w && o.parent != null && (o.queue != [] || o.execSubObjectSet != {}) ==> o.isTriggering
  }

  ghost predicate Inv(w: set<Object>, active: set<Object>, pending: set<Object>)
    requires Tree(w)
    reads w`queue, w`execSubObjectSet, w`isTriggering, w`timerEvents
  {
    Shape(w) && Covered(w, active, pending) && Flagged(w)
  }

  // ---------------------------------------------------------------- handling children

  lemma {:induction false} ExecsNoted(o: Object, w: set<Object>, l: Ledger, open: set<Object>)
    requires o in w && Tree(w) && ExecBooks(w, l, open) && Untouched(o, w, l, open)
    ensures o in l.base && (forall c :: c in l.base[o].exec ==> c in o.execSubObjectSet) && o !in l.times && o !in open
  {
    assert Under(o, o, w);
  }

  lemma {:induction false} NothingTouched(o: Object, w: set<Object>, l: Ledger, open: set<Object>)
    requires o in w && Tree(w) && Untouched(o, w, l, open)
    ensures forall d :: d in w && d.parent == o ==> d !in l.times
  {
    forall d | d in w && d.parent == o ensures Under(o, d, w) {
      assert Under(o, o, w);
    }
  }

  /** Where the loop over the children is. */
  ghost predicate ChildrenDone(o: Object, w: set<Object>, noted: set<Object>, execSet: set<Object>, l: Ledger, l': Ledger, open: set<Object>)
    requires Tree(w)
  {
    && Continues(l, l') && OnlyUnder(o, w, l, l') && o !in l'.times
    && (forall c :: c in noted && c !in execSet ==> c in l'.times)
    && (forall c :: c in execSet ==> Untouched(c, w, l', open + {o}))
    && (forall c :: c in w && c.parent == o && c !in execSet ==> CaughtUp(c, w, l'))
  }

  lemma {:induction false} QuietCaught(o: Object, w: set<Object>, l: Ledger)
    requires Tree(w) && o in w && RanBooks(w, l) && PostBooks(w, l)
    requires forall c, d :: c in w && c.parent == o && c !in o.execSubObjectSet && d in w && Under(c, d, w) ==> d.posted == d.ran
    ensures forall c :: c in w && c.parent == o && c !in o.execSubObjectSet ==> CaughtUp(c, w, l)
  {
    hide RanBy, Offers;
  }

  lemma {:induction false} ChildrenStart(o: Object, w: set<Object>, execSet: set<Object>, l: Ledger, open: set<Object>)
    requires Tree(w) && o in w && o !in l.times && Untouched(o, w, l, open)
    requires forall c :: c in execSet ==> c in w && c.parent == o
    requires forall c :: c in w && c.parent == o && c !in execSet ==> CaughtUp(c, w, l)
    ensures ChildrenDone(o, w, execSet, execSet, l, l, open)
  {
    hide CaughtUp;
    GoesNowhere(l);
    forall c | c in execSet ensures Untouched(c, w, l, open + {o}) {
      ChildUntouched(o, c, w, l, open);
    }
  }

  lemma {:induction false} ChildUntouched(o: Object, c: Object, w: set<Object>, l: Ledger, open: set<Object>)
    requires Tree(w) && o in w && c in w && c.parent == o && Untouched(o, w, l, open)
    ensures Untouched(c, w, l, open + {o})
  {
    forall d | d in w && Under(c, d, w) ensures d !in l.times && d !in open + {o} {
      UnderParent(o, c, d, w);
      UnderDeeper(c, d, w);
    }
  }

  lemma {:induction false} UnderParent(o: Object, c: Object, d: Object, w: set<Object>)
    requires Tree(w) && o in w && c in w && c.parent == o && d in w && Under(c, d, w)
    ensures Under(o, d, w)
    decreases d.depth
  {
    if d == c {
      assert Under(o, o, w);
    } else {
      UnderParent(o, c, d.parent, w);
    }
  }

  lemma {:induction false} UnderDeeper(o: Object, d: Object, w: set<Object>)
    requires Tree(w) && d in w && Under(o, d, w)
    ensures o.depth <= d.depth && (o.depth == d.depth ==> o == d)
    decreases d.depth
  {
    if d != o {
      UnderDeeper(o, d.parent, w);
    }
  }

  /** Nothing lies under two children. */
  lemma {:induction false} Apart(o: Object, c: Object, i: Object, d: Object, w: set<Object>)
    requires Tree(w) && o in w && c in w && i in w && c.parent == o && i.parent == o && c != i
    requires d in w && Under(c, d, w)
    ensures !Under(i, d, w)
    decreases d.depth
  {
    if Under(i, d, w) {
      UnderDeeper(i, d, w);
      UnderDeeper(c, d, w);
      if d != c && d != i {
        Apart(o, c, i, d.parent, w);
      }
    }
  }

  lemma {:induction false} ChildNext(o: Object, w: set<Object>, noted: set<Object>, execSet: set<Object>, l: Ledger, l': Ledger,
                                     open: set<Object>, i: Object)
    requires Tree(w) && ChildrenDone(o, w, noted, execSet, l, l', open) && i in execSet
    ensures Untouched(i, w, l', open + {o})
  {
    hide Untouched, CaughtUp;
  }

  lemma {:induction false} ChildDone(o: Object, w: set<Object>, noted: set<Object>, execSet: set<Object>, l: Ledger, a: Ledger, b: Ledger,
                                     open: set<Object>, i: Object)
    requires Tree(w) && o in w && ChildrenDone(o, w, noted, execSet, l, a, open) && i in execSet
    requires forall c :: c in execSet ==> c in w && c.parent == o
    requires Continues(a, b) && OnlyUnder(i, w, a, b) && i in b.times && CaughtUp(i, w, b)
    ensures ChildrenDone(o, w, noted, execSet - {i}, l, b, open)
  {
    hide Under, Untouched, CaughtUp;
    ContinuesOn(l, a, b);
    StillOnlyUnder(o, i, w, l, a, b);
    forall c | c in execSet - {i} ensures Untouched(c, w, b, open + {o}) {
      SiblingUntouched(o, c, i, w, a, b, open + {o});
    }
    forall c | c in w && c.parent == o && c !in execSet - {i} ensures CaughtUp(c, w, b) {
      if c != i {
        StillCaught(c, w, a, b);
      }
    }
  }

  lemma {:induction false} ContinuesOn(a: Ledger, b: Ledger, c: Ledger)
    requires Continues(a, b) && Continues(b, c)
    ensures Continues(a, c)
  {
  }

  lemma {:induction false} StillOnlyUnder(o: Object, i: Object, w: set<Object>, l: Ledger, a: Ledger, b: Ledger)
    requires Tree(w) && o in w && i in w && i.parent == o && OnlyUnder(o, w, l, a) && OnlyUnder(i, w, a, b) && o !in a.times
    ensures OnlyUnder(o, w, l, b) && o !in b.times
  {
    hide Under;
    forall d | d in w && Under(i, d, w) ensures Under(o, d, w) && d != o {
      UnderParent(o, i, d, w);
      UnderDeeper(i, d, w);
    }
  }

  lemma {:induction false} SiblingUntouched(o: Object, c: Object, i: Object, w: set<Object>, a: Ledger, b: Ledger, open: set<Object>)
    requires Tree(w) && o in w && c in w && i in w && c.parent == o && i.parent == o && c != i
    requires Untouched(c, w, a, open) && OnlyUnder(i, w, a, b)
    ensures Untouched(c, w, b, open)
  {
    hide Under;
    forall d | d in w && Under(c, d, w) ensures d !in b.times {
      Apart(o, c, i, d, w);
    }
  }

  lemma {:induction false} StillCaught(o: Object, w: set<Object>, a: Ledger, b: Ledger)
    requires Tree(w) && CaughtUp(o, w, a) && Continues(a, b)
    ensures CaughtUp(o, w, b)
  {
    hide Under;
    forall d | d in w && Under(o, d, w) ensures Caught(b, d) {
      assert Caught(a, d);
      MoreRan(a.trace, b.trace, d);
    }
  }

  lemma {:induction false} MoreRan(a: seq<Step>, b: seq<Step>, o: Object)
    requires a <= b
    ensures RanBy(a, o) <= RanBy(b, o)
    decreases |b|
  {
    if a == b {
    } else {
      MoreRan(a, b[..|b| - 1], o);
    }
  }

  lemma {:induction false} AllCaught(o: Object, w: set<Object>, noted: set<Object>, l: Ledger, l': Ledger, open: set<Object>)
    requires Tree(w) && o in w && ChildrenDone(o, w, noted, {}, l, l', open)
    requires o in l.base && forall c :: c in l.base[o].exec ==> c in noted
    ensures Continues(l, l') && OnlyUnder(o, w, l, l') && o !in l'.times && forall c :: c in l.base[o].exec ==> c in l'.times
    ensures forall d :: d in w && d != o && Under(o, d, w) ==> Caught(l', d)
  {
    hide Under, Untouched;
    forall d | d in w && d != o && Under(o, d, w) ensures Caught(l', d) {
      var c := ChildTowards(o, d, w);
      assert CaughtUp(c, w, l');
    }
  }

  // ---------------------------------------------------------------- handling one object

  lemma {:induction false} InActive(o: Object, active: set<Object>)
    ensures o in active + {o}
  {
  }

  lemma {:induction false} UntouchedParts(o: Object, w: set<Object>, l: Ledger, open: set<Object>)
    requires o in w && Tree(w) && Untouched(o, w, l, open)
    ensures o !in l.times && o !in open
  {
    assert Under(o, o, w);
  }

  /** What o had accepted before the turn is run or waits in its queue. */
  lemma {:induction false} PostsOf(o: Object, w: set<Object>, l: Ledger)
    requires o in w && PostBooks(w, l) && History(w)
    ensures o in l.base && l.base[o].posted <= o.ran + o.queue
  {
    hide Offers;
  }

  lemma {:induction false} QueueCaught(o: Object, w: set<Object>, l: Ledger, all: seq<Event>)
    requires o in w && RanBooks(w, l) && o in l.base && l.base[o].posted <= all && o.ran == all
    ensures Caught(l, o)
  {
    hide RanBy;
  }

  lemma {:induction false} StillUntouched(o: Object, w: set<Object>, l: Ledger, l': Ledger, open: set<Object>)
    requires Tree(w) && Untouched(o, w, l, open) && Goes(l, l')
    ensures Untouched(o, w, l', open) && Continues(l, l') && l'.clock == l.clock
  {
    hide Under;
  }

  /** Its own timers are as they were. */
  lemma {:induction false} TimersYet(o: Object, w: set<Object>, l: Ledger)
    requires o in w && TimerBooks(w, l) && o !in l.times
    ensures o in l.base && o.timerEvents == l.base[o].timers
  {
    hide FiredBy, After, Due;
  }

  /** What the three stages have done at o. */
  ghost predicate Worked(o: Object, w: set<Object>, l: Ledger, l': Ledger, open: set<Object>, now: int, end: int)
    requires Tree(w) && o in w
    reads w`ran, w`posted, w`timerEvents, w`execSubObjectSet
  {
    && BooksBut(w, o, l', open + {o}) && Continues(l, l') && OnlyUnder(o, w, l, l') && o !in l'.times && o !in open
    && o in l'.base && (forall c :: c in l'.base[o].exec ==> c in l'.times)
    && o.timerEvents == After(l'.base[o].timers, now, end) && FiredBy(l'.trace, o) == Due(l'.base[o].timers, now)
    && l'.clock <= now <= end && CaughtUp(o, w, l')
  }

  lemma {:induction false} WorkDone(o: Object, w: set<Object>, l: Ledger, a: Ledger, b: Ledger, c: Ledger, open: set<Object>,
                                    before: seq<TimerEntry>, now: int, end: int)
    requires Tree(w) && o in w && o !in open && Goes(l, a) && Continues(a, b) && Goes(b, c)
    requires OnlyUnder(o, w, a, b) && o !in b.times && o in a.base && forall d :: d in a.base[o].exec ==> d in b.times
    requires Caught(a, o) && forall d :: d in w && d != o && Under(o, d, w) ==> Caught(b, d)
    requires BooksBut(w, o, c, open + {o}) && before == a.base[o].timers && b.clock <= now <= end
    requires o.timerEvents == After(before, now, end) && FiredBy(c.trace, o) == Due(before, now)
    ensures Worked(o, w, l, c, open, now, end)
  {
    hide Under, After, Due, FiredBy, BooksBut;
    forall d | d in w && Under(o, d, w) ensures Caught(c, d) {
      if d == o {
        MoreRan(a.trace, c.trace, o);
      } else {
        MoreRan(b.trace, c.trace, d);
      }
    }
  }

  lemma {:induction false} WorkParts(o: Object, w: set<Object>, l: Ledger, l': Ledger, open: set<Object>, now: int, end: int)
    requires Tree(w) && o in w && Worked(o, w, l, l', open, now, end)
    ensures RanBooks(w, l') && PostBooks(w, l') && TimerBooks(w - {o}, l') && ExecBooks(w, l', open + {o}) && TimesBooks(w, l')
    ensures Continues(l, l') && OnlyUnder(o, w, l, l') && o !in l'.times && o !in open
    ensures o in l'.base && (forall c :: c in l'.base[o].exec ==> c in l'.times)
    ensures o.timerEvents == After(l'.base[o].timers, now, end) && FiredBy(l'.trace, o) == Due(l'.base[o].timers, now)
    ensures l'.clock <= now <= end && CaughtUp(o, w, l')
  {
    hide CaughtUp, RanBooks, PostBooks, TimerBooks, ExecBooks, TimesBooks, After, Due, FiredBy;
  }

  /** The object is entered as handled. */
  lemma {:induction false} Close(o: Object, w: set<Object>, l: Ledger, done: Ledger, l': Ledger, open: set<Object>, now: int, end: int)
    requires Tree(w) && o in w && o !in done.times && o !in open
    requires RanBooks(w, done) && PostBooks(w, done) && TimerBooks(w - {o}, done) && ExecBooks(w, done, open + {o}) && TimesBooks(w, done)
    requires Continues(l, done) && OnlyUnder(o, w, l, done) && CaughtUp(o, w, done)
    requires o in done.base && (forall c :: c in done.base[o].exec ==> c in done.times)
    requires o.timerEvents == After(done.base[o].timers, now, end) && FiredBy(done.trace, o) == Due(done.base[o].timers, now)
    requires done.clock <= now <= end && l' == done.(times := done.times[o := (now, end)], clock := end)
    requires o.parent != null && o.timerEvents != [] ==> o in o.parent.execSubObjectSet
    ensures Books(w, l', open) && Continues(l, l') && OnlyUnder(o, w, l, l') && o in l'.times && CaughtUp(o, w, l')
  {
    hide *;
    CloseBooks(o, w, done, l', open, now, end);
    BooksWhole(w, l', open);
    CloseLedger(o, w, l, done, l', now, end);
  }

  lemma {:induction false} CloseLedger(o: Object, w: set<Object>, l: Ledger, done: Ledger, l': Ledger, now: int, end: int)
    requires Tree(w) && o in w && o !in done.times && done.clock <= end
    requires Continues(l, done) && OnlyUnder(o, w, l, done) && CaughtUp(o, w, done)
    requires l' == done.(times := done.times[o := (now, end)], clock := end)
    ensures Continues(l, l') && OnlyUnder(o, w, l, l') && o in l'.times && CaughtUp(o, w, l')
  {
    assert Under(o, o, w);
    hide Under, RanBy;
  }

  lemma {:induction false} CloseBooks(o: Object, w: set<Object>, done: Ledger, l': Ledger, open: set<Object>, now: int, end: int)
    requires Tree(w) && o in w && o !in done.times && o !in open
    requires RanBooks(w, done) && PostBooks(w, done) && TimerBooks(w - {o}, done) && ExecBooks(w, done, open + {o}) && TimesBooks(w, done)
    requires o in done.base && (forall c :: c in done.base[o].exec ==> c in done.times)
    requires o.timerEvents == After(done.base[o].timers, now, end) && FiredBy(done.trace, o) == Due(done.base[o].timers, now)
    requires done.clock <= now <= end && l' == done.(times := done.times[o := (now, end)], clock := end)
    requires o.parent != null && o.timerEvents != [] ==> o in o.parent.execSubObjectSet
    ensures RanBooks(w, l') && PostBooks(w, l') && TimerBooks(w, l') && ExecBooks(w, l', open) && TimesBooks(w, l')
  {
    hide RanBy, Offers, FiredBy, After, Due, Accepted;
    forall d | d in w ensures d in l'.base && TimersAs(l'.base[d].timers, l'.trace, l'.times, d, d.timerEvents) {
      if d != o {
        assert d in w - {o};
      }
    }
  }

  // ---------------------------------------------------------------- a turn

  /** The books before anything has happened. */
  ghost function Opening(clock: int, w: set<Object>): Ledger
    reads w
  {
    Ledger(map o | o in w :: Snap(o.posted, o.ran, o.execSubObjectSet, o.timerEvents), clock, clock, [], map[])
  }

  lemma {:induction false} OpeningIs(clock: int, w: set<Object>)
    ensures var l := Opening(clock, w);
            && l.start == l.clock == clock && l.trace == [] && l.times == map[]
            && forall o :: o in w ==> o in l.base && l.base[o] == Snap(o.posted, o.ran, o.execSubObjectSet, o.timerEvents)
  {
  }

  lemma {:induction false} OpeningBooks(clock: int, w: set<Object>)
    requires Tree(w) && Inv(w, {}, {}) && History(w)
    ensures Books(w, Opening(clock, w), {})
  {
    hide Covered, Flagged, EventIn, Ordered;
    assert forall o :: o in w ==> TimersInside(o.timerEvents, w);
    var l := Opening(clock, w);
    forall o | o in w ensures Accepted(l.base[o], Offers(l.trace, o), o.posted) {
      assert o.posted + [] == o.posted;
    }
    forall o | o in w ensures o.ran == l.base[o].ran + RanBy(l.trace, o) {
      assert o.ran + [] == o.ran;
    }
  }

  /** ExecUnder, as it was when the turn began. */
  ghost predicate BaseUnder(base: map<Object, Snap>, o: Object, d: Object, w: set<Object>)
    requires Tree(w) && d in w
    decreases d.depth
  {
    d == o || (d.parent != null && d.parent in base && d in base[d.parent].exec && BaseUnder(base, o, d.parent, w))
  }

  lemma {:induction false} ReachedThen(o: Object, w: set<Object>, clock: int)
    requires Tree(w)
    ensures forall d :: d in w && ExecUnder(o, d, w) ==> BaseUnder(Opening(clock, w).base, o, d, w)
  {
    forall d | d in w && ExecUnder(o, d, w) ensures BaseUnder(Opening(clock, w).base, o, d, w) {
      ReachedThenOne(o, d, w, clock);
    }
  }

  lemma {:induction false} ReachedThenOne(o: Object, d: Object, w: set<Object>, clock: int)
    requires Tree(w) && d in w && ExecUnder(o, d, w)
    ensures BaseUnder(Opening(clock, w).base, o, d, w)
    decreases d.depth
  {
    if d != o {
      ReachedThenOne(o, d.parent, w, clock);
    }
  }

  /** Every object with timers is noted by its parent. */
  ghost predicate TimersNoted(w: set<Object>)
    requires Tree(w)
    reads w`execSubObjectSet, w`timerEvents
  {
    forall d :: d in w && d.parent != null && d.timerEvents != [] ==> d in d.parent.execSubObjectSet
  }

  ghost predicate BaseNoted(base: map<Object, Snap>, w: set<Object>) {
    forall d :: d in w && d.parent != null && d in base && base[d].timers != [] ==> d.parent in base && d in base[d.parent].exec
  }

  lemma {:induction false} NotedThen(w: set<Object>, clock: int)
    requires Tree(w) && TimersNoted(w)
    ensures BaseNoted(Opening(clock, w).base, w)
  {
  }

  lemma {:induction false} HandledUnder(o: Object, d: Object, w: set<Object>, l: Ledger)
    requires Tree(w) && d in w && BaseUnder(l.base, o, d, w) && TimesBooks(w, l) && o in l.times
    ensures d in l.times
    decreases d.depth
  {
    if d != o {
      HandledUnder(o, d.parent, w, l);
    }
  }

  lemma {:induction false} StillNoted(w: set<Object>, l: Ledger)
    requires Tree(w) && Books(w, l, {}) && BaseNoted(l.base, w)
    ensures TimersNoted(w)
  {
    hide RanBooks, PostBooks, FiredBy, After, Due;
    forall d | d in w && d.parent != null && d.timerEvents != [] ensures d in d.parent.execSubObjectSet {
      if d !in l.times {
        assert TimersAs(l.base[d].timers, l.trace, l.times, d, d.timerEvents);
        assert d.parent !in l.times;
      }
    }
  }

  lemma {:induction false} RootUntouched(o: Object, w: set<Object>, clock: int)
    requires Tree(w)
    ensures Untouched(o, w, Opening(clock, w), {})
  {
  }

  lemma {:induction false} TurnDone(o: Object, w: set<Object>, start: Ledger, l: Ledger)
    requires Tree(w) && o in w && Books(w, l, {}) && Continues(start, l) && o in l.times && CaughtUp(o, w, l)
    ensures forall d :: d in w && BaseUnder(start.base, o, d, w) ==> d in l.times
    ensures forall d :: d in w && Under(o, d, w) ==> d in start.base && start.base[d].posted <= d.ran
    ensures BaseNoted(start.base, w) ==> TimersNoted(w)
    ensures l.base == start.base && l.start == start.start
  {
    BooksParts(w, l, {});
    if BaseNoted(start.base, w) {
      StillNoted(w, l);
    }
    hide PostBooks, TimerBooks, ExecBooks, TimesBooks, BaseUnder, Under, RanBy;
    forall d | d in w && BaseUnder(start.base, o, d, w) ensures d in l.times {
      HandledUnder(o, d, w, l);
    }
    forall d | d in w && Under(o, d, w) ensures d in start.base && start.base[d].posted <= d.ran {
      assert Caught(l, d);
    }
  }

  /** What the answer of getNextTimeOut says. */
  lemma {:induction false} Waiting(root: Object, w: set<Object>, t: int, now: int)
    requires Tree(w) && Inv(w, {}, {}) && root in w && root.parent == null
    requires t > 0 ==> NothingBefore(root, t, now, w)
    requires t < 0 ==> t == -1 && root.queue == [] && root.timerEvents == [] && root.execSubObjectSet == {}
    ensures DEFAULT_TIMEOUT_MSEC == 5000
    ensures t < 0 || t > DEFAULT_TIMEOUT_MSEC ==> NothingBefore(root, DEFAULT_TIMEOUT_MSEC, now, w)
    ensures (exists d :: d in w && Under(root, d, w) && d.queue != []) ==> t == 0
  {
    hide Inv, Under, NothingBefore;
    if t < 0 {
      IdleBefore(root, DEFAULT_TIMEOUT_MSEC, now, w);
    } else if t > DEFAULT_TIMEOUT_MSEC {
      Sooner(root, t, DEFAULT_TIMEOUT_MSEC, now, w);
    }
    forall d | d in w && Under(root, d, w) && d.queue != [] ensures t == 0 {
      NoLostWakeup(root, d, w);
      PromptWakeup(root, d, t, now, w);
    }
  }

  // ---------------------------------------------------------------- exec sets

  lemma {:induction false} SelfUnder(o: Object, w: set<Object>)
    requires Tree(w) && o in w
    ensures ExecUnder(o, o, w)
  {
  }

  lemma {:induction false} Noted(o: Object, c: Object, w: set<Object>, height: nat)
    requires Tree(w) && Below(w, height) && Shape(w) && o in w && c in o.execSubObjectSet
    ensures c in w && c.parent == o && o.depth < c.depth < height
  {
  }

  lemma {:induction false} UnderThrough(o: Object, c: Object, w: set<Object>)
    requires Tree(w) && o in w && c in w && c.parent == o && c in o.execSubObjectSet
    ensures forall d :: d in w && ExecUnder(c, d, w) ==> ExecUnder(o, d, w)
  {
    forall d | d in w && ExecUnder(c, d, w) ensures ExecUnder(o, d, w) {
      UnderThroughOne(o, c, d, w);
    }
  }

  lemma {:induction false} UnderThroughOne(o: Object, c: Object, d: Object, w: set<Object>)
    requires Tree(w) && o in w && c in w && c.parent == o && c in o.execSubObjectSet && d in w && ExecUnder(c, d, w)
    ensures ExecUnder(o, d, w)
    decreases d.depth
  {
    if d == c {
    } else {
      UnderThroughOne(o, c, d.parent, w);
    }
  }

  lemma {:induction false} FirstHop(o: Object, d: Object, w: set<Object>) returns (c: Object)
    requires Tree(w) && d in w && ExecUnder(o, d, w) && d != o
    ensures c in w && c.parent == o && c in o.execSubObjectSet && ExecUnder(c, d, w)
    decreases d.depth
  {
    if d.parent == o {
      c := d;
    } else {
      c := FirstHop(o, d.parent, w);
    }
  }

  lemma {:induction false} AttainedBySelf(o: Object, t: int, now: int, w: set<Object>)
    requires Tree(w) && o in w
    requires t == NO_DEADLINE || exists i :: 0 <= i < |o.timerEvents| && o.timerEvents[i].deadline == t + now
    ensures Attained(o, t, now, w)
  {
    SelfUnder(o, w);
  }

  lemma {:induction false} AttainedThrough(o: Object, c: Object, t: int, now: int, w: set<Object>)
    requires Tree(w) && o in w && c in w && c.parent == o && c in o.execSubObjectSet && Attained(c, t, now, w)
    ensures Attained(o, t, now, w)
  {
    UnderThrough(o, c, w);
  }

  lemma {:induction false} Sooner(o: Object, t: int, t': int, now: int, w: set<Object>)
    requires Tree(w) && NothingBefore(o, t, now, w) && t' <= t
    ensures NothingBefore(o, t', now, w)
  {
  }

  lemma {:induction false} IdleBefore(o: Object, t: int, now: int, w: set<Object>)
    requires Tree(w) && o in w && o.queue == [] && o.timerEvents == [] && o.execSubObjectSet == {}
    ensures NothingBefore(o, t, now, w)
  {
    forall d | d in w && ExecUnder(o, d, w) ensures Clear(d, t, now) {
      if d != o {
        var c := FirstHop(o, d, w);
      }
    }
  }

  /** Taking one more child into account. */
  lemma {:induction false} Merged(o: Object, i: Object, t: int, timeout: int, done: set<Object>, now: int, w: set<Object>)
    requires Tree(w) && o in w && i in w && i.parent == o && i in o.execSubObjectSet
    requires Clear(o, t, now) && Attained(o, t, now, w) && forall c :: c in done ==> NothingBefore(c, t, now, w)
    requires timeout > 0 ==> NothingBefore(i, timeout, now, w) && Attained(i, timeout, now, w)
    requires timeout < 0 ==> i.queue == [] && i.timerEvents == [] && i.execSubObjectSet == {}
    requires timeout != 0
    ensures var t' := if 0 < timeout <= t then timeout else t;
            Clear(o, t', now) && Attained(o, t', now, w) && forall c :: c in done + {i} ==> NothingBefore(c, t', now, w)
  {
    hide Attained, Tree, ExecUnder, Ready;
    if timeout < 0 {
      IdleBefore(i, t, now, w);
    } else {
      var t' := if timeout <= t then timeout else t;
      AttainedThrough(o, i, timeout, now, w);
      Sooner(i, timeout, t', now, w);
      forall c | c in done ensures NothingBefore(c, t', now, w) {
        Sooner(c, t, t', now, w);
      }
    }
  }

  lemma {:induction false} NothingBeforeAll(o: Object, t: int, now: int, w: set<Object>)
    requires Tree(w) && o in w && Clear(o, t, now)
    requires forall c :: c in o.execSubObjectSet ==> c in w && NothingBefore(c, t, now, w)
    ensures NothingBefore(o, t, now, w)
  {
    forall d | d in w && ExecUnder(o, d, w) ensures Clear(d, t, now) {
      if d != o {
        var c := FirstHop(o, d, w);
      }
    }
  }

  // ---------------------------------------------------------------- what the books say

  /** The due entries are those whose deadline has come, in order. */
  lemma {:induction false} DueMeans(timers: seq<TimerEntry>, now: int)
    requires Ordered(timers)
    ensures Due(timers, now) + Kept(timers, now) == timers
    ensures forall i :: 0 <= i < |Due(timers, now)| ==> Due(timers, now)[i].deadline <= now
    ensures forall i :: 0 <= i < |Kept(timers, now)| ==> Kept(timers, now)[i].deadline > now
  {
    DueCountMeans(timers, now);
  }

  lemma {:induction false} DueCountMeans(timers: seq<TimerEntry>, now: int)
    requires Ordered(timers)
    ensures forall i :: 0 <= i < |timers| ==> (i < DueCount(timers, now) <==> timers[i].deadline <= now)
  {
    if timers != [] && timers[0].deadline <= now {
      DueCountMeans(timers[1..], now);
      assert forall i :: 1 <= i < |timers| ==> timers[i] == timers[1..][i - 1];
    }
  }

  /** Of due entries the periodic ones come back. */
  lemma {:induction false} CycleMeans(timers: seq<TimerEntry>)
    ensures forall i :: 0 <= i < |timers| && !timers[i].single ==> timers[i] in Cycle(timers)
    ensures forall i :: 0 <= i < |Cycle(timers)| ==> Cycle(timers)[i] in timers && !Cycle(timers)[i].single
  {
    if timers != [] {
      var n := |timers| - 1;
      CycleMeans(timers[..n]);
      assert timers == timers[..n] + [timers[n]];
      assert forall i :: 0 <= i < n ==> timers[i] == timers[..n][i];
    }
  }

  lemma {:induction false} EmplacedAllMeans(timers: seq<TimerEntry>, queue: seq<TimerEntry>, later: int)
    requires Ordered(timers)
    ensures Ordered(EmplacedAll(timers, queue, later)) && |EmplacedAll(timers, queue, later)| == |timers| + |queue|
    ensures forall i :: 0 <= i < |timers| ==> timers[i] in EmplacedAll(timers, queue, later)
    ensures forall i :: 0 <= i < |queue| ==> queue[i].(deadline := later + queue[i].interval) in EmplacedAll(timers, queue, later)
  {
    hide *;
    if queue == [] {
      EmplacedNone(timers, later);
    } else {
      var n := |queue| - 1;
      var front, last := EmplacedAll(timers, queue[..n], later), queue[n].(deadline := later + queue[n].interval);
      EmplacedAllMeans(timers, queue[..n], later);
      EmplacedNext(timers, queue, n, later);
      assert queue[..n + 1] == queue;
      EmplacedMeans(front, last);
      StillThere(timers, front, Emplaced(front, last));
      StillBack(queue, n, later, front, Emplaced(front, last));
    }
  }

  lemma {:induction false} StillThere(timers: seq<TimerEntry>, front: seq<TimerEntry>, all: seq<TimerEntry>)
    requires forall i :: 0 <= i < |timers| ==> timers[i] in front
    requires forall i :: 0 <= i < |front| ==> front[i] in all
    ensures forall i :: 0 <= i < |timers| ==> timers[i] in all
  {
  }

  lemma {:induction false} StillBack(queue: seq<TimerEntry>, n: nat, later: int, front: seq<TimerEntry>, all: seq<TimerEntry>)
    requires n + 1 == |queue| && queue[n].(deadline := later + queue[n].interval) in all
    requires forall i :: 0 <= i < n ==> queue[..n][i].(deadline := later + queue[..n][i].interval) in front
    requires forall i :: 0 <= i < |front| ==> front[i] in all
    ensures forall i :: 0 <= i < |queue| ==> queue[i].(deadline := later + queue[i].interval) in all
  {
    forall i | 0 <= i < |queue| ensures queue[i].(deadline := later + queue[i].interval) in all {
      if i < n {
        assert queue[..n][i] == queue[i];
      }
    }
  }

  /** After a pass a periodic timer that was due stands behind later by its
      interval, a one-shot one is gone, and the others stand where they did. */
  lemma {:induction false} AfterMeans(timers: seq<TimerEntry>, now: int, later: int)
    requires Ordered(timers)
    ensures var r := After(timers, now, later);
            && Ordered(r) && |r| == |timers| - |Due(timers, now)| + |Cycle(Due(timers, now))|
            && (forall i :: 0 <= i < |timers| && timers[i].deadline > now ==> timers[i] in r)
            && (forall i :: 0 <= i < |timers| && timers[i].deadline <= now && !timers[i].single ==>
                  timers[i].(deadline := later + timers[i].interval) in r)
  {
    hide *;
    var due, kept := Due(timers, now), Kept(timers, now);
    var queue := Cycle(due);
    DueMeans(timers, now);
    CycleMeans(due);
    KeptOrdered(timers, now);
    EmplacedAllMeans(kept, queue, later);
    AfterParts(timers, now, later);
    Sorted(timers, due, kept, now);
    forall i | 0 <= i < |timers| && timers[i].deadline <= now && !timers[i].single
      ensures timers[i].(deadline := later + timers[i].interval) in After(timers, now, later) {
      assert timers[i] == due[i];
      var j :| 0 <= j < |queue| && queue[j] == timers[i];
    }
  }

  /** Which of the two parts an entry is in. */
  lemma {:induction false} Sorted(timers: seq<TimerEntry>, due: seq<TimerEntry>, kept: seq<TimerEntry>, now: int)
    requires timers == due + kept
    requires forall i :: 0 <= i < |due| ==> due[i].deadline <= now
    requires forall i :: 0 <= i < |kept| ==> kept[i].deadline > now
    ensures forall i :: 0 <= i < |timers| && timers[i].deadline <= now ==> i < |due| && timers[i] == due[i]
    ensures forall i :: 0 <= i < |timers| && timers[i].deadline > now ==> i >= |due| && timers[i] == kept[i - |due|]
  {
  }

  lemma {:induction false} KeptOrdered(timers: seq<TimerEntry>, now: int)
    requires Ordered(timers)
    ensures Ordered(Kept(timers, now))
  {
  }

  lemma {:induction false} AfterParts(timers: seq<TimerEntry>, now: int, later: int)
    ensures After(timers, now, later) == EmplacedAll(Kept(timers, now), Cycle(Due(timers, now)), later)
    ensures |Kept(timers, now)| == |timers| - |Due(timers, now)|
  {
    hide EmplacedAll, Cycle, DueCount;
  }

  lemma {:induction false} FiredIn(trace: seq<Step>, o: Object, i: nat) returns (k: nat)
    requires i < |FiredBy(trace, o)|
    ensures k < |trace| && trace[k] == Fired(o, FiredBy(trace, o)[i])
  {
    var n := |trace| - 1;
    if i < |FiredBy(trace[..n], o)| {
      k := FiredIn(trace[..n], o, i);
    } else {
      k := n;
    }
  }

  /** In a turn every entry of a handled object that was due has fired, and stands
      behind the second sampled time by its interval unless it is one-shot; every
      other entry stands where it did. */
  lemma {:induction false} TurnFires(w: set<Object>, l: Ledger, d: Object, i: nat)
    requires Tree(w) && Books(w, l, {}) && d in w && d in l.times && i < |l.base[d].timers|
    ensures l.start <= l.times[d].0 <= l.times[d].1 <= l.clock
    ensures var e := l.base[d].timers[i]; var (now, later) := l.times[d];
            if e.deadline <= now then
              Fired(d, e) in l.trace && (e.single || e.(deadline := later + e.interval) in d.timerEvents)
            else e in d.timerEvents
  {
    hide *;
    TimersRecorded(w, l, d);
    PassFires(l.base[d].timers, l.times[d].0, l.times[d].1, i, l.trace, d);
  }

  lemma {:induction false} PassFires(timers: seq<TimerEntry>, now: int, later: int, i: nat, trace: seq<Step>, d: Object)
    requires Ordered(timers) && i < |timers| && FiredBy(trace, d) == Due(timers, now)
    ensures var e := timers[i];
            if e.deadline <= now then
              Fired(d, e) in trace && (e.single || e.(deadline := later + e.interval) in After(timers, now, later))
            else e in After(timers, now, later)
  {
    hide *;
    AfterMeans(timers, now, later);
    DueMeans(timers, now);
    Sorted(timers, Due(timers, now), Kept(timers, now), now);
    if timers[i].deadline <= now {
      var k := FiredIn(trace, d, i);
      assert trace[k] == Fired(d, timers[i]);
    }
  }

  lemma {:induction false} AllFire(w: set<Object>, l: Ledger)
    requires Tree(w) && Books(w, l, {})
    ensures forall d, i :: d in w && d in l.times && d in l.base && 0 <= i < |l.base[d].timers| && l.base[d].timers[i].deadline <= l.start ==>
              Fired(d, l.base[d].timers[i]) in l.trace
  {
    hide Books;
    forall d, i | d in w && d in l.times && d in l.base && 0 <= i < |l.base[d].timers| && l.base[d].timers[i].deadline <= l.start
      ensures Fired(d, l.base[d].timers[i]) in l.trace {
      TurnFires(w, l, d, i);
    }
  }

  lemma {:induction false} TimersRecorded(w: set<Object>, l: Ledger, d: Object)
    requires Tree(w) && Books(w, l, {}) && d in w && d in l.times
    ensures d in l.base && Ordered(l.base[d].timers) && l.start <= l.times[d].0 <= l.times[d].1 <= l.clock
    ensures d.timerEvents == After(l.base[d].timers, l.times[d].0, l.times[d].1)
    ensures FiredBy(l.trace, d) == Due(l.base[d].timers, l.times[d].0)
  {
    hide RanBooks, PostBooks, ExecBooks, Ordered, After, FiredBy, Due;
  }

  lemma {:induction false} ForHas(posts: seq<Post>, j: nat)
    requires j < |posts|
    ensures posts[j].event in For(posts, posts[j].target)
  {
    var n := |posts| - 1;
    if j < n {
      ForHas(posts[..n], j);
    }
  }

  lemma {:induction false} OffersHas(trace: seq<Step>, k: nat, j: nat)
    requires k < |trace| && j < |StepPosts(trace[k])|
    ensures StepPosts(trace[k])[j].event in Offers(trace, StepPosts(trace[k])[j].target)
  {
    var n := |trace| - 1;
    if k < n {
      OffersHas(trace[..n], k, j);
    } else {
      ForHas(StepPosts(trace[k]), j);
    }
    hide For, StepPosts;
  }

  /** What is posted in a turn, by events and by timers, is accepted, in order,
      as long as the target's queue has room. */
  lemma {:induction false} TurnPosts(w: set<Object>, l: Ledger, t: Object)
    requires Tree(w) && Books(w, l, {}) && t in w
    requires (|l.base[t].posted| - |l.base[t].ran|) + |Offers(l.trace, t)| <= CAPACITY
    ensures t.posted == l.base[t].posted + Offers(l.trace, t)
    ensures forall k, j :: 0 <= k < |l.trace| && 0 <= j < |StepPosts(l.trace[k])| && StepPosts(l.trace[k])[j].target == t ==>
              StepPosts(l.trace[k])[j].event in Offers(l.trace, t)
  {
    forall k, j | 0 <= k < |l.trace| && 0 <= j < |StepPosts(l.trace[k])| && StepPosts(l.trace[k])[j].target == t
      ensures StepPosts(l.trace[k])[j].event in Offers(l.trace, t) {
      OffersHas(l.trace, k, j);
    }
    hide Offers, For, StepPosts;
  }

  // ---------------------------------------------------------------- results

  /** A new tree, before anything is posted. */
  lemma {:induction false} TreeStarts(w: set<Object>)
    requires Tree(w)
    requires forall o :: o in w ==> o.queue == [] && o.execSubObjectSet == {} && !o.isTriggering && o.timerEvents == []
    requires forall o :: o in w ==> o.posted == [] && o.ran == []
    ensures Inv(w, {}, {}) && History(w)
  {
  }

  /** Between passes, an object with waiting events is reached from the root
      through exec sets: no wakeup is lost, whatever the shape of the tree. */
  lemma {:induction false} NoLostWakeup(root: Object, d: Object, w: set<Object>)
    requires Tree(w) && Inv(w, {}, {}) && root.parent == null
    requires d in w && Under(root, d, w) && (d.queue != [] || d.execSubObjectSet != {} || d == root)
    ensures ExecUnder(root, d, w)
    decreases d.depth
  {
    if d == root {
    } else {
      assert d in d.parent.execSubObjectSet;
      NoLostWakeup(root, d.parent, w);
    }
  }

  /** What getNextTimeOut answers then. */
  lemma {:induction false} PromptWakeup(root: Object, d: Object, t: int, now: int, w: set<Object>)
    requires Tree(w) && root in w && d in w && ExecUnder(root, d, w) && d.queue != []
    requires t > 0 ==> NothingBefore(root, t, now, w)
    requires t < 0 ==> t == -1 && root.queue == [] && root.timerEvents == [] && root.execSubObjectSet == {}
    ensures t == 0
  {
    if t < 0 {
      IdleBefore(root, 1, now, w);
    }
    assert t != 0 ==> Clear(d, 1, now);
  }

  lemma {:induction false} RootStarts(root: Object, w: set<Object>)
    requires root in w && Tree(w) && root.parent == null && Inv(w, {}, {})
    ensures Inv(w, {} + {root}, {}) && Outer(root, {} + {root}, {})
  {
  }

  lemma {:induction false} InvShape(w: set<Object>)
    requires Tree(w) && Inv(w, {}, {})
    ensures Shape(w)
  {
  }
}
