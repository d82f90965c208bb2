/** The timer registry of core/object.cpp: ids that are reused, and an index of
    working timers ordered by deadline. */
module Timers {
  import opened Containers

  const INVALID_TIMER_ID: nat := 0
  const LAST_ID: nat := 0xffff_ffff

  /** A key of the deadline index: deadline, then id. */
  type Key = (int, nat)

  predicate Before(a: Key, b: Key) {
    a.0 < b.0 || (a.0 == b.0 && a.1 < b.1)
  }

  // ---------------------------------------------------------------- meaning

  datatype TimerState = TimerState(interval: int, next: int, single: bool, working: bool)

  datatype Registry = Registry(last: nat, available: set<nat>, timers: map<nat, TimerState>)

  /** Live and free ids together are 1..last, and no id is both. */
  ghost predicate WellFormed(r: Registry) {
    && r.last <= LAST_ID
    && (forall id :: id in r.timers || id in r.available <==> 1 <= id <= r.last)
    && (forall id :: id in r.timers ==> id !in r.available && r.timers[id].interval >= 1)
  }

  /** The working timers by current deadline. */
  ghost predicate InIndex(r: Registry, k: Key) {
    k.1 in r.timers && r.timers[k.1].working && r.timers[k.1].next == k.0
  }

  /** The id getNextTimerId hands out; 0 when there is none left. */
  ghost predicate IsNextId(r: Registry, id: nat) {
    if r.available != {} then IsLeast(r.available, id)
    else if r.last < LAST_ID then id == r.last + 1
    else id == INVALID_TIMER_ID
  }

  ghost function Added(r: Registry, id: nat, interval: int): Registry {
    if id == INVALID_TIMER_ID then r
    else Registry(if id in r.available then r.last else id, r.available - {id},
                  r.timers[id := TimerState(if interval <= 0 then 1 else interval, 0, false, false)])
  }

  ghost function Started(r: Registry, id: nat, now: int): Registry {
    if id !in r.timers || r.timers[id].working then r
    else r.(timers := r.timers[id := r.timers[id].(working := true, next := now + r.timers[id].interval)])
  }

  ghost function Stopped(r: Registry, id: nat): Registry {
    if id !in r.timers then r else r.(timers := r.timers[id := r.timers[id].(working := false)])
  }

  ghost function Released(r: Registry, id: nat): Registry {
    if id !in r.timers then r else r.(timers := r.timers - {id}, available := r.available + {id})
  }

  ghost predicate IsDue(r: Registry, id: nat, now: int) {
    id in r.timers && r.timers[id].working && r.timers[id].next <= now
  }

  ghost function WithInterval(r: Registry, id: nat, interval: int): Registry {
    if id !in r.timers || r.timers[id].working then r
    else r.(timers := r.timers[id := r.timers[id].(interval := if interval <= 0 then 1 else interval)])
  }

  ghost function WithSingle(r: Registry, id: nat, single: bool): Registry {
    if id !in r.timers || r.timers[id].working then r
    else r.(timers := r.timers[id := r.timers[id].(single := single)])
  }

  /** A pass at the sampled time now that re-arms at the sampled time later. */
  ghost function Passed(r: Registry, now: int, later: int): Registry {
    r.(timers := map id | id in r.timers ::
      if !IsDue(r, id, now) then r.timers[id]
      else if r.timers[id].single then r.timers[id].(working := false)
      else r.timers[id].(next := later + r.timers[id].interval))
  }

  /** The two halves of a pass: the one-shot timers among ids go idle, then the
      others get a new deadline. */
  ghost function Idled(r: Registry, ids: set<nat>): Registry {
    r.(timers := map id | id in r.timers ::
      if id in ids && r.timers[id].single then r.timers[id].(working := false) else r.timers[id])
  }

  ghost function Rearmed(r: Registry, ids: set<nat>, later: int): Registry {
    r.(timers := map id | id in r.timers ::
      if id in ids && !r.timers[id].single then r.timers[id].(next := later + r.timers[id].interval) else r.timers[id])
  }

  lemma {:induction false} PassInTwoHalves(r: Registry, ids: set<nat>, now: int, later: int)
    requires forall id :: id in ids <==> IsDue(r, id, now)
    ensures Rearmed(Idled(r, ids), ids, later) == Passed(r, now, later)
  {
    assert forall id :: id in r.timers ==>
      Rearmed(Idled(r, ids), ids, later).timers[id] == Passed(r, now, later).timers[id];
  }

  lemma {:induction false} NextIdIsFree(r: Registry, id: nat)
    requires WellFormed(r) && IsNextId(r, id) && id != INVALID_TIMER_ID
    ensures 1 <= id <= LAST_ID && id !in r.timers && (id in r.available || (r.available == {} && id == r.last + 1))
  {
  }

  lemma {:induction false} AddedWellFormed(r: Registry, id: nat, interval: int)
    requires WellFormed(r) && IsNextId(r, id)
    ensures WellFormed(Added(r, id, interval))
    ensures forall k: Key :: InIndex(Added(r, id, interval), k) <==> InIndex(r, k)
  {
    if id != INVALID_TIMER_ID {
      NextIdIsFree(r, id);
    }
  }

  lemma {:induction false} NotAdded(r: Registry, interval: int)
    ensures Added(r, INVALID_TIMER_ID, interval) == r
  {
  }

  lemma {:induction false} StartedWellFormed(r: Registry, id: nat, now: int)
    requires WellFormed(r)
    ensures WellFormed(Started(r, id, now))
    ensures forall k: Key :: InIndex(Started(r, id, now), k) <==>
              InIndex(r, k) || (id in r.timers && !r.timers[id].working && k == (now + r.timers[id].interval, id))
  {
  }

  lemma {:induction false} StoppedWellFormed(r: Registry, id: nat)
    requires WellFormed(r)
    ensures WellFormed(Stopped(r, id))
    ensures forall k: Key :: InIndex(Stopped(r, id), k) <==> InIndex(r, k) && k.1 != id
  {
  }

  lemma {:induction false} ReleasedWellFormed(r: Registry, id: nat)
    requires WellFormed(r)
    ensures WellFormed(Released(r, id))
    ensures forall k: Key :: InIndex(Released(r, id), k) <==> InIndex(r, k) && k.1 != id
  {
  }

  lemma {:induction false} SetWellFormed(r: Registry, id: nat, interval: int, single: bool)
    requires WellFormed(r)
    ensures WellFormed(WithInterval(r, id, interval)) && WellFormed(WithSingle(r, id, single))
    ensures forall k: Key :: InIndex(WithInterval(r, id, interval), k) <==> InIndex(r, k)
    ensures forall k: Key :: InIndex(WithSingle(r, id, single), k) <==> InIndex(r, k)
  {
  }

  lemma {:induction false} PassedWellFormed(r: Registry, now: int, later: int)
    requires WellFormed(r)
    ensures WellFormed(Passed(r, now, later))
    ensures forall k: Key :: InIndex(Passed(r, now, later), k) <==>
              || (InIndex(r, k) && now < k.0)
              || (IsDue(r, k.1, now) && !r.timers[k.1].single && k.0 == later + r.timers[k.1].interval)
  {
  }

  // ---------------------------------------------------------------- the code

  class Timer {
    var interval: int
    var nextTimeout: int
    var isSingle: bool
    var isWorking: bool
    var timerId: nat

    constructor (interval: int)
      ensures this.interval == (if interval <= 0 then 1 else interval) && nextTimeout == 0
      ensures !isSingle && !isWorking && timerId == INVALID_TIMER_ID
    {
      this.interval := if interval <= 0 then 1 else interval;
      nextTimeout, isSingle, isWorking, timerId := 0, false, false, INVALID_TIMER_ID;
    }

    function State(): TimerState
      reads this
    {
      TimerState(interval, nextTimeout, isSingle, isWorking)
    }
  }

  class TimerOwner {
    var lastTimerId: nat
    var availableIdSet: set<nat>
    var timerMap: map<nat, Timer>
    var timerEventsMap: map<Key, Timer>
    // What the fields stand for.
    ghost var state: Registry

    constructor ()
      ensures Valid() && state == Registry(0, {}, map[])
    {
      lastTimerId, availableIdSet, timerMap, timerEventsMap := 0, {}, map[], map[];
      state := Registry(0, {}, map[]);
    }

    ghost predicate ShowsIds(r: Registry)
      reads this`lastTimerId, this`availableIdSet
    {
      r.last == lastTimerId && r.available == availableIdSet
    }

    /** The timers of r are the timers in the map, and these know their ids. */
    ghost predicate ShowsTimers(r: Registry)
      reads this`timerMap, timerMap.Values
    {
      && r.timers.Keys == timerMap.Keys
      && (forall id :: id in timerMap ==> r.timers[id] == timerMap[id].State() && timerMap[id].timerId == id)
    }

    /** The index holds exactly the working timers of r under their deadlines. */
    ghost predicate ShowsIndex(r: Registry)
      reads this`timerMap, this`timerEventsMap
    {
      && (forall k: Key :: k in timerEventsMap <==> InIndex(r, k))
      && (forall k :: k in timerEventsMap ==> k.1 in timerMap && timerEventsMap[k] == timerMap[k.1])
    }

    ghost predicate Valid()
      reads this, timerMap.Values
    {
      WellFormed(state) && ShowsIds(state) && ShowsTimers(state) && ShowsIndex(state)
    }

    method GetNextTimerId() returns (id: nat)
      requires WellFormed(state) && ShowsIds(state)
      modifies this`lastTimerId, this`availableIdSet
      ensures IsNextId(state, id)
      ensures id == INVALID_TIMER_ID ==> ShowsIds(state)
      ensures forall interval :: ShowsIds(Added(state, id, interval))
    {
      if availableIdSet != {} {
        id := First(availableIdSet);
        availableIdSet := availableIdSet - {id};
      } else {
        var next := (lastTimerId + 1) % 0x1_0000_0000;
        if next >= lastTimerId {
          id := next;
          lastTimerId := id;
        } else {
          id := INVALID_TIMER_ID;
        }
      }
    }

    /** addTimer: the answer is null exactly when there is no id left. */
    method AddTimer(interval: int) returns (t: Timer?, ghost id: nat)
      requires Valid()
      modifies this
      ensures Valid() && IsNextId(old(state), id) && state == Added(old(state), id, interval)
      ensures t == null <==> id == INVALID_TIMER_ID
      ensures t != null ==> fresh(t) && t.timerId == id && id in timerMap && timerMap[id] == t
    {
      hide *;
      Parts();
      var next := GetNextTimerId();
      id := next;
      AddedWellFormed(state, id, interval);
      if next == INVALID_TIMER_ID {
        NotAdded(state, interval);
        Whole();
        return null, id;
      }
      NextIdIsFree(state, id);
      t := new Timer(interval);
      t.timerId := next;
      EmplaceTimer(next, t, interval);
      Whole();
    }

    lemma {:induction false} Parts()
      requires Valid()
      ensures WellFormed(state) && ShowsIds(state) && ShowsTimers(state) && ShowsIndex(state)
    {
    }

    lemma {:induction false} Whole()
      requires WellFormed(state) && ShowsIds(state) && ShowsTimers(state) && ShowsIndex(state)
      ensures Valid()
    {
    }

    /** The last part of addTimer. */
    method EmplaceTimer(id: nat, t: Timer, interval: int)
      requires id != INVALID_TIMER_ID && id !in state.timers && t !in timerMap.Values
      requires t.timerId == id && t.interval == (if interval <= 0 then 1 else interval)
      requires t.nextTimeout == 0 && !t.isSingle && !t.isWorking
      requires ShowsTimers(state) && ShowsIndex(state)
      modifies this`timerMap, this`state
      ensures state == Added(old(state), id, interval) && ShowsTimers(state) && ShowsIndex(state)
      ensures id in timerMap && timerMap[id] == t
    {
      timerMap := Emplaced(timerMap, id, t);
      state := Added(state, id, interval);
    }

    method StartTimer(timerId: nat, now: int) returns (ok: bool)
      requires Valid()
      modifies this`timerEventsMap, this`state, timerMap.Values
      ensures Valid() && state == Started(old(state), timerId, now)
      ensures ok == (timerId in timerMap)
    {
      hide *;
      Parts();
      StartedWellFormed(state, timerId, now);
      StartedCases(state, timerId, now);
      Entry(timerId);
      if timerId !in timerMap {
        return false;
      }
      ok := true;
      var timer := timerMap[timerId];
      if !timer.isWorking {
        SetStarted(timer, timerId, now);
        EmplaceEvent(timer, timerId, now);
        state := Started(state, timerId, now);
        Whole();
      }
    }

    lemma {:induction false} StartedCases(r: Registry, id: nat, now: int)
      ensures id !in r.timers || r.timers[id].working ==> Started(r, id, now) == r
      ensures ShowsIds(r) ==> ShowsIds(Started(r, id, now))
    {
    }

    method SetStarted(timer: Timer, ghost timerId: nat, now: int)
      requires timerId in timerMap && timerMap[timerId] == timer && ShowsTimers(state) && !timer.isWorking
      modifies timer`isWorking, timer`nextTimeout
      ensures ShowsTimers(Started(state, timerId, now)) && timer.nextTimeout == now + state.timers[timerId].interval
    {
      timer.isWorking := true;
      timer.nextTimeout := now + timer.interval;
    }

    method EmplaceEvent(timer: Timer, timerId: nat, ghost now: int)
      requires timerId in timerMap && timerMap[timerId] == timer && ShowsIndex(state)
      requires timerId in state.timers && !state.timers[timerId].working
      requires timer.nextTimeout == now + state.timers[timerId].interval
      modifies this`timerEventsMap
      ensures ShowsIndex(Started(state, timerId, now))
    {
      timerEventsMap := Emplaced(timerEventsMap, (timer.nextTimeout, timerId), timer);
    }

    /** timerEventsMap.erase under the timer's deadline: whatever entry it has. */
    method EraseEvent(timerId: nat)
      requires timerId in timerMap && timerId in state.timers && ShowsIndex(state)
      requires timerMap[timerId].nextTimeout == state.timers[timerId].next
      modifies this`timerEventsMap
      ensures forall k: Key :: k in timerEventsMap <==> InIndex(state, k) && k.1 != timerId
      ensures forall k :: k in timerEventsMap ==> k.1 in timerMap && timerEventsMap[k] == timerMap[k.1]
    {
      timerEventsMap := timerEventsMap - {(timerMap[timerId].nextTimeout, timerId)};
    }

    method StopTimer(timerId: nat)
      requires Valid()
      modifies this`timerEventsMap, this`state, timerMap.Values
      ensures Valid() && state == Stopped(old(state), timerId)
    {
      hide WellFormed, InIndex, ShowsTimers;
      StoppedWellFormed(state, timerId);
      Entry(timerId);
      if timerId !in timerMap {
        return;
      }
      SetIdle(timerMap[timerId], timerId);
      EraseEvent(timerId);
      state := Stopped(state, timerId);
    }

    lemma {:induction false} Entry(timerId: nat)
      requires ShowsTimers(state)
      ensures timerId in timerMap <==> timerId in state.timers
      ensures timerId in timerMap ==> timerMap[timerId].State() == state.timers[timerId]
      ensures timerId in timerMap ==>
                && timerMap[timerId].nextTimeout == state.timers[timerId].next
                && timerMap[timerId].isWorking == state.timers[timerId].working
    {
    }

    method SetIdle(timer: Timer, ghost timerId: nat)
      requires timerId in timerMap && timerMap[timerId] == timer && ShowsTimers(state)
      modifies timer`isWorking
      ensures ShowsTimers(Stopped(state, timerId))
    {
      timer.isWorking := false;
    }

    method ReleaseTimer(timerId: nat)
      requires Valid()
      modifies this, timerMap.Values
      ensures Valid() && state == Released(old(state), timerId)
      ensures timerId in old(timerMap) ==> old(timerMap[timerId]).timerId == INVALID_TIMER_ID
    {
      hide *;
      Parts();
      ReleasedWellFormed(state, timerId);
      ReleasedCases(state, timerId);
      Entry(timerId);
      if timerId !in timerMap {
        return;
      }
      EraseEvent(timerId);
      Forget(timerMap[timerId], timerId);
      availableIdSet := availableIdSet + {timerId};
      state := Released(state, timerId);
      ReleasedIds(old(state), timerId);
      Whole();
    }

    lemma {:induction false} ReleasedCases(r: Registry, id: nat)
      ensures id !in r.timers ==> Released(r, id) == r
    {
    }

    lemma {:induction false} ReleasedIds(r: Registry, id: nat)
      requires id in r.timers && r.last == lastTimerId && r.available + {id} == availableIdSet
      ensures ShowsIds(Released(r, id))
    {
    }

    /** The timer is made invalid and leaves the map. */
    method Forget(timer: Timer, timerId: nat)
      requires timerId in timerMap && timerMap[timerId] == timer && timerId in state.timers && ShowsTimers(state)
      requires forall k: Key :: k in timerEventsMap <==> InIndex(state, k) && k.1 != timerId
      requires forall k :: k in timerEventsMap ==> k.1 in timerMap && timerEventsMap[k] == timerMap[k.1]
      modifies this`timerMap, timer`timerId
      ensures ShowsTimers(Released(state, timerId)) && ShowsIndex(Released(state, timerId))
      ensures timer.timerId == INVALID_TIMER_ID
    {
      timer.timerId := INVALID_TIMER_ID;
      timerMap := timerMap - {timerId};
    }

    lemma {:induction false} SameIndex(r: Registry)
      requires ShowsIndex(state) && forall k: Key :: InIndex(r, k) <==> InIndex(state, k)
      ensures ShowsIndex(r)
    {
    }

    /** Timer::setInterval and Timer::setSingle on a live timer: refused while it
        works. */
    method SetInterval(timerId: nat, interval: int) returns (ok: bool)
      requires Valid() && timerId in timerMap
      modifies this`state, timerMap.Values
      ensures Valid() && state == WithInterval(old(state), timerId, interval)
      ensures ok == !old(timerMap[timerId].isWorking)
    {
      hide *;
      Parts();
      SetWellFormed(state, timerId, interval, false);
      SameIndex(WithInterval(state, timerId, interval));
      SetCases(state, timerId, interval, false);
      Entry(timerId);
      var timer := timerMap[timerId];
      if timer.isWorking {
        return false;
      }
      StoreInterval(timer, timerId, interval);
      state := WithInterval(state, timerId, interval);
      Whole();
      return true;
    }

    method StoreInterval(timer: Timer, ghost timerId: nat, interval: int)
      requires timerId in timerMap && timerMap[timerId] == timer && ShowsTimers(state) && !timer.isWorking
      modifies timer`interval
      ensures ShowsTimers(WithInterval(state, timerId, interval))
    {
      timer.interval := interval;
      if interval <= 0 {
        timer.interval := 1;
      }
    }

    lemma {:induction false} SetCases(r: Registry, id: nat, interval: int, single: bool)
      ensures id in r.timers && r.timers[id].working ==> WithInterval(r, id, interval) == r && WithSingle(r, id, single) == r
      ensures ShowsIds(r) ==> ShowsIds(WithInterval(r, id, interval)) && ShowsIds(WithSingle(r, id, single))
    {
    }

    method SetSingle(timerId: nat, single: bool) returns (ok: bool)
      requires Valid() && timerId in timerMap
      modifies this`state, timerMap.Values
      ensures Valid() && state == WithSingle(old(state), timerId, single)
      ensures ok == !old(timerMap[timerId].isWorking)
    {
      hide *;
      Parts();
      SetWellFormed(state, timerId, 1, single);
      SameIndex(WithSingle(state, timerId, single));
      SetCases(state, timerId, 1, single);
      Entry(timerId);
      var timer := timerMap[timerId];
      if timer.isWorking {
        return false;
      }
      StoreSingle(timer, timerId, single);
      state := WithSingle(state, timerId, single);
      Whole();
      return true;
    }

    method StoreSingle(timer: Timer, ghost timerId: nat, single: bool)
      requires timerId in timerMap && timerMap[timerId] == timer && ShowsTimers(state) && !timer.isWorking
      modifies timer`isSingle
      ensures ShowsTimers(WithSingle(state, timerId, single))
    {
      timer.isSingle := single;
    }

    /** handleTimerEvent at the sampled times now and later, when callbacks change
        no timer of this owner; TimerCallbacks has those that do. The timers due
        fire once each, in the order of the index. */
    method HandleTimerEvent(now: int, later: int) returns (ghost fired: seq<Key>)
      requires Valid()
      modifies this`timerEventsMap, this`state, timerMap.Values
      ensures Valid() && state == Passed(old(state), now, later)
      ensures Ordered(fired)
      ensures forall k: Key :: k in fired <==> InIndex(old(state), k) && k.0 <= now
    {
      hide *;
      ghost var r := state;
      Parts();
      var timeoutQueue;
      timeoutQueue, fired := TakeDue(now);
      ghost var base := timerEventsMap;
      FiredAreDue(r, fired, now);
      var cycleQueue := FireAll(timeoutQueue, fired, r);
      CycledIdled(cycleQueue, r, Ids(fired));
      RearmAll(cycleQueue, Idled(r, Ids(fired)), Ids(fired), later);
      PassInTwoHalves(r, Ids(fired), now, later);
      PassedWellFormed(r, now, later);
      PassedIds(r, now, later);
      state := Passed(r, now, later);
      Reindexed(r, base, Ids(fired), now, later);
      Whole();
    }

    lemma {:induction false} PassedIds(r: Registry, now: int, later: int)
      requires ShowsIds(r)
      ensures ShowsIds(Passed(r, now, later))
    {
    }

    lemma {:induction false} Reindexed(r: Registry, base: map<Key, Timer>, ids: set<nat>, now: int, later: int)
      requires forall id :: id in ids <==> IsDue(r, id, now)
      requires forall k: Key :: k in base <==> InIndex(r, k) && now < k.0
      requires IndexGrown(base, Idled(r, ids), ids, later)
      ensures ShowsIndex(Passed(r, now, later))
    {
      forall k: Key ensures InIndex(Passed(r, now, later), k) <==>
        (InIndex(r, k) && now < k.0) || (IsPeriodic(r, k.1) && IsDue(r, k.1, now) && k.0 == later + r.timers[k.1].interval) {
      }
    }

    /** The first block of handleTimerEvent: the due entries leave the index, in
        its order. */
    method TakeDue(now: int) returns (timeoutQueue: seq<Timer>, ghost fired: seq<Key>)
      requires ShowsIndex(state)
      modifies this`timerEventsMap
      ensures Ordered(fired) && Queued(timeoutQueue, fired)
      ensures forall k: Key :: k in fired <==> InIndex(state, k) && k.0 <= now
      ensures forall k: Key :: k in timerEventsMap <==> InIndex(state, k) && now < k.0
      ensures forall k :: k in timerEventsMap ==> k.1 in timerMap && timerEventsMap[k] == timerMap[k.1]
    {
      timeoutQueue, fired := [], [];
      assert Ordered(fired) && Queued(timeoutQueue, fired);
      hide InIndex, Ordered, Queued, Before;
      while timerEventsMap != map[]
        invariant Ordered(fired) && Queued(timeoutQueue, fired)
        invariant forall k :: k in fired ==> k.0 <= now
        invariant forall k: Key :: k in fired || k in timerEventsMap <==> InIndex(state, k)
        invariant forall j, k :: j in fired && k in timerEventsMap ==> Before(j, k)
        invariant forall k :: k in timerEventsMap ==> k.1 in timerMap && timerEventsMap[k] == timerMap[k.1]
        decreases |timerEventsMap|
      {
        var k := FirstKey(timerEventsMap.Keys);
        if k.0 > now {
          break;
        }
        QueueNext(timeoutQueue, fired, k);
        timeoutQueue, fired := timeoutQueue + [timerEventsMap[k]], fired + [k];
        timerEventsMap := timerEventsMap - {k};
      }
    }

    /** The callback loop of handleTimerEvent. */
    method FireAll(timeoutQueue: seq<Timer>, ghost fired: seq<Key>, ghost r: Registry) returns (cycleQueue: seq<Timer>)
      requires ShowsTimers(r) && Queued(timeoutQueue, fired)
      requires forall k :: k in fired ==> k.1 >= 1 && InIndex(r, k)
      modifies timerMap.Values`isWorking
      ensures ShowsTimers(Idled(r, Ids(fired)))
      ensures Cycled(cycleQueue, r, Ids(fired))
    {
      var i := 0;
      cycleQueue := [];
      NothingDone(r);
      while i < |timeoutQueue|
        invariant 0 <= i <= |timeoutQueue|
        invariant ShowsTimers(Idled(r, Ids(fired[..i]))) && Cycled(cycleQueue, r, Ids(fired[..i]))
      {
        hide Idled, Cycled, Ids;
        OneMoreId(fired, i);
        var again := Settle(timeoutQueue[i], fired[i].1, r, Ids(fired[..i]));
        OneMoreCycled(cycleQueue, r, Ids(fired[..i]), fired[i].1);
        if again {
          cycleQueue := cycleQueue + [timeoutQueue[i]];
        }
        i := i + 1;
      }
      assert fired[..i] == fired;
    }

    /** What follows one callback: a periodic timer that still works comes again. */
    method Settle(timer: Timer, ghost id: nat, ghost r: Registry, ghost done: set<nat>) returns (again: bool)
      requires id in timerMap && timer == timerMap[id] && id != INVALID_TIMER_ID
      requires id in r.timers && r.timers[id].working && ShowsTimers(Idled(r, done))
      modifies timer`isWorking
      ensures ShowsTimers(Idled(r, done + {id})) && again == !r.timers[id].single
    {
      if !timer.isSingle && timer.timerId != INVALID_TIMER_ID && timer.isWorking {
        again := true;
      } else {
        timer.isWorking := false;
        again := false;
      }
    }

    /** The last loop of handleTimerEvent: the timers of the queue come back under
        new deadlines. */
    method RearmAll(cycleQueue: seq<Timer>, ghost r: Registry, ghost ids: set<nat>, later: int)
      requires ShowsTimers(r) && Cycled(cycleQueue, r, ids)
      requires forall k :: k in timerEventsMap ==> k.1 in timerMap && timerEventsMap[k] == timerMap[k.1]
      modifies this`timerEventsMap, timerMap.Values`nextTimeout
      ensures ShowsTimers(Rearmed(r, ids, later)) && IndexGrown(old(timerEventsMap), r, ids, later)
    {
      ghost var base := timerEventsMap;
      ghost var done: set<nat> := {};
      var i := 0;
      hide *;
      NothingTaken(cycleQueue, r, ids, later);
      while i < |cycleQueue|
        invariant 0 <= i <= |cycleQueue|
        invariant Cycled(cycleQueue, r, ids) && TakenUpTo(cycleQueue, i, done, ids)
        invariant ShowsTimers(Rearmed(r, done, later)) && IndexGrown(base, r, done, later)
      {
        QueueHas(cycleQueue, i, r, ids, done, later);
        Rearm(cycleQueue[i], r, done, later, base);
        done := done + {cycleQueue[i].timerId};
        i := i + 1;
      }
      QueueAll(cycleQueue, r, ids, done, later, base);
    }

    lemma {:induction false} NothingTaken(cycleQueue: seq<Timer>, r: Registry, ids: set<nat>, later: int)
      requires ShowsTimers(r)
      requires forall k :: k in timerEventsMap ==> k.1 in timerMap && timerEventsMap[k] == timerMap[k.1]
      ensures ShowsTimers(Rearmed(r, {}, later)) && IndexGrown(timerEventsMap, r, {}, later)
      ensures TakenUpTo(cycleQueue, 0, {}, ids)
    {
      NothingRearmed(r, later);
    }

    ghost predicate TakenUpTo(cycleQueue: seq<Timer>, i: nat, done: set<nat>, ids: set<nat>)
      reads (set t | t in cycleQueue)`timerId
    {
      i <= |cycleQueue| && done <= ids && forall j :: 0 <= j < i ==> cycleQueue[j].timerId in done
    }

    /** The index holds what base held and the periodic timers among ids under
        their new deadlines. */
    ghost predicate IndexGrown(base: map<Key, Timer>, r: Registry, ids: set<nat>, later: int)
      reads this`timerEventsMap, this`timerMap
    {
      && (forall k: Key :: k in timerEventsMap <==>
            k in base || (IsPeriodic(r, k.1) && k.1 in ids && k.0 == later + r.timers[k.1].interval))
      && (forall k :: k in timerEventsMap ==> k.1 in timerMap && timerEventsMap[k] == timerMap[k.1])
    }

    lemma {:induction false} QueueHas(cycleQueue: seq<Timer>, i: nat, r: Registry, ids: set<nat>, done: set<nat>, later: int)
      requires i < |cycleQueue| && Cycled(cycleQueue, r, ids) && TakenUpTo(cycleQueue, i, done, ids)
      requires ShowsTimers(Rearmed(r, done, later))
      ensures Known(cycleQueue[i]) && cycleQueue[i].timerId in ids && IsPeriodic(r, cycleQueue[i].timerId)
      ensures cycleQueue[i] in timerMap.Values
      ensures TakenUpTo(cycleQueue, i + 1, done + {cycleQueue[i].timerId}, ids)
    {
      assert cycleQueue[i] in cycleQueue;
    }

    lemma {:induction false} QueueAll(cycleQueue: seq<Timer>, r: Registry, ids: set<nat>, done: set<nat>, later: int, base: map<Key, Timer>)
      requires Cycled(cycleQueue, r, ids) && TakenUpTo(cycleQueue, |cycleQueue|, done, ids)
      requires ShowsTimers(Rearmed(r, done, later)) && IndexGrown(base, r, done, later)
      ensures ShowsTimers(Rearmed(r, ids, later)) && IndexGrown(base, r, ids, later)
    {
      forall id | id in ids && IsPeriodic(r, id) ensures id in done {
        assert timerMap[id] in cycleQueue;
      }
      RearmedPeriodic(r, done, ids, later);
    }

    ghost predicate Known(t: Timer)
      reads this`timerMap, t`timerId
    {
      t.timerId in timerMap && timerMap[t.timerId] == t
    }

    /** One turn of that loop. */
    method Rearm(timer: Timer, ghost r: Registry, ghost done: set<nat>, later: int, ghost base: map<Key, Timer>)
      requires Known(timer) && IsPeriodic(r, timer.timerId)
      requires ShowsTimers(Rearmed(r, done, later)) && IndexGrown(base, r, done, later)
      modifies this`timerEventsMap, timer`nextTimeout
      ensures ShowsTimers(Rearmed(r, done + {timer.timerId}, later)) && IndexGrown(base, r, done + {timer.timerId}, later)
    {
      hide *;
      SetNextTimeout(timer, r, done, later);
      EmplaceAgain(timer, r, done, later, base);
    }

    method EmplaceAgain(timer: Timer, ghost r: Registry, ghost done: set<nat>, later: int, ghost base: map<Key, Timer>)
      requires Known(timer) && IsPeriodic(r, timer.timerId) && IndexGrown(base, r, done, later)
      requires timer.nextTimeout == later + r.timers[timer.timerId].interval
      modifies this`timerEventsMap
      ensures IndexGrown(base, r, done + {timer.timerId}, later)
    {
      timerEventsMap := Emplaced(timerEventsMap, (timer.nextTimeout, timer.timerId), timer);
    }

    method SetNextTimeout(timer: Timer, ghost r: Registry, ghost done: set<nat>, later: int)
      requires Known(timer) && IsPeriodic(r, timer.timerId) && ShowsTimers(Rearmed(r, done, later))
      modifies timer`nextTimeout
      ensures ShowsTimers(Rearmed(r, done + {timer.timerId}, later))
      ensures timer.nextTimeout == later + r.timers[timer.timerId].interval
    {
      timer.nextTimeout := later + timer.interval;
    }

    /** The queue holds the periodic timers among ids. */
    ghost predicate Cycled(cycleQueue: seq<Timer>, r: Registry, ids: set<nat>)
      reads this`timerMap
    {
      && (forall t :: t in cycleQueue ==> exists id :: id in ids && IsPeriodic(r, id) && id in timerMap && timerMap[id] == t)
      && (forall id :: id in ids && IsPeriodic(r, id) ==> id in timerMap && timerMap[id] in cycleQueue)
    }

    lemma {:induction false} CycledIdled(cycleQueue: seq<Timer>, r: Registry, ids: set<nat>)
      requires Cycled(cycleQueue, r, ids)
      ensures Cycled(cycleQueue, Idled(r, ids), ids)
      ensures forall id :: IsPeriodic(Idled(r, ids), id) <==> IsPeriodic(r, id)
      ensures forall id :: IsPeriodic(r, id) ==> id in r.timers && Idled(r, ids).timers[id].interval == r.timers[id].interval
    {
    }

    lemma {:induction false} OneMoreCycled(cycleQueue: seq<Timer>, r: Registry, ids: set<nat>, id: nat)
      requires Cycled(cycleQueue, r, ids) && id in timerMap && id in r.timers
      ensures Cycled(if IsPeriodic(r, id) then cycleQueue + [timerMap[id]] else cycleQueue, r, ids + {id})
    {
    }

    lemma {:induction false} QueueNext(timeoutQueue: seq<Timer>, fired: seq<Key>, k: Key)
      requires Ordered(fired) && Queued(timeoutQueue, fired) && k.1 in timerMap
      requires forall j :: j in fired ==> Before(j, k)
      ensures Ordered(fired + [k]) && Queued(timeoutQueue + [timerMap[k.1]], fired + [k])
    {
    }

    ghost predicate Queued(timeoutQueue: seq<Timer>, fired: seq<Key>)
      reads this`timerMap
    {
      && |timeoutQueue| == |fired|
      && forall i :: 0 <= i < |fired| ==> fired[i].1 in timerMap && timeoutQueue[i] == timerMap[fired[i].1]
    }
  }

  ghost function Ids(keys: seq<Key>): set<nat> {
    set k | k in keys :: k.1
  }

  ghost predicate IsPeriodic(r: Registry, id: nat) {
    id in r.timers && !r.timers[id].single
  }

  lemma {:induction false} OneMoreId(keys: seq<Key>, i: nat)
    requires i < |keys|
    ensures Ids(keys[..i + 1]) == Ids(keys[..i]) + {keys[i].1}
  {
    assert keys[..i + 1] == keys[..i] + [keys[i]];
  }

  lemma {:induction false} NothingDone(r: Registry)
    ensures Idled(r, {}) == r
  {
    assert Idled(r, {}).timers == r.timers;
  }

  lemma {:induction false} NothingRearmed(r: Registry, later: int)
    ensures Rearmed(r, {}, later) == r
  {
    assert Rearmed(r, {}, later).timers == r.timers;
  }

  lemma {:induction false} RearmedPeriodic(r: Registry, done: set<nat>, ids: set<nat>, later: int)
    requires done <= ids && forall id :: id in ids && IsPeriodic(r, id) ==> id in done
    ensures Rearmed(r, done, later) == Rearmed(r, ids, later)
  {
  }

  lemma {:induction false} FiredAreDue(r: Registry, fired: seq<Key>, now: int)
    requires WellFormed(r) && forall k: Key :: k in fired <==> InIndex(r, k) && k.0 <= now
    ensures forall id :: id in Ids(fired) <==> IsDue(r, id, now)
    ensures forall k :: k in fired ==> k.1 >= 1 && InIndex(r, k)
    ensures forall id :: IsPeriodic(Idled(r, Ids(fired)), id) <==> IsPeriodic(r, id)
  {
    forall id | IsDue(r, id, now) ensures id in Ids(fired) {
      var k: Key := (r.timers[id].next, id);
      assert k in fired;
    }
  }

  predicate Ordered(keys: seq<Key>) {
    forall i, j :: 0 <= i < j < |keys| ==> Before(keys[i], keys[j])
  }

  method FirstKey(s: set<Key>) returns (m: Key)
    requires s != {}
    ensures m in s && forall x :: x in s && x != m ==> Before(m, x) && m.0 <= x.0
  {
    var rest := s;
    m :| m in rest;
    rest := rest - {m};
    while rest != {}
      invariant m in s
      invariant forall x :: x in s ==> x in rest || x == m || Before(m, x)
      invariant forall x :: x in rest ==> x in s
      decreases |rest|
    {
      var x :| x in rest;
      if Before(x, m) {
        m := x;
      }
      rest := rest - {x};
    }
  }

  // ---------------------------------------------------------------- runs

  datatype Op =
    | Add(interval: int)
    | Start(id: nat, now: int)
    | Stop(id: nat)
    | Release(id: nat)
    | SetInterval(id: nat, interval: int)
    | SetSingle(id: nat, single: bool)
    | Pass(now: int, later: int)

  ghost predicate Step(r: Registry, op: Op, r': Registry) {
    match op
    case Add(interval) => exists id :: IsNextId(r, id) && r' == Added(r, id, interval)
    case Start(id, now) => r' == Started(r, id, now)
    case Stop(id) => r' == Stopped(r, id)
    case Release(id) => r' == Released(r, id)
    case SetInterval(id, interval) => r' == WithInterval(r, id, interval)
    case SetSingle(id, single) => r' == WithSingle(r, id, single)
    case Pass(now, later) => r' == Passed(r, now, later)
  }

  ghost predicate Run(states: seq<Registry>, ops: seq<Op>) {
    && |states| == |ops| + 1
    && forall i :: 0 <= i < |ops| ==> Step(states[i], ops[i], states[i + 1])
  }

  /** The clock does not go back from one pass to the next. */
  ghost predicate Clock(ops: seq<Op>) {
    && (forall i :: 0 <= i < |ops| && ops[i].Pass? ==> ops[i].now <= ops[i].later)
    && (forall i, j :: 0 <= i < j < |ops| && ops[i].Pass? && ops[j].Pass? ==> ops[i].later <= ops[j].now)
  }

  lemma {:induction false} StepWellFormed(r: Registry, op: Op, r': Registry)
    requires WellFormed(r) && Step(r, op, r')
    ensures WellFormed(r')
  {
    hide WellFormed, Started, Stopped, Released, WithInterval, WithSingle, Passed, Added, IsNextId;
    match op
    case Add(interval) =>
      var id :| IsNextId(r, id) && r' == Added(r, id, interval);
      AddedWellFormed(r, id, interval);
    case Start(id, now) => StartedWellFormed(r, id, now);
    case Stop(id) => StoppedWellFormed(r, id);
    case Release(id) => ReleasedWellFormed(r, id);
    case SetInterval(id, interval) => SetWellFormed(r, id, interval, false);
    case SetSingle(id, single) => SetWellFormed(r, id, 1, single);
    case Pass(now, later) => PassedWellFormed(r, now, later);
  }

  /** Over every run, live and free ids partition 1..last. */
  lemma {:induction false} RunWellFormed(states: seq<Registry>, ops: seq<Op>, i: nat)
    requires Run(states, ops) && i < |states| && WellFormed(states[0])
    ensures WellFormed(states[i])
  {
    if i == 0 {
    } else {
      RunWellFormed(states, ops, i - 1);
      StepWellFormed(states[i - 1], ops[i - 1], states[i]);
    }
  }

  /** Addition fails exactly when all 2^32 - 1 ids are live, and never hands out
      a live id. */
  lemma {:induction false} AddFailsIff(r: Registry, id: nat)
    requires WellFormed(r) && IsNextId(r, id)
    ensures id == INVALID_TIMER_ID <==> forall x :: 1 <= x <= LAST_ID ==> x in r.timers
    ensures id !in r.timers
  {
    if id != INVALID_TIMER_ID {
      NextIdIsFree(r, id);
    }
  }

  /** What holds of a periodic timer from its firing in pass i on. */
  ghost predicate Spaced(states: seq<Registry>, ops: seq<Op>, i: nat, m: nat, id: nat)
    requires i < |ops| && ops[i].Pass? && i < |states| && m < |states| && id in states[i].timers
  {
    && id in states[m].timers && states[m].timers[id].working && !states[m].timers[id].single
    && states[m].timers[id].interval == states[i].timers[id].interval
    && states[m].timers[id].next >= ops[i].later + states[i].timers[id].interval
  }

  lemma {:induction false} StaysSpaced(states: seq<Registry>, ops: seq<Op>, i: nat, m: nat, id: nat)
    requires Run(states, ops) && Clock(ops) && WellFormed(states[0]) && i < m < |states|
    requires ops[i].Pass? && IsDue(states[i], id, ops[i].now) && !states[i].timers[id].single
    requires forall x :: i < x < m ==> ops[x] != Stop(id) && ops[x] != Release(id)
    ensures Spaced(states, ops, i, m, id)
  {
    hide Spaced, WellFormed, Step;
    assert Step(states[m - 1], ops[m - 1], states[m]);
    if m == i + 1 {
      SpacedFirst(states, ops, i, id);
    } else {
      StaysSpaced(states, ops, i, m - 1, id);
      RunWellFormed(states, ops, m - 1);
      SpacedStep(states, ops, i, m - 1, id);
    }
  }

  lemma {:induction false} SpacedFirst(states: seq<Registry>, ops: seq<Op>, i: nat, id: nat)
    requires i < |ops| && |states| == |ops| + 1 && Step(states[i], ops[i], states[i + 1])
    requires ops[i].Pass? && IsDue(states[i], id, ops[i].now) && !states[i].timers[id].single
    ensures Spaced(states, ops, i, i + 1, id)
  {
  }

  lemma {:induction false} SpacedStep(states: seq<Registry>, ops: seq<Op>, i: nat, m: nat, id: nat)
    requires i < m < |ops| && |states| == |ops| + 1 && Step(states[m], ops[m], states[m + 1]) && WellFormed(states[m])
    requires ops[i].Pass? && id in states[i].timers && Spaced(states, ops, i, m, id)
    requires ops[m] != Stop(id) && ops[m] != Release(id)
    requires ops[m].Pass? ==> ops[i].later <= ops[m].later
    ensures Spaced(states, ops, i, m + 1, id)
  {
    hide WellFormed, IsNextId, IsLeast;
    if ops[m].Add? {
      var newId :| IsNextId(states[m], newId) && states[m + 1] == Added(states[m], newId, ops[m].interval);
      AddFailsIff(states[m], newId);
    }
  }

  /** Two firings of a periodic timer that is neither stopped nor released in
      between are at least its interval apart. */
  lemma {:induction false} FiringsSpaced(states: seq<Registry>, ops: seq<Op>, i: nat, j: nat, id: nat)
    requires Run(states, ops) && Clock(ops) && WellFormed(states[0]) && i < j < |ops|
    requires ops[i].Pass? && IsDue(states[i], id, ops[i].now) && !states[i].timers[id].single
    requires ops[j].Pass? && IsDue(states[j], id, ops[j].now)
    requires forall x :: i < x < j ==> ops[x] != Stop(id) && ops[x] != Release(id)
    ensures ops[j].now - ops[i].now >= states[i].timers[id].interval >= 1
  {
    StaysSpaced(states, ops, i, j, id);
    RunWellFormed(states, ops, i);
  }

  /** A one-shot timer that has fired is idle until it is started again: no pass
      fires it in between. */
  lemma {:induction false} OneShotFiresOnce(states: seq<Registry>, ops: seq<Op>, i: nat, j: nat, id: nat)
    requires Run(states, ops) && WellFormed(states[0]) && i < j < |states|
    requires ops[i].Pass? && IsDue(states[i], id, ops[i].now) && states[i].timers[id].single
    requires forall x :: i < x < j ==> !(ops[x].Start? && ops[x].id == id)
    ensures id !in states[j].timers || !states[j].timers[id].working
  {
    assert Step(states[j - 1], ops[j - 1], states[j]);
    hide WellFormed, IsNextId;
    if j == i + 1 {
    } else {
      OneShotFiresOnce(states, ops, i, j - 1, id);
    }
  }

  /** A new timer is idle and periodic; an interval below 1 becomes 1. */
  lemma {:induction false} AddedMeans(r: Registry, id: nat, interval: int)
    requires WellFormed(r) && IsNextId(r, id) && id != 0
    ensures var s := Added(r, id, interval);
            && id in s.timers && s.timers[id] == TimerState(if interval <= 0 then 1 else interval, 0, false, false)
            && forall x :: x != id ==> (x in s.timers <==> x in r.timers) && (x in r.timers ==> s.timers[x] == r.timers[x])
  {
    hide WellFormed, IsNextId;
  }
}
