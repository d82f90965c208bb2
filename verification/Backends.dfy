/** The select and epoll backends of core against one interest table. */
module Backends {

  /** A channel as a backend sees it: which one it is, its descriptor, and what it
      waits for. */
  datatype Channel = Channel(id: nat, fd: nat, reading: bool, writing: bool) {
    predicate IsNone() {
      !reading && !writing
    }
  }

  /** What is registered for a descriptor. */
  datatype Interest = Interest(owner: nat, reading: bool, writing: bool)

  type Table = map<nat, Interest>

  // ---------------------------------------------------------------- meaning

  /** The latest channel of a descriptor is the one that counts. */
  function Updated(t: Table, c: Channel): Table {
    if c.IsNone() then t - {c.fd} else t[c.fd := Interest(c.id, c.reading, c.writing)]
  }

  /** epoll keeps the channel that registered the descriptor first. */
  function EpollUpdated(t: Table, c: Channel): Table {
    if c.fd in t && !c.IsNone() then t[c.fd := Interest(t[c.fd].owner, c.reading, c.writing)] else Updated(t, c)
  }

  /** Looking up a descriptor drops it when its channel is gone. */
  function Cleaned(t: Table, fd: nat, alive: set<nat>): Table {
    if fd in t && t[fd].owner !in alive then t - {fd} else t
  }

  // ---------------------------------------------------------------- select

  class SelectBackend {
    var readSets: set<nat>
    var writeSets: set<nat>
    var exceptionSets: set<nat>
    var allfdSet: set<nat>
    var channelsMap: map<nat, nat>
    // What the fields stand for.
    ghost var table: Table

    constructor ()
      ensures Valid() && table == map[]
    {
      readSets, writeSets, exceptionSets, allfdSet, channelsMap := {}, {}, {}, {}, map[];
      table := map[];
    }

    /** The sets are the table; the set that bounds the scan has at least its
        descriptors. */
    ghost predicate Valid()
      reads this
    {
      && (forall fd :: fd in channelsMap <==> fd in table)
      && (forall fd :: fd in exceptionSets <==> fd in table)
      && (forall fd :: fd in table ==> channelsMap[fd] == table[fd].owner && fd in allfdSet)
      && (forall fd :: fd in readSets <==> fd in table && table[fd].reading)
      && (forall fd :: fd in writeSets <==> fd in table && table[fd].writing)
    }

    method ClearFd(fd: nat)
      modifies this`readSets, this`writeSets, this`exceptionSets
      ensures readSets == old(readSets) - {fd} && writeSets == old(writeSets) - {fd}
      ensures exceptionSets == old(exceptionSets) - {fd}
    {
      readSets := readSets - {fd};
      writeSets := writeSets - {fd};
      exceptionSets := exceptionSets - {fd};
    }

    method UpdateChannel(c: Channel)
      requires Valid()
      modifies this
      ensures Valid() && table == Updated(old(table), c)
    {
      if c.fd in channelsMap {
        ClearFd(c.fd);
        allfdSet := allfdSet - {c.fd};
        channelsMap := channelsMap - {c.fd};
      }
      if !c.IsNone() {
        exceptionSets := exceptionSets + {c.fd};
        if c.reading {
          readSets := readSets + {c.fd};
        }
        if c.writing {
          writeSets := writeSets + {c.fd};
        }
        allfdSet := allfdSet + {c.fd};
        channelsMap := channelsMap[c.fd := c.id];
      }
      table := Updated(table, c);
    }

    method RemoveChannel(fd: nat)
      requires Valid()
      modifies this
      ensures Valid() && table == old(table) - {fd}
    {
      if fd in channelsMap {
        ClearFd(fd);
        allfdSet := allfdSet - {fd};
        channelsMap := channelsMap - {fd};
      }
      table := table - {fd};
    }

    /** checkAndGetChannelByFd. */
    method CheckAndGet(fd: nat, alive: set<nat>) returns (found: bool, id: nat)
      requires Valid()
      modifies this`readSets, this`writeSets, this`exceptionSets, this`channelsMap, this`table
      ensures Valid() && table == Cleaned(old(table), fd, alive)
      ensures found <==> fd in table
      ensures found ==> id == table[fd].owner && id in alive
    {
      found, id := false, 0;
      if fd !in channelsMap {
        return;
      }
      if channelsMap[fd] in alive {
        return true, channelsMap[fd];
      }
      channelsMap := channelsMap - {fd};
      ClearFd(fd);
      table := table - {fd};
    }

    /** The bound of the scan: the largest descriptor of allfdSet. */
    method MaxFd() returns (maxFd: nat)
      ensures if allfdSet == {} then maxFd == 1 else maxFd in allfdSet && forall fd :: fd in allfdSet ==> fd <= maxFd
    {
      if allfdSet == {} {
        return 1;
      }
      maxFd :| maxFd in allfdSet;
      var rest := allfdSet - {maxFd};
      while rest != {}
        invariant maxFd in allfdSet && forall fd :: fd in allfdSet ==> fd in rest || fd <= maxFd
        invariant forall fd :: fd in rest ==> fd in allfdSet
        decreases |rest|
      {
        var fd: nat :| fd in rest;
        if fd > maxFd {
          maxFd := fd;
        }
        rest := rest - {fd};
      }
    }

    lemma {:induction false} Registered()
      requires Valid()
      ensures forall fd :: fd in table ==> fd in allfdSet
    {
    }

    /** The scan of handleNetworkEvent after select has found something: it starts
        at descriptor 1. Each registered descriptor but 0 is looked at, once, in
        order, unless its channel is gone: then it is dropped. */
    method Scan(alive: set<nat>) returns (handled: seq<nat>)
      requires Valid()
      modifies this`readSets, this`writeSets, this`exceptionSets, this`channelsMap, this`table
      ensures Valid() && Ascending(handled)
      ensures forall fd :: fd in handled <==> fd != 0 && fd in old(table) && old(table)[fd].owner in alive
      ensures forall fd :: fd in table <==> fd in old(table) && (fd == 0 || old(table)[fd].owner in alive)
      ensures forall fd :: fd in table ==> table[fd] == old(table)[fd]
    {
      hide *;
      Registered();
      ghost var before := table;
      var maxFd := MaxFd();
      handled := [];
      NothingScanned(table, alive);
      var fd := 1;
      while fd <= maxFd
        invariant 1 <= fd && Valid() && allfdSet == old(allfdSet) && ScannedTo(before, table, handled, fd, alive)
      {
        ghost var t := table;
        var found, id := CheckAndGet(fd, alive);
        ScanNext(before, t, handled, fd, alive);
        if found {
          handled := handled + [fd];
        }
        fd := fd + 1;
      }
      ScanDone(before, table, handled, fd, alive);
    }
  }

  /** How far the scan has come: the descriptors below fd have been looked at. */
  ghost predicate ScannedTo(before: Table, now: Table, handled: seq<nat>, fd: nat, alive: set<nat>) {
    && Ascending(handled)
    && (forall x :: x in handled <==> 1 <= x < fd && x in before && before[x].owner in alive)
    && (forall x :: x in now <==> x in before && (x == 0 || x >= fd || before[x].owner in alive))
    && (forall x :: x in now ==> now[x] == before[x])
  }

  lemma {:induction false} NothingScanned(t: Table, alive: set<nat>)
    ensures ScannedTo(t, t, [], 1, alive)
  {
  }

  lemma {:induction false} ScanNext(before: Table, now: Table, handled: seq<nat>, fd: nat, alive: set<nat>)
    requires ScannedTo(before, now, handled, fd, alive) && fd >= 1
    ensures var cleaned := Cleaned(now, fd, alive);
            ScannedTo(before, cleaned, if fd in cleaned then handled + [fd] else handled, fd + 1, alive)
  {
    AscendingNext(handled, fd);
    hide Ascending;
  }

  lemma {:induction false} ScanDone(before: Table, now: Table, handled: seq<nat>, fd: nat, alive: set<nat>)
    requires ScannedTo(before, now, handled, fd, alive) && fd >= 1 && forall x :: x in before ==> x < fd
    ensures Ascending(handled)
    ensures forall x :: x in handled <==> x != 0 && x in before && before[x].owner in alive
    ensures forall x :: x in now <==> x in before && (x == 0 || before[x].owner in alive)
    ensures forall x :: x in now ==> now[x] == before[x]
  {
    hide Ascending;
  }

  predicate Ascending(s: seq<nat>) {
    forall i, j :: 0 <= i < j < |s| ==> s[i] < s[j]
  }

  lemma {:induction false} AscendingNext(s: seq<nat>, x: nat)
    requires Ascending(s) && forall y :: y in s ==> y < x
    ensures Ascending(s + [x])
  {
    forall i | 0 <= i < |s| ensures s[i] < x {
      assert s[i] in s;
    }
  }

  // ---------------------------------------------------------------- epoll

  datatype Operation = CtlAdd | CtlMod | CtlDel

  /** What the kernel has registered: the events of each descriptor. */
  type Registrations = map<nat, (bool, bool)>

  class EpollBackend {
    var channelsMap: map<nat, nat>
    var kernel: Registrations
    // What the fields stand for.
    ghost var table: Table

    constructor ()
      ensures Valid() && table == map[]
    {
      channelsMap, kernel, table := map[], map[], map[];
    }

    ghost predicate Valid()
      reads this
    {
      && (forall fd :: fd in channelsMap <==> fd in table)
      && (forall fd :: fd in kernel <==> fd in table)
      && (forall fd :: fd in table ==> channelsMap[fd] == table[fd].owner && kernel[fd] == (table[fd].reading, table[fd].writing))
    }

    /** epoll_ctl succeeds only like this: a new descriptor is added, a known one
        modified or deleted. */
    method Update(operation: Operation, fd: nat, reading: bool, writing: bool)
      requires operation.CtlAdd? <==> fd !in kernel
      modifies this`kernel
      ensures kernel == if operation.CtlDel? then old(kernel) - {fd} else old(kernel)[fd := (reading, writing)]
    {
      kernel := if operation.CtlDel? then kernel - {fd} else kernel[fd := (reading, writing)];
    }

    method UpdateChannel(c: Channel)
      requires Valid()
      modifies this
      ensures Valid() && table == EpollUpdated(old(table), c)
    {
      if c.fd !in channelsMap {
        if !c.IsNone() {
          channelsMap := channelsMap[c.fd := c.id];
          Update(CtlAdd, c.fd, c.reading, c.writing);
        }
      } else {
        if c.IsNone() {
          Update(CtlDel, c.fd, c.reading, c.writing);
          channelsMap := channelsMap - {c.fd};
        } else {
          Update(CtlMod, c.fd, c.reading, c.writing);
        }
      }
      table := EpollUpdated(table, c);
    }

    method RemoveChannel(fd: nat)
      requires Valid()
      modifies this
      ensures Valid() && table == old(table) - {fd}
    {
      if fd in channelsMap {
        Update(CtlDel, fd, false, false);
        channelsMap := channelsMap - {fd};
      }
      table := table - {fd};
    }

    method CheckAndGet(fd: nat, alive: set<nat>) returns (found: bool, id: nat)
      requires Valid()
      modifies this
      ensures Valid() && table == Cleaned(old(table), fd, alive)
      ensures found <==> fd in table
      ensures found ==> id == table[fd].owner && id in alive
    {
      found, id := false, 0;
      if fd !in channelsMap {
        return;
      }
      if channelsMap[fd] in alive {
        return true, channelsMap[fd];
      }
      channelsMap := channelsMap - {fd};
      Update(CtlDel, fd, false, false);
      table := table - {fd};
    }
  }

  // ---------------------------------------------------------------- agreement

  datatype Op = Update(c: Channel) | Remove(fd: nat) | Check(fd: nat, alive: set<nat>)

  function SelectStep(t: Table, op: Op): Table {
    match op
    case Update(c) => Updated(t, c)
    case Remove(fd) => t - {fd}
    case Check(fd, alive) => Cleaned(t, fd, alive)
  }

  function EpollStep(t: Table, op: Op): Table {
    match op
    case Update(c) => EpollUpdated(t, c)
    case Remove(fd) => t - {fd}
    case Check(fd, alive) => Cleaned(t, fd, alive)
  }

  ghost function SelectTable(ops: seq<Op>): Table {
    if ops == [] then map[] else SelectStep(SelectTable(ops[..|ops| - 1]), ops[|ops| - 1])
  }

  ghost function EpollTable(ops: seq<Op>): Table {
    if ops == [] then map[] else EpollStep(EpollTable(ops[..|ops| - 1]), ops[|ops| - 1])
  }

  /** A channel takes over a descriptor that another one has registered. */
  predicate TakesOver(t: Table, op: Op) {
    op.Update? && !op.c.IsNone() && op.c.fd in t && t[op.c.fd].owner != op.c.id
  }

  ghost predicate NoTakeover(ops: seq<Op>) {
    forall i :: 0 <= i < |ops| ==> !TakesOver(SelectTable(ops[..i]), ops[i])
  }

  ghost predicate AgreeThroughout(ops: seq<Op>) {
    forall i :: 0 <= i <= |ops| ==> SelectTable(ops[..i]) == EpollTable(ops[..i])
  }

  /** From one table, a step leaves both backends with the same table unless it
      takes a descriptor over. */
  lemma {:induction false} StepsAgree(t: Table, op: Op)
    ensures SelectStep(t, op) == EpollStep(t, op) <==> !TakesOver(t, op)
  {
    if TakesOver(t, op) {
      assert SelectStep(t, op)[op.c.fd].owner != EpollStep(t, op)[op.c.fd].owner;
    }
  }

  /** Over a whole history the two backends agree exactly when no descriptor is
      taken over. */
  lemma {:induction false} AgreeIff(ops: seq<Op>)
    ensures AgreeThroughout(ops) <==> NoTakeover(ops)
  {
    if NoTakeover(ops) {
      forall i | 0 <= i <= |ops| ensures SelectTable(ops[..i]) == EpollTable(ops[..i]) {
        AgreeUpTo(ops, i);
      }
    }
    if AgreeThroughout(ops) {
      forall i | 0 <= i < |ops| ensures !TakesOver(SelectTable(ops[..i]), ops[i]) {
        assert SelectTable(ops[..i]) == EpollTable(ops[..i]);
        assert SelectTable(ops[..i + 1]) == EpollTable(ops[..i + 1]);
        assert ops[..i + 1][..i] == ops[..i];
        StepsAgree(SelectTable(ops[..i]), ops[i]);
      }
    }
  }

  lemma {:induction false} AgreeUpTo(ops: seq<Op>, i: nat)
    requires NoTakeover(ops) && i <= |ops|
    ensures SelectTable(ops[..i]) == EpollTable(ops[..i])
  {
    if i == 0 {
    } else {
      AgreeUpTo(ops, i - 1);
      assert ops[..i][..i - 1] == ops[..i - 1];
      StepsAgree(SelectTable(ops[..i - 1]), ops[i - 1]);
    }
  }

  /** After a takeover the difference is not only a name: once the first channel is
      gone, epoll drops a descriptor that the second one still waits for. */
  lemma {:induction false} TakeoverDrops(t: Table, c: Channel, alive: set<nat>)
    requires TakesOver(t, Update(c)) && t[c.fd].owner !in alive && c.id in alive
    ensures c.fd in SelectStep(SelectStep(t, Update(c)), Check(c.fd, alive))
    ensures c.fd !in EpollStep(EpollStep(t, Update(c)), Check(c.fd, alive))
  {
  }

  /** As here: channel 2 waits for descriptor 5 after channel 1, which goes. */
  lemma {:induction false} TakeoverDropsFive()
    ensures var ops := [Update(Channel(1, 5, true, false)), Update(Channel(2, 5, true, false)), Check(5, {2})];
            && SelectTable(ops) == map[5 := Interest(2, true, false)]
            && EpollTable(ops) == map[]
            && !NoTakeover(ops)
  {
    var one, two, look := Update(Channel(1, 5, true, false)), Update(Channel(2, 5, true, false)), Check(5, {2});
    var ops := [one, two, look];
    assert ops[..2] == [one, two] && [one, two][..1] == [one] && [one][..0] == [];
    assert SelectTable([one]) == EpollTable([one]) == map[5 := Interest(1, true, false)];
    assert SelectTable([one, two]) == map[5 := Interest(2, true, false)];
    assert EpollTable([one, two]) == map[5 := Interest(1, true, false)];
    assert ops[..1] == [one] && TakesOver(SelectTable(ops[..1]), ops[1]);
  }

  /** What a table says once a channel is updated: the channel and what it waits for,
      or nothing; the other descriptors as before. */
  lemma {:induction false} UpdatedMeans(t: Table, id: nat, fd: nat, reading: bool, writing: bool)
    ensures var u := Updated(t, Channel(id, fd, reading, writing));
            && (fd in u <==> reading || writing)
            && (fd in u ==> u[fd] == Interest(id, reading, writing))
            && forall x :: x != fd ==> (x in u <==> x in t) && (x in t ==> u[x] == t[x])
    ensures var u := EpollUpdated(t, Channel(id, fd, reading, writing));
            && (fd in u <==> reading || writing)
            && (fd in u ==> u[fd] == Interest(if fd in t then t[fd].owner else id, reading, writing))
            && forall x :: x != fd ==> (x in u <==> x in t) && (x in t ==> u[x] == t[x])
  {
  }
}
