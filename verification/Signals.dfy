/** The two-sided signal/slot link of core/object.h: a connection is in its
    sender's list and in its receiver's map, and either end can break it. */
module Signals {

  /** The bits of a connection's status. */
  type Status = bv2
  const NORMAL: Status := 0
  const DISCONNECTED: Status := 1
  const SLOT_DISCONNECTED: Status := 2
  const ALL_DISCONNECTED: Status := 3

  function Missing(s: Status): nat {
    (if s & DISCONNECTED == 0 then 1 else 0) + (if s & SLOT_DISCONNECTED == 0 then 1 else 0)
  }

  /** The list without the first entry for c. */
  ghost function Without(s: seq<Connection>, c: Connection): seq<Connection> {
    if s == [] then [] else if s[0] == c then s[1..] else [s[0]] + Without(s[1..], c)
  }

  ghost predicate NoDuplicates(s: seq<Connection>) {
    forall i, j :: 0 <= i < j < |s| ==> s[i] != s[j]
  }

  lemma {:induction false} WithoutAt(s: seq<Connection>, i: nat)
    requires i < |s| && s[i] !in s[..i]
    ensures Without(s, s[i]) == s[..i] + s[i + 1..]
  {
    if i == 0 {
    } else {
      assert s[1..][..i - 1] == s[..i][1..];
      WithoutAt(s[1..], i - 1);
      assert s[0] in s[..i];
    }
  }

  lemma {:induction false} WithoutKeeps(s: seq<Connection>, c: Connection)
    requires NoDuplicates(s)
    ensures forall x :: x in Without(s, c) <==> x in s && x != c
    ensures forall i :: 0 <= i < |Without(s, c)| ==> Without(s, c)[i] in s
    ensures NoDuplicates(Without(s, c))
    ensures c !in s ==> Without(s, c) == s
  {
    if s == [] {
    } else {
      WithoutKeeps(s[1..], c);
      if s[0] != c {
        NewFirst(s[0], Without(s[1..], c));
      }
      assert s == [s[0]] + s[1..];
    }
  }

  lemma {:induction false} NewFirst(c: Connection, s: seq<Connection>)
    requires c !in s && NoDuplicates(s)
    ensures NoDuplicates([c] + s)
  {
  }

  class Connection {
    const sender: Signal
    const receiver: Object?
    var status: Status

    constructor (sender: Signal, receiver: Object?)
      ensures this.sender == sender && this.receiver == receiver && status == NORMAL
    {
      this.sender, this.receiver, status := sender, receiver, NORMAL;
    }

    ghost function Receivers(): set<Object> {
      if receiver == null then {} else {receiver}
    }

    /** disconnect(flag): a bit that was set before, or by the flag, leaves its
        side alone. */
    method Disconnect(flag: Status := NORMAL)
      requires NoDuplicates(sender.connectionList)
      modifies this`status, sender`connectionList, Receivers()`connectionMap
      ensures status == ALL_DISCONNECTED
      ensures sender.connectionList ==
                if (old(status) | flag) & DISCONNECTED != 0 then old(sender.connectionList)
                else Without(old(sender.connectionList), this)
      ensures receiver != null ==>
                receiver.connectionMap == (if (old(status) | flag) & SLOT_DISCONNECTED != 0 then old(receiver.connectionMap)
                                           else old(receiver.connectionMap) - {this})
      // From a whole link: a flag given directly is the side that stays.
      ensures receiver != null && old(status == NORMAL && this in sender.connectionList && this in receiver.connectionMap) ==>
                && (this in sender.connectionList <==> flag & DISCONNECTED != 0)
                && (this in receiver.connectionMap <==> flag & SLOT_DISCONNECTED != 0)
      decreases Missing(status | flag), 0
    {
      WithoutKeeps(sender.connectionList, this);
      status := status | flag;
      var state := status;
      if state & DISCONNECTED == 0 {
        status := status | DISCONNECTED;
        sender.Disconnect(this);
      }
      if state & SLOT_DISCONNECTED == 0 {
        status := status | SLOT_DISCONNECTED;
        if receiver != null {
          receiver.Disconnect(this);
        }
      }
    }
  }

  class Object {
    // connectionMap maps each connection to the pointer that owns it.
    var connectionMap: set<Connection>

    constructor ()
      ensures connectionMap == {}
    {
      connectionMap := {};
    }

    method Disconnect(conn: Connection)
      requires conn in connectionMap ==> conn.receiver == this
      requires NoDuplicates(conn.sender.connectionList)
      modifies conn`status, conn.sender`connectionList, this`connectionMap
      ensures connectionMap == old(connectionMap) - {conn}
      ensures conn.status == if conn in old(connectionMap) then ALL_DISCONNECTED else old(conn.status)
      ensures conn.sender.connectionList ==
                if conn !in old(connectionMap) || old(conn.status) & DISCONNECTED != 0 then old(conn.sender.connectionList)
                else Without(old(conn.sender.connectionList), conn)
      decreases Missing(conn.status), 1
    {
      if conn in connectionMap {
        conn.Disconnect(SLOT_DISCONNECTED);
        // The entry that was found is still there to be erased.
        assert conn in connectionMap;
        connectionMap := connectionMap - {conn};
      }
    }

    method Connect(conn: Connection)
      modifies this`connectionMap
      ensures connectionMap == old(connectionMap) + {conn}
    {
      connectionMap := connectionMap + {conn};
    }

    /** disconnectAll: every connection of the map is broken, seen from this side. */
    method DisconnectAll(ghost w: World)
      requires this in w.objects && Inv(w)
      modifies w.connections`status, w.signals`connectionList, this`connectionMap
      ensures Inv(w) && connectionMap == {}
      ensures forall c :: c in w.connections ==>
                c.status == if c in old(connectionMap) then ALL_DISCONNECTED else old(c.status)
    {
      hide Without, NoDuplicates, ListOf;
      DisconnectEach(w);
      connectionMap := {};
    }

    /** The loop of disconnectAll over a copy of the map. */
    method DisconnectEach(ghost w: World)
      requires this in w.objects && Inv(w)
      modifies w.connections`status, w.signals`connectionList, this`connectionMap
      ensures connectionMap == old(connectionMap) <= w.connections
      ensures Shape(w) && Linked(w, connectionMap) && BrokenAtSenders(connectionMap)
      ensures forall c :: c in w.connections && c !in connectionMap ==> c.status == old(c.status)
    {
      var all := connectionMap;
      var rest := all;
      ghost var done: set<Connection> := {};
      MapInside(w);
      assert BrokenAtSenders(done);
      hide *;
      while rest != {}
        invariant connectionMap == all
        invariant forall c :: c in all <==> c in rest || c in done
        invariant forall c :: c in rest ==> c !in done
        invariant Shape(w) && Linked(w, done) && BrokenAtSenders(done)
        invariant forall c :: c in w.connections && c !in done ==> c.status == old(c.status)
        decreases |rest|
      {
        var i :| i in rest;
        DisconnectNext(i, w, done);
        rest, done := rest - {i}, done + {i};
      }
      assert done == all;
    }

    lemma {:induction false} MapInside(w: World)
      requires this in w.objects && Inv(w)
      ensures Shape(w) && Linked(w, {}) && connectionMap <= w.connections
      ensures forall c :: c in connectionMap ==> c.sender in w.signals
    {
    }

    ghost predicate BrokenAtSenders(done: set<Connection>)
      reads done`status, (set c | c in done :: c.sender)`connectionList
    {
      forall c :: c in done ==> c.status == ALL_DISCONNECTED && c !in c.sender.connectionList
    }

    /** One turn of that loop. */
    method DisconnectNext(i: Connection, ghost w: World, ghost done: set<Connection>)
      requires this in w.objects && i in connectionMap && i !in done && done <= w.connections
      requires Shape(w) && Linked(w, done) && BrokenAtSenders(done)
      modifies i`status, i.sender`connectionList, this`connectionMap
      ensures connectionMap == old(connectionMap)
      ensures Shape(w) && Linked(w, done + {i}) && BrokenAtSenders(done + {i})
    {
      hide Without, NoDuplicates, ListOf;
      WithoutListOf(i.sender, i.sender.connectionList, w.connections, i);
      i.Disconnect(SLOT_DISCONNECTED);
    }
  }

  class Signal {
    var connectionList: seq<Connection>

    constructor ()
      ensures connectionList == []
    {
      connectionList := [];
    }

    method Disconnect(conn: Connection)
      requires conn in connectionList ==> conn.sender == this
      requires NoDuplicates(connectionList)
      modifies this`connectionList, conn`status, conn.Receivers()`connectionMap
      ensures connectionList == Without(old(connectionList), conn)
      ensures conn.status == if conn in old(connectionList) then ALL_DISCONNECTED else old(conn.status)
      ensures conn.receiver != null ==>
                conn.receiver.connectionMap == (if conn !in old(connectionList) || old(conn.status) & SLOT_DISCONNECTED != 0
                                                then old(conn.receiver.connectionMap)
                                                else old(conn.receiver.connectionMap) - {conn})
      decreases Missing(conn.status), 1
    {
      var i := 0;
      WithoutKeeps(connectionList, conn);
      while i < |connectionList|
        invariant i <= |connectionList| && conn !in connectionList[..i]
        invariant connectionList == old(connectionList) && conn.status == old(conn.status)
        invariant conn.receiver != null ==> conn.receiver.connectionMap == old(conn.receiver.connectionMap)
      {
        if connectionList[i] == conn {
          WithoutAt(connectionList, i);
          conn.Disconnect(DISCONNECTED);
          // The position that was found still holds the connection.
          assert i < |connectionList| && connectionList[i] == conn;
          connectionList := connectionList[..i] + connectionList[i + 1..];
          return;
        }
        i := i + 1;
      }
    }

    /** disconnectAll: every connection of the list that has a receiver is broken;
        the others just leave the list. */
    method DisconnectAll(ghost w: World)
      requires this in w.signals && Inv(w)
      modifies w.connections`status, this`connectionList, w.objects`connectionMap
      ensures Inv(w) && connectionList == []
      ensures forall c :: c in w.connections ==>
                c.status == if c in old(connectionList) && c.receiver != null then ALL_DISCONNECTED else old(c.status)
    {
      assert ListOf(this, [], w.connections);
      hide Without, ListOf;
      var operationList := connectionList;
      ghost var done: set<Connection> := {};
      var i := 0;
      while i < |operationList|
        invariant i <= |operationList| && operationList == connectionList == old(connectionList)
        invariant forall c :: c in done ==> c in operationList && c.receiver != null
        invariant forall j :: 0 <= j < i && operationList[j].receiver != null ==> operationList[j] in done
        invariant Shape(w) && Linked(w, done)
        invariant forall c :: c in done ==> c.status == ALL_DISCONNECTED && c !in c.receiver.connectionMap
        invariant forall c :: c in w.connections && c !in done ==> c.status == old(c.status)
      {
        var c := operationList[i];
        if c.receiver != null {
          c.Disconnect(DISCONNECTED);
          done := done + {c};
        }
        i := i + 1;
      }
      Clear(w, done);
    }

    /** The end of disconnectAll. */
    method Clear(ghost w: World, ghost done: set<Connection>)
      requires this in w.signals && Shape(w) && Linked(w, done) && ListOf(this, [], w.connections)
      requires forall c :: c in done ==> c in connectionList && c.status == ALL_DISCONNECTED
      requires forall c :: c in done ==> c.receiver != null && c !in c.receiver.connectionMap
      requires forall j :: 0 <= j < |connectionList| && connectionList[j].receiver != null ==> connectionList[j] in done
      modifies this`connectionList
      ensures Inv(w) && connectionList == []
    {
      assert ListOf(this, connectionList, w.connections);
      assert forall c :: c in connectionList && c.receiver != null ==> c in done;
      connectionList := [];
    }

    /** connect, and connectFunc when there is no receiver. */
    method Connect(recvObject: Object?, ghost w: World) returns (conn: Connection)
      requires this in w.signals && (recvObject != null ==> recvObject in w.objects) && Inv(w)
      modifies this`connectionList, (if recvObject == null then {} else {recvObject})`connectionMap
      ensures fresh(conn) && conn.sender == this && conn.receiver == recvObject && conn.status == NORMAL
      ensures connectionList == old(connectionList) + [conn]
      ensures recvObject != null ==> recvObject.connectionMap == old(recvObject.connectionMap) + {conn}
      ensures Inv(w.(connections := w.connections + {conn}))
    {
      conn := new Connection(this, recvObject);
      connectionList := connectionList + [conn];
      if recvObject != null {
        recvObject.Connect(conn);
      }
    }

    /** emit reaches every connection of the list, the call operator those whose
        status is still normal; in order, each as its receiver wants it. */
    method Emit() returns (deliveries: seq<Delivery>)
      ensures deliveries == Delivered(connectionList)
    {
      var execList := connectionList;
      deliveries := [];
      for i := 0 to |execList|
        invariant deliveries == Delivered(execList[..i])
      {
        assert execList[..i + 1][..i] == execList[..i];
        if execList[i].receiver != null {
          deliveries := deliveries + [Posted(execList[i], execList[i].receiver)];
        } else {
          deliveries := deliveries + [RunInPlace(execList[i])];
        }
      }
      assert execList[..|execList|] == execList;
    }

    method Call() returns (deliveries: seq<Delivery>)
      ensures deliveries == Delivered(Normal(connectionList))
    {
      var execList := connectionList;
      deliveries := [];
      for i := 0 to |execList|
        invariant deliveries == Delivered(Normal(execList[..i]))
      {
        assert execList[..i + 1][..i] == execList[..i];
        if execList[i].status != NORMAL {
          assert Normal(execList[..i]) + [] == Normal(execList[..i]);
          continue;
        }
        DeliveredNext(Normal(execList[..i]), execList[i]);
        if execList[i].receiver != null {
          deliveries := deliveries + [Posted(execList[i], execList[i].receiver)];
        } else {
          deliveries := deliveries + [RunInPlace(execList[i])];
        }
      }
      assert execList[..|execList|] == execList;
    }
  }

  /** With a receiver the slot is posted to its queue, without one it runs at once. */
  datatype Delivery = Posted(conn: Connection, to: Object) | RunInPlace(conn: Connection)

  ghost function Delivered(s: seq<Connection>): seq<Delivery> {
    if s == [] then []
    else
      var last := s[|s| - 1];
      Delivered(s[..|s| - 1]) + [if last.receiver != null then Posted(last, last.receiver) else RunInPlace(last)]
  }

  lemma {:induction false} DeliveredNext(s: seq<Connection>, c: Connection)
    ensures Delivered(s + [c])
         == Delivered(s) + [if c.receiver != null then Posted(c, c.receiver) else RunInPlace(c)]
  {
    assert (s + [c])[..|s|] == s;
  }

  ghost function Normal(s: seq<Connection>): seq<Connection>
    reads s
  {
    if s == [] then []
    else Normal(s[..|s| - 1]) + (if s[|s| - 1].status != NORMAL then [] else [s[|s| - 1]])
  }

  // ---------------------------------------------------------------- the invariant

  /** All connections ever made, and the objects at their ends. */
  datatype World = World(connections: set<Connection>, signals: set<Signal>, objects: set<Object>)

  /** A list or map holds connections of its own, at most once. */
  ghost predicate ListOf(signal: Signal, list: seq<Connection>, connections: set<Connection>) {
    NoDuplicates(list) && forall c :: c in list ==> c in connections && c.sender == signal
  }

  ghost predicate MapOf(owner: Object, m: set<Connection>, connections: set<Connection>) {
    forall c :: c in m ==> c in connections && c.receiver == owner
  }

  lemma {:induction false} WithoutListOf(signal: Signal, list: seq<Connection>, connections: set<Connection>, c: Connection)
    requires ListOf(signal, list, connections)
    ensures ListOf(signal, Without(list, c), connections)
    ensures forall x :: x in Without(list, c) <==> x in list && x != c
    ensures c !in list ==> Without(list, c) == list
    ensures NoDuplicates(list) && (c in list ==> c.sender == signal)
  {
    WithoutKeeps(list, c);
    var kept := Without(list, c);
    assert forall i :: 0 <= i < |kept| ==> kept[i] in list;
  }

  ghost predicate Shape(w: World)
    reads w.signals`connectionList, w.objects`connectionMap
  {
    && (forall c :: c in w.connections ==> c.sender in w.signals && (c.receiver != null ==> c.receiver in w.objects))
    && (forall s :: s in w.signals ==> ListOf(s, s.connectionList, w.connections))
    && (forall o :: o in w.objects ==> MapOf(o, o.connectionMap, w.connections))
  }

  /** But for those that are just being broken, a connection is whole, or broken
      on both sides. */
  ghost predicate Linked(w: World, loose: set<Connection>)
    requires Shape(w)
    reads w.connections`status, w.signals`connectionList, w.objects`connectionMap
  {
    forall c :: c in w.connections && c !in loose ==>
      if c.status == NORMAL then c.receiver != null ==> c in c.sender.connectionList && c in c.receiver.connectionMap
      else c.status == ALL_DISCONNECTED && c !in c.sender.connectionList
           && (c.receiver != null ==> c !in c.receiver.connectionMap)
  }

  ghost predicate Inv(w: World)
    reads w.connections`status, w.signals`connectionList, w.objects`connectionMap
  {
    Shape(w) && Linked(w, {})
  }

  // ---------------------------------------------------------------- runs

  /** Before anything is connected. */
  lemma {:induction false} StartsLinked(w: World)
    requires w.connections == {}
    requires forall s :: s in w.signals ==> s.connectionList == []
    requires forall o :: o in w.objects ==> o.connectionMap == {}
    ensures Inv(w)
  {
  }

  /** What a program can ask for. A connection is broken from itself with the
      default flag. */
  datatype Request =
    | Connect(signal: Signal, receiver: Object?)
    | Break(conn: Connection)
    | BreakFromSignal(signal: Signal, conn: Connection)
    | BreakFromObject(owner: Object, conn: Connection)
    | BreakSignal(signal: Signal)
    | BreakObject(owner: Object)

  /** The request names things of the world. */
  ghost predicate Fits(r: Request, w: World) {
    match r
    case Connect(signal, receiver) => signal in w.signals && (receiver != null ==> receiver in w.objects)
    case Break(conn) => conn in w.connections
    case BreakFromSignal(signal, conn) => signal in w.signals && conn in w.connections
    case BreakFromObject(owner, conn) => owner in w.objects && conn in w.connections
    case BreakSignal(signal) => signal in w.signals
    case BreakObject(owner) => owner in w.objects
  }

  /** The request breaks c. */
  ghost predicate Targets(r: Request, c: Connection) {
    match r
    case Connect(signal, receiver) => false
    case Break(conn) => c == conn
    case BreakFromSignal(signal, conn) => c == conn && c.sender == signal
    case BreakFromObject(owner, conn) => c == conn && c.receiver == owner
    case BreakSignal(signal) => c.sender == signal
    case BreakObject(owner) => c.receiver == owner
  }

  /** A connection with a receiver is in its sender's list exactly when it is in
      the receiver's map. */
  ghost predicate TwoSided(w: World)
    reads w.signals`connectionList, w.objects`connectionMap
  {
    forall c :: c in w.connections && c.receiver != null && c.sender in w.signals && c.receiver in w.objects ==>
      (c in c.sender.connectionList <==> c in c.receiver.connectionMap)
  }

  /** Exactly the targets have left both sides. */
  twostate predicate Left(w: World, r: Request)
    reads w.connections`status, w.signals`connectionList
  {
    forall c :: c in w.connections && c.receiver != null && c.sender in w.signals ==>
      && (c in c.sender.connectionList <==> old(c in c.sender.connectionList) && !Targets(r, c))
      && (Targets(r, c) ==> c.status == ALL_DISCONNECTED)
  }

  method BreakConnection(conn: Connection, ghost w: World)
    requires Inv(w) && conn in w.connections
    modifies w.connections`status, w.signals`connectionList, w.objects`connectionMap
    ensures Inv(w) && Left(w, Break(conn))
  {
    WithoutListOf(conn.sender, conn.sender.connectionList, w.connections, conn);
    hide Without, NoDuplicates, ListOf;
    conn.Disconnect();
  }

  method BreakFromSide(r: Request, ghost w: World)
    requires Inv(w) && Fits(r, w) && (r.BreakFromSignal? || r.BreakFromObject?)
    modifies w.connections`status, w.signals`connectionList, w.objects`connectionMap
    ensures Inv(w) && Left(w, r)
  {
    hide Without, NoDuplicates, ListOf;
    WithoutListOf(r.conn.sender, r.conn.sender.connectionList, w.connections, r.conn);
    if r.BreakFromSignal? {
      WithoutListOf(r.signal, r.signal.connectionList, w.connections, r.conn);
      r.signal.Disconnect(r.conn);
    } else {
      r.owner.Disconnect(r.conn);
    }
  }

  /** One request, in any state reached so far. */
  method Perform(r: Request, ghost w: World) returns (ghost w': World)
    requires Inv(w) && Fits(r, w)
    modifies w.connections`status, w.signals`connectionList, w.objects`connectionMap
    ensures Inv(w') && TwoSided(w') && Left(w, r)
    ensures w'.signals == w.signals && w'.objects == w.objects
    ensures w.connections <= w'.connections && fresh(w'.connections - w.connections)
  {
    w' := w;
    match r
    case Connect(signal, receiver) =>
      var conn := signal.Connect(receiver, w);
      w' := w.(connections := w.connections + {conn});
    case Break(conn) =>
      BreakConnection(conn, w);
    case BreakSignal(signal) =>
      signal.DisconnectAll(w);
    case BreakObject(owner) =>
      owner.DisconnectAll(w);
    case _ =>
      BreakFromSide(r, w);
  }

  /** So both ways of raising a signal reach the same connections. */
  lemma {:induction false} RaisedAlike(w: World, signal: Signal, n: nat)
    requires Inv(w) && signal in w.signals && n <= |signal.connectionList|
    ensures Normal(signal.connectionList[..n]) == signal.connectionList[..n]
  {
    if n == 0 {
    } else {
      var s := signal.connectionList[..n];
      assert s[..n - 1] == signal.connectionList[..n - 1] && s[n - 1] in signal.connectionList;
      RaisedAlike(w, signal, n - 1);
      assert s == s[..n - 1] + [s[n - 1]];
    }
  }
}
