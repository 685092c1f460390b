/** Without new connections and requests the broker winds down, however its remaining events are
    ordered, and the order in which peers and slots are released is immaterial. */
module Draining {
  import opened Types
  import opened Leases
  import opened Invariants
  import opened Counting
  import opened Runs

  function Idle(s: State): set<Name> {
    set n | n in s.nets && s.nets[n].deadline.Some?
  }

  // ---- Termination

  /** How many disconnections and timer events may still happen. */
  ghost function Potential(s: State): nat {
    if s.status != Running then 0
    else 2 * Sum(SlotCounts(s.leases)) + 3 * |s.leases| + |Idle(s)| + if s.timer.Some? then 1 else 0
  }

  predicate Calm(e: Event) {
    !e.Connect? && !e.Request?
  }

  predicate Drains(e: Event) {
    e.Disconnect? || e.NetworkTimer? || e.BrokerTimer?
  }

  /** Only the names a leaving peer held can become idle. */
  lemma ReleaseIdles(s: State, s1: State, p: Peer)
    requires p in s.leases && Released(s, s1, p) && Distinct(s.leases[p])
    ensures |Idle(s1)| <= |Idle(s)| + |s.leases[p]|
  {
    var names := Elements(s.leases[p]);
    DistinctSize(s.leases[p]);
    forall n | n in Idle(s1) ensures n in Idle(s) + names {
      assert ReleasedNet(s, s1, p, n);
    }
    SubsetSize(Idle(s1), Idle(s) + names);
    assert |Idle(s) + names| <= |Idle(s)| + |names|;
  }

  lemma DisconnectIdles(s: State, e: Event)
    requires Ok(s) && Enabled(s, e) && e.Disconnect?
    ensures Step(s, e).leases == s.leases - {e.peer}
    ensures |Idle(Step(s, e))| <= |Idle(s)| + |s.leases[e.peer]|
  {
    hide Idle;
    var s1 := Release(s, e.peer, e.ticks);
    assert s1.leases == s.leases[e.peer := []] && |Idle(s1)| <= |Idle(s)| + |s.leases[e.peer]| by {
      ReleaseEffect(s, e.peer, e.ticks);
      ReleaseIdles(s, s1, e.peer);
    }
    LeaveIdles(s1, e.peer, e.last);
    assert s1.leases - {e.peer} == s.leases - {e.peer};
  }

  lemma LeaveIdles(s: State, p: Peer, last: nat)
    ensures Leave(s, p, last).leases == s.leases - {p} && Idle(Leave(s, p, last)) == Idle(s)
  {
  }

  lemma DisconnectDrains(s: State, e: Event)
    requires Ok(s) && Enabled(s, e) && e.Disconnect?
    ensures Potential(Step(s, e)) < Potential(s)
  {
    hide Ok, Idle;
    DisconnectIdles(s, e);
    var left := s.leases - {e.peer};
    SumSplit(SlotCounts(s.leases), e.peer);
    assert SlotCounts(s.leases) - {e.peer} == SlotCounts(left);
    assert left.Keys == s.leases.Keys - {e.peer};
  }

  /** Every disconnection and every timer event brings the end closer; other calm events never delay it. */
  lemma CalmStepDrains(s: State, e: Event)
    requires Ok(s) && Enabled(s, e) && Calm(e)
    ensures Potential(Step(s, e)) + (if Drains(e) then 1 else 0) <= Potential(s)
  {
    match e
    case Disconnect(p, ticks, last) => DisconnectDrains(s, e);
    case NetworkTimer(n) => assert Idle(Step(s, e)) == Idle(s) - {n};
    case Tick(_) => assert Idle(Step(s, e)) == Idle(s);
    case _ =>
  }

  function DrainCount(events: seq<Event>): nat {
    if events == [] then 0 else (if Drains(events[0]) then 1 else 0) + DrainCount(events[1..])
  }

  /** No calm run is longer, in disconnections and timer events, than the potential it starts with. */
  lemma {:induction false} DrainingIsBounded(s: State, events: seq<Event>)
    requires Ok(s) && Accepts(s, events) && forall e | e in events :: Calm(e)
    ensures Ok(After(s, events))
    ensures Potential(After(s, events)) + DrainCount(events) <= Potential(s)
    decreases |events|
  {
    if events != [] {
      CalmStepDrains(s, events[0]);
      StepKeepsOk(s, events[0]);
      DrainingIsBounded(Step(s, events[0]), events[1..]);
    }
  }

  /** Once used, a running broker can always move on towards its end: a peer may leave, or waiting for
      the timeout lets the shutdown timer fire. */
  lemma DrainingNeverStalls(s: State)
    requires Ok(s) && s.status == Running && s.started
    ensures (exists p :: Enabled(s, Disconnect(p, [], 0)))
            || Enabled(Step(s, Tick(IDLE_TIMEOUT)), BrokerTimer)
  {
    if s.leases != map[] {
      var p :| p in s.leases;
      assert Enabled(s, Disconnect(p, [], 0));
    }
  }

  /** After waiting, a disconnection or a timer event can happen. */
  predicate MayDrain(s: State, d: nat, e: Event) {
    Drains(e) && Enabled(s, Tick(d)) && Enabled(Step(s, Tick(d)), e)
  }

  /** No disconnection and no timer event can happen any more, however long one waits. */
  ghost predicate Exhausted(s: State) {
    forall d, e :: !MayDrain(s, d, e)
  }

  lemma RunningIsNotExhausted(s: State)
    requires Ok(s) && s.status == Running && s.started
    ensures !Exhausted(s)
  {
    DrainingNeverStalls(s);
    if p :| Enabled(s, Disconnect(p, [], 0)) {
      assert MayDrain(s, 0, Disconnect(p, [], 0));
    } else {
      assert MayDrain(s, IDLE_TIMEOUT, BrokerTimer);
    }
  }

  /** Events in a row leave the broker running, or end it with success, or contain a listener failure. */
  lemma {:induction false} AfterIs(s: State, events: seq<Event>)
    requires Ok(s) && s.status == Running && Accepts(s, events)
    ensures Ok(After(s, events)) && (s.started ==> After(s, events).started)
    ensures After(s, events).status in {Running, Exited(EXIT_SUCCESS)} || ListenerError in events
    decreases |events|
  {
    if events != [] {
      var t := Step(s, events[0]);
      StepKeepsOk(s, events[0]);
      StepEnds(s, events[0]);
      StepIsMonotone(s, events[0]);
      if t.status == Running {
        AfterIs(t, events[1..]);
      } else {
        assert events[1..] == [];
      }
    }
  }

  /** Every way of winding down leads to the end. Once the broker was used, any list of events, whatever their
      order, after which no disconnection and no timer can happen any more has ended it; and if the listener
      did not fail, with success and without peers and networks. */
  lemma DrainingEnds(s: State, events: seq<Event>)
    requires Ok(s) && s.status == Running && s.started
    requires Accepts(s, events) && Exhausted(After(s, events))
    ensures After(s, events).status != Running
    ensures ListenerError !in events ==>
              && After(s, events).status == Exited(EXIT_SUCCESS)
              && After(s, events).leases == map[] && After(s, events).nets == map[]
  {
    hide Exhausted;
    AfterIs(s, events);
    if After(s, events).status == Running {
      RunningIsNotExhausted(After(s, events));
    }
  }

  /** The events `DrainingReachesExit` finds. */
  ghost predicate LeadsToExit(s: State, events: seq<Event>) {
    && Accepts(s, events)
    && (forall e | e in events :: Calm(e) && !e.Signal?)
    && After(s, events).status == Exited(EXIT_SUCCESS) && After(s, events).nets == map[]
  }

  lemma FirstLeadsToExit(s: State, e: Event, rest: seq<Event>)
    requires Enabled(s, e) && Calm(e) && !e.Signal? && LeadsToExit(Step(s, e), rest)
    ensures LeadsToExit(s, [e] + rest)
  {
  }

  /** From every reachable state after the first connection, disconnecting the peers and waiting leads to
      a successful exit with no network left. */
  lemma {:induction false} DrainingReachesExit(s: State) returns (events: seq<Event>)
    requires Ok(s) && s.status == Running && s.started
    ensures LeadsToExit(s, events)
    decreases |s.leases|
  {
    if s.leases == map[] {
      var wait := Tick(IDLE_TIMEOUT);
      assert LeadsToExit(Step(Step(s, wait), BrokerTimer), []);
      FirstLeadsToExit(Step(s, wait), BrokerTimer, []);
      FirstLeadsToExit(s, wait, [BrokerTimer] + []);
      events := [wait] + ([BrokerTimer] + []);
    } else {
      var p :| p in s.leases;
      var e := Disconnect(p, [], 0);
      StepKeepsOk(s, e);
      DisconnectIdles(s, e);
      DisconnectFraming(s, e);
      assert Step(s, e).leases.Keys == s.leases.Keys - {p};
      var rest := DrainingReachesExit(Step(s, e));
      FirstLeadsToExit(s, e, rest);
      events := [e] + rest;
    }
  }

  /** Nothing differs but leases, clock, deadlines and the shutdown timer. */
  ghost predicate SameNetworks(s: State, t: State) {
    && t.nets.Keys == s.nets.Keys && t.next == s.next && t.registry == s.registry
    && t.started == s.started && t.status == s.status
    && forall n | n in s.nets :: t.nets[n].id == s.nets[n].id
  }

  lemma DisconnectFraming(s: State, e: Event)
    requires Ok(s) && Enabled(s, e) && e.Disconnect?
    ensures SameNetworks(s, Step(s, e))
  {
    hide Ok, Release;
    ReleaseEffect(s, e.peer, e.ticks);
    forall n | n in s.nets ensures Step(s, e).nets[n].id == s.nets[n].id {
      assert ReleasedNet(s, Release(s, e.peer, e.ticks), e.peer, n);
    }
  }

  // ---- Order of release

  /** A state without its clock and deadlines. */
  datatype Shape = Shape(
    leases: map<Peer, seq<Name>>, ids: map<Name, nat>, idle: set<Name>, next: nat,
    registry: bool, waiting: bool, started: bool, status: Status)

  function ShapeOf(s: State): Shape {
    Shape(s.leases, map n | n in s.nets :: s.nets[n].id, Idle(s), s.next,
          s.registry, s.timer.Some?, s.started, s.status)
  }

  /** Under the invariant the leases and networks determine which networks are idle and whether the
      broker waits to shut down. */
  lemma ShapeIsDetermined(s: State, t: State)
    requires Ok(s) && Ok(t)
    requires s.leases == t.leases && SameNetworks(s, t)
    ensures ShapeOf(s) == ShapeOf(t)
  {
    forall n | n in s.nets ensures n in Idle(s) <==> n in Idle(t) {
      assert NetOk(s, n) && NetOk(t, n);
    }
  }

  predicate AllDisconnect(events: seq<Event>) {
    forall e | e in events :: e.Disconnect?
  }

  function Peers(events: seq<Event>): set<Peer>
    requires AllDisconnect(events)
  {
    set e | e in events :: e.peer
  }

  lemma PeersSplit(events: seq<Event>)
    requires events != [] && AllDisconnect(events)
    ensures Peers(events) == {events[0].peer} + Peers(events[1..])
  {
  }

  lemma ChainNetworks(s: State, t: State, u: State, a: set<Peer>, b: set<Peer>)
    requires SameNetworks(s, t) && SameNetworks(t, u)
    requires t.leases == s.leases - a && u.leases == t.leases - b
    ensures SameNetworks(s, u) && u.leases == s.leases - (a + b)
  {
  }

  lemma {:induction false} DisconnectsEffect(s: State, events: seq<Event>)
    requires Ok(s) && Accepts(s, events) && AllDisconnect(events)
    ensures Ok(After(s, events)) && SameNetworks(s, After(s, events))
    ensures After(s, events).leases == s.leases - Peers(events)
    decreases |events|
  {
    if events == [] {
      assert s.leases - Peers(events) == s.leases;
    } else {
      var e := events[0];
      StepKeepsOk(s, e);
      DisconnectIdles(s, e);
      DisconnectFraming(s, e);
      DisconnectsEffect(Step(s, e), events[1..]);
      PeersSplit(events);
      ChainNetworks(s, Step(s, e), After(s, events), {e.peer}, Peers(events[1..]));
    }
  }

  /** Disconnecting the same peers in any two orders, at any pace, leaves the same leases, networks, idle
      networks and shutdown state. */
  lemma DisconnectOrderIsImmaterial(s: State, one: seq<Event>, other: seq<Event>)
    requires Ok(s) && Accepts(s, one) && Accepts(s, other)
    requires AllDisconnect(one) && AllDisconnect(other) && Peers(one) == Peers(other)
    ensures ShapeOf(After(s, one)) == ShapeOf(After(s, other))
  {
    DisconnectsEffect(s, one);
    DisconnectsEffect(s, other);
    ShapeIsDetermined(After(s, one), After(s, other));
  }

  /** Drop all leases of a peer in an arbitrary order: `order` picks a slot each time. */
  ghost predicate Emptying(s: State, p: Peer, order: seq<(nat, nat)>)
    requires p in s.leases
    decreases |order|
  {
    if order == [] then s.leases[p] == []
    else order[0].0 < |s.leases[p]| && Emptying(Drop(s, p, order[0].0, order[0].1), p, order[1..])
  }

  ghost function Empty(s: State, p: Peer, order: seq<(nat, nat)>): State
    requires p in s.leases && Emptying(s, p, order)
    decreases |order|
  {
    if order == [] then s else Empty(Drop(s, p, order[0].0, order[0].1), p, order[1..])
  }

  lemma {:induction false} EmptyEffect(s: State, p: Peer, order: seq<(nat, nat)>)
    requires Ok(s) && p in s.leases && Emptying(s, p, order)
    ensures Ok(Empty(s, p, order)) && Released(s, Empty(s, p, order), p)
    decreases |order|
  {
    if order == [] {
      assert s.leases == s.leases[p := []];
    } else {
      var i, d := order[0].0, order[0].1;
      var s1 := Drop(s, p, i, d);
      DropKeepsOk(s, p, i, d);
      EmptyEffect(s1, p, order[1..]);
      DropThenReleased(s, p, i, d, s1, Empty(s, p, order));
    }
  }

  /** Popping the slots of a peer from the end leaves the same leases, networks and idle networks as
      emptying them in any other order. */
  lemma SlotOrderIsImmaterial(s: State, p: Peer, ticks: seq<nat>, order: seq<(nat, nat)>)
    requires Ok(s) && p in s.leases && Emptying(s, p, order)
    ensures ShapeOf(Release(s, p, ticks)) == ShapeOf(Empty(s, p, order))
  {
    ReleaseEffect(s, p, ticks);
    EmptyEffect(s, p, order);
    var a, b := Release(s, p, ticks), Empty(s, p, order);
    forall n | n in a.nets ensures a.nets[n].id == b.nets[n].id {
      assert ReleasedNet(s, a, p, n) && ReleasedNet(s, b, p, n);
    }
    ShapeIsDetermined(a, b);
  }
}
