/** How long networks live: when idle ones go away, what ends a network early, and how long the lock of a
    peer holds. The end of the process is the end of every network. */
module Lifetimes {
  import opened Types
  import opened Leases
  import opened Invariants
  import opened Runs

  ghost predicate Alive(s: State, n: Name) {
    s.status == Running && n in s.nets
  }

  // ---- Until when a name is leased

  /** The moment, while a peer is released, at which it gives up a name. */
  function ReleaseMoment(s: State, p: Peer, ticks: seq<nat>, n: Name): nat
    requires p in s.leases && n in s.leases[p]
    decreases |s.leases[p]|
  {
    var i := |s.leases[p]| - 1;
    if s.leases[p][i] == n then s.now + First(ticks)
    else ReleaseMoment(Drop(s, p, i, First(ticks)), p, Rest(ticks), n)
  }

  lemma {:induction false} ReleaseMomentInside(s: State, p: Peer, ticks: seq<nat>, n: Name)
    requires Ok(s) && p in s.leases && n in s.leases[p]
    ensures s.now <= ReleaseMoment(s, p, ticks, n) <= Release(s, p, ticks).now
    decreases |s.leases[p]|
  {
    hide Ok, Drop;
    var i, d := |s.leases[p]| - 1, First(ticks);
    DropKeepsOk(s, p, i, d);
    DropLast(s, p, d);
    if s.leases[p][i] == n {
      ReleaseFrame(Drop(s, p, i, d), p, Rest(ticks));
    } else {
      ReleaseMomentInside(Drop(s, p, i, d), p, Rest(ticks), n);
    }
  }

  /** A name that is not leased any more after the release of a peer expires the timeout after the moment the
      peer gave it up. */
  lemma {:induction false} ReleaseDeadline(s: State, p: Peer, ticks: seq<nat>, n: Name)
    requires Ok(s) && p in s.leases && n in s.leases[p] && !Held(Release(s, p, ticks), n)
    ensures n in Release(s, p, ticks).nets
    ensures Release(s, p, ticks).nets[n].deadline == Some(ReleaseMoment(s, p, ticks, n) + IDLE_TIMEOUT)
    decreases |s.leases[p]|
  {
    hide Ok, Drop, Held;
    var i, d := |s.leases[p]| - 1, First(ticks);
    var s1 := Drop(s, p, i, d);
    DropKeepsOk(s, p, i, d);
    DropLast(s, p, d);
    if s.leases[p][i] == n {
      LeasesAreOk(s);
      GivenUp(s, p, d, n);
      LaterDrops(s1, p, Rest(ticks), n);
      SameHolders(s1, Release(s1, p, Rest(ticks)), n);
    } else {
      ReleaseDeadline(s1, p, Rest(ticks), n);
    }
  }

  lemma DropLast(s: State, p: Peer, d: nat)
    requires p in s.leases && s.leases[p] != []
    ensures var i := |s.leases[p]| - 1;
            var s1 := Drop(s, p, i, d);
            p in s1.leases && s1.leases[p] == s.leases[p][..i] && s1.now == s.now + d
  {
    var names := s.leases[p];
    var i := |names| - 1;
    assert names[..i] + names[i + 1..] == names[..i];
  }

  lemma SameHolders(s: State, t: State, n: Name)
    requires Holders(s.leases, n) == Holders(t.leases, n)
    ensures Held(s, n) <==> Held(t, n)
  {
  }

  lemma GivenUp(s: State, p: Peer, d: nat, n: Name)
    requires LeasesOk(s) && p in s.leases && s.leases[p] != [] && s.leases[p][|s.leases[p]| - 1] == n
    ensures var s1 := Drop(s, p, |s.leases[p]| - 1, d);
            && p in s1.leases && n !in s1.leases[p] && n in s1.nets
            && (!Held(s1, n) ==> s1.nets[n].deadline == Some(s.now + d + IDLE_TIMEOUT))
  {
    DropLast(s, p, d);
    assert n in s.leases[p] && n in s.nets;
  }

  lemma LeasesAreOk(s: State)
    requires Ok(s)
    ensures LeasesOk(s)
  {
  }

  /** Releasing a peer does not touch a name the peer does not lease. */
  lemma LaterDrops(s: State, p: Peer, ticks: seq<nat>, n: Name)
    requires Ok(s) && p in s.leases && n !in s.leases[p] && n in s.nets
    ensures var t := Release(s, p, ticks);
            n in t.nets && t.nets[n] == s.nets[n] && Holders(t.leases, n) == Holders(s.leases, n)
  {
    hide Ok, Release;
    ReleaseEffect(s, p, ticks);
    assert ReleasedNet(s, Release(s, p, ticks), p, n);
  }

  /** Event `j` is the disconnection of a peer that leased `n`. */
  ghost predicate ReleasesAt(r: Run, j: nat, n: Name)
    requires IsRun(r) && j < |r.events|
  {
    && r.events[j].Disconnect?
    && r.events[j].peer in r.states[j].leases
    && n in r.states[j].leases[r.events[j].peer]
  }

  /** The last moment of event `j` at which a name leased before the event is still leased. */
  ghost function LeasedUntil(r: Run, j: nat, n: Name): nat
    requires IsRun(r) && j < |r.events|
  {
    if ReleasesAt(r, j, n) && !Held(r.states[j + 1], n) then
      ReleaseMoment(r.states[j], r.events[j].peer, r.events[j].ticks, n)
    else r.states[j + 1].now
  }

  lemma LeasedUntilInside(r: Run, j: nat, n: Name)
    requires IsRun(r) && j < |r.events|
    ensures r.states[j].now <= LeasedUntil(r, j, n) <= r.states[j + 1].now
  {
    assert StepAt(r, j);
    ReachableOk(r, j);
    StepIsMonotone(r.states[j], r.events[j]);
    if ReleasesAt(r, j, n) {
      ReleaseMomentInside(r.states[j], r.events[j].peer, r.events[j].ticks, n);
    }
  }

  // ---- When idle networks may go away

  /** Event `j` ends the last lease of `n` before state `k`. */
  ghost predicate LastReleaseAt(r: Run, j: nat, k: nat, n: Name)
    requires IsRun(r) && j < k < |r.states|
  {
    ReleasesAt(r, j, n) && forall i | j < i <= k :: !Held(r.states[i], n)
  }

  /** What one event does to a network that is idle afterwards: it was idle before with the same
      deadline, or this event released it. */
  lemma IdleAfterStep(s: State, e: Event, n: Name)
    requires Ok(s) && Enabled(s, e)
    requires n in Step(s, e).nets && Step(s, e).nets[n].deadline.Some? && !Held(Step(s, e), n)
    ensures n in s.nets
    ensures if e.Disconnect? && n in s.leases[e.peer]
            then Step(s, e).nets[n].deadline == Some(ReleaseMoment(s, e.peer, e.ticks, n) + IDLE_TIMEOUT)
            else Step(s, e).nets[n] == s.nets[n]
  {
    hide Ok, Held, Acquire, Release, Leave;
    match e
    case Disconnect(p, ticks, last) => IdleAfterDisconnect(s, p, ticks, last, n);
    case Request(p, m, f) =>
      if Parse(m).Some? {
        IdleAfterAcquire(s, p, Parse(m).value, f, n);
      }
    case _ =>
  }

  lemma IdleAfterAcquire(s: State, p: Peer, m: Name, f: Faults, n: Name)
    requires p in s.leases
    requires n in Acquire(s, p, m, f).nets && Acquire(s, p, m, f).nets[n].deadline.Some?
    ensures n in s.nets && Acquire(s, p, m, f).nets[n] == s.nets[n]
  {
  }

  lemma IdleAfterDisconnect(s: State, p: Peer, ticks: seq<nat>, last: nat, n: Name)
    requires Ok(s) && p in s.leases
    requires n in Leave(Release(s, p, ticks), p, last).nets
    requires !Held(Leave(Release(s, p, ticks), p, last), n)
    ensures n in s.nets
    ensures var s' := Leave(Release(s, p, ticks), p, last);
            if n in s.leases[p]
            then s'.nets[n].deadline == Some(ReleaseMoment(s, p, ticks, n) + IDLE_TIMEOUT)
            else s'.nets[n] == s.nets[n]
  {
    ReleaseFrame(s, p, ticks);
    LeaveHolders(Release(s, p, ticks), p);
    if n in s.leases[p] {
      ReleaseDeadline(s, p, ticks, n);
    } else {
      LaterDrops(s, p, ticks, n);
    }
  }

  ghost predicate IdleAt(r: Run, k: nat, n: Name)
    requires k < |r.states|
  {
    n in r.states[k].nets && r.states[k].nets[n].deadline.Some?
  }

  lemma IdleIsNotHeld(s: State, n: Name)
    requires Ok(s) && n in s.nets && s.nets[n].deadline.Some?
    ensures !Held(s, n)
  {
    assert NetOk(s, n);
  }

  lemma LeavingIsConnected(s: State, e: Event)
    requires Enabled(s, e)
    ensures e.Disconnect? ==> e.peer in s.leases
  {
  }

  lemma IdleAtStep(r: Run, k: nat, n: Name)
    requires IsRun(r) && 0 < k < |r.states| && IdleAt(r, k, n)
    ensures !Held(r.states[k], n)
    ensures var d := r.states[k].nets[n].deadline;
            if ReleasesAt(r, k - 1, n) then d == Some(LeasedUntil(r, k - 1, n) + IDLE_TIMEOUT)
            else IdleAt(r, k - 1, n) && r.states[k - 1].nets[n].deadline == d
  {
    hide Ok, Step, Enabled, Held, ReleaseMoment;
    assert StepAt(r, k - 1);
    ReachableOk(r, k - 1);
    ReachableOk(r, k);
    IdleIsNotHeld(r.states[k], n);
    LeavingIsConnected(r.states[k - 1], r.events[k - 1]);
    IdleAfterStep(r.states[k - 1], r.events[k - 1], n);
  }

  /** The deadline of an idle network is the timeout counted from the last moment anybody leased it. */
  lemma {:induction false} DeadlineIsFromLastRelease(r: Run, k: nat, n: Name) returns (j: nat)
    requires IsRun(r) && k < |r.states| && IdleAt(r, k, n)
    ensures j < k && LastReleaseAt(r, j, k, n)
    ensures r.states[k].nets[n].deadline == Some(LeasedUntil(r, j, n) + IDLE_TIMEOUT)
  {
    assert k > 0;
    IdleAtStep(r, k, n);
    if ReleasesAt(r, k - 1, n) {
      j := k - 1;
    } else {
      j := DeadlineIsFromLastRelease(r, k - 1, n);
    }
  }

  /** Nobody leases `n`, and nobody did at any moment, within or between events, less than `IDLE_TIMEOUT`
      seconds before state `k`. */
  ghost predicate GracePassed(r: Run, k: nat, n: Name)
    requires IsRun(r) && k < |r.states|
  {
    && !Held(r.states[k], n)
    && forall i | 0 <= i < k && Held(r.states[i], n) :: LeasedUntil(r, i, n) + IDLE_TIMEOUT <= r.states[k].now
  }

  predicate Expired(s: State, n: Name) {
    n in s.nets && s.nets[n].deadline.Some? && s.nets[n].deadline.value <= s.now
  }

  /** The grace period of a network has passed if and only if its deadline has. */
  lemma GraceIffExpired(r: Run, k: nat, n: Name)
    requires IsRun(r) && k < |r.states| && n in r.states[k].nets
    ensures GracePassed(r, k, n) <==> Expired(r.states[k], n)
  {
    ReachableOk(r, k);
    assert NetOk(r.states[k], n);
    if !Held(r.states[k], n) {
      var j := DeadlineIsFromLastRelease(r, k, n);
      LeasedUntilInside(r, j, n);
      assert r.events[j].peer in Holders(r.states[j].leases, n);
      forall i | 0 <= i < k && Held(r.states[i], n) ensures LeasedUntil(r, i, n) <= LeasedUntil(r, j, n) {
        if i < j {
          LeasedUntilInside(r, i, n);
          RunIsMonotone(r, i + 1, j);
        }
      }
    }
  }

  // ---- What ends a network

  /** Event `k` ends the network `n`. */
  ghost predicate DestroysAt(r: Run, k: nat, n: Name)
    requires IsRun(r) && k < |r.events|
  {
    Alive(r.states[k], n) && !Alive(r.states[k + 1], n)
  }

  /** A living network ends with its own timer, the idle shutdown, an accepted signal or a failure of the
      listener, and with nothing else. */
  lemma StepDestroysIff(s: State, e: Event, n: Name)
    requires Ok(s) && Enabled(s, e) && Alive(s, n)
    ensures !Alive(Step(s, e), n)
            <==> e == NetworkTimer(n) || e.BrokerTimer? || (e.Signal? && s.leases == map[]) || e.ListenerError?
  {
    hide Ok, Acquire, Release;
    StepEnds(s, e);
    match e
    case Disconnect(p, ticks, last) => ReleaseFrame(s, p, ticks);
    case Request(p, m, f) =>
      if Parse(m).Some? {
        AcquireKeepsNets(s, p, Parse(m).value, f, n);
      }
    case _ =>
  }

  lemma AcquireKeepsNets(s: State, p: Peer, m: Name, f: Faults, n: Name)
    requires p in s.leases && n in s.nets
    ensures n in Acquire(s, p, m, f).nets
  {
  }

  /** No timer and no signal ends a leased network, and no timer ends one whose deadline is to come. */
  lemma EndedIsIdle(s: State, e: Event, n: Name)
    requires Ok(s) && Enabled(s, e) && n in s.nets
    requires e == NetworkTimer(n) || e.BrokerTimer? || (e.Signal? && s.leases == map[])
    ensures !Held(s, n) && (e.Signal? || Expired(s, n))
  {
    assert NetOk(s, n);
  }

  /** Only a failure of the listener ends a network that somebody leases. The end of a network cuts its grace
      period short if and only if it is brought about by a signal or a failure of the listener before the
      deadline of the network. */
  lemma DestructionIsSafe(r: Run, k: nat, n: Name)
    requires IsRun(r) && k < |r.events| && DestroysAt(r, k, n)
    ensures var e := r.events[k];
            && (e == NetworkTimer(n) || e.BrokerTimer? || e.Signal? || e.ListenerError?)
            && (Held(r.states[k], n) ==> e.ListenerError?)
            && (e.Signal? ==> r.states[k].leases == map[])
            && (!GracePassed(r, k, n) <==> (e.Signal? || e.ListenerError?) && !Expired(r.states[k], n))
  {
    hide Ok, Step, Enabled, GracePassed, Expired;
    assert StepAt(r, k);
    ReachableOk(r, k);
    StepDestroysIff(r.states[k], r.events[k], n);
    GraceIffExpired(r, k, n);
    if !r.events[k].ListenerError? {
      EndedIsIdle(r.states[k], r.events[k], n);
    }
  }

  /** The first peer acquires a configured network. */
  lemma FirstGrant(table: seq<NetworkConfig>, c: NetworkConfig) returns (r: Run)
    requires Find(table, c.name) == Some(c)
    ensures IsRun(r) && |r.events| == 2 && r.states[0].table == table && GrantsAt(r, 1, c.name, 0)
    ensures r.states[2].leases == map[0 := [c.name]] && r.states[2].status == Running
  {
    r := Run([Initial(table)], []);
    r := Extend(r, Connect(0));
    var s := r.states[1];
    var e := Request(0, Message(Some(COMMAND_ACQUIRE), Some(c.name), true), NO_FAULTS);
    assert s.leases == map[0 := []] && s.nets == map[];
    assert Decide(s, 0, c.name, NO_FAULTS) == Granted(0) && Step(s, e) == Acquire(s, 0, c.name, NO_FAULTS);
    assert AddOnce([], c.name) == [c.name];
    r := Extend(r, e);
  }

  lemma ReleaseOnly(s: State, p: Peer, n: Name)
    requires p in s.leases && s.leases[p] == [n]
    ensures Release(s, p, []).now == s.now
  {
  }

  /** It leaves at once. The network outlives its last peer. */
  lemma ShortVisit(table: seq<NetworkConfig>, c: NetworkConfig) returns (r: Run)
    requires Find(table, c.name) == Some(c)
    ensures IsRun(r) && |r.events| == 3 && r.states[0].table == table
    ensures Held(r.states[2], c.name) && r.states[3].leases == map[] && Alive(r.states[3], c.name)
    ensures r.states[3].now == r.states[2].now
  {
    var grant := FirstGrant(table, c);
    var s := grant.states[2];
    ReachableOk(grant, 2);
    assert 0 in Holders(s.leases, c.name);
    assert c.name in s.nets;
    ReleaseOnly(s, 0, c.name);
    ReleaseFrame(s, 0, []);
    r := Extend(grant, Disconnect(0, [], 0));
    assert r.states[2] == s;
  }

  /** The grace period is promised against neither: runs in which a signal, or a failure of the listener, ends
      a network in the very second its only user left. */
  lemma ExitCutsGrace(table: seq<NetworkConfig>, c: NetworkConfig, e: Event) returns (r: Run)
    requires Find(table, c.name) == Some(c) && (e.Signal? || e.ListenerError?)
    ensures IsRun(r) && |r.events| == 4 && r.states[0].table == table && r.events[3] == e
    ensures DestroysAt(r, 3, c.name) && !Held(r.states[3], c.name) && !GracePassed(r, 3, c.name)
  {
    var visit := ShortVisit(table, c);
    r := Extend(visit, e);
    assert r.states[2] == visit.states[2] && r.states[3] == visit.states[3];
    LeasedUntilInside(r, 2, c.name);
  }

  // ---- The lock of a peer

  /** The peer leases the name, and its network is the one with this number, alive and not about to expire. */
  ghost predicate Locked(s: State, p: Peer, n: Name, id: nat) {
    Alive(s, n) && p in s.leases && n in s.leases[p] && s.nets[n] == Net(id, None)
  }

  lemma PeerStays(s: State, e: Event, p: Peer)
    requires Ok(s) && Enabled(s, e) && p in s.leases && !(e.Disconnect? && e.peer == p)
    ensures p in Step(s, e).leases
  {
    if e.Disconnect? {
      ReleaseFrame(s, e.peer, e.ticks);
    }
  }

  /** A lock survives every event but the disconnection of its peer and a failure of the listener. */
  lemma LockSurvivesIff(s: State, e: Event, p: Peer, n: Name, id: nat)
    requires Ok(s) && Enabled(s, e) && Locked(s, p, n, id) && !(e.Disconnect? && e.peer == p)
    ensures Locked(Step(s, e), p, n, id) <==> !e.ListenerError?
  {
    hide Ok, Enabled, Step;
    NotIdle(s, e, p);
    PeerStays(s, e, p);
    StepSlots(s, e, p);
    StepEnds(s, e);
    StepKeepsOk(s, e);
    LeasedStays(Step(s, e), p, n);
    StepKeepsIds(s, e, n);
  }

  /** Nothing that happens while a peer is connected ends the broker with success. */
  lemma NotIdle(s: State, e: Event, p: Peer)
    requires Ok(s) && Enabled(s, e) && p in s.leases
    ensures !e.BrokerTimer? && e != Connect(p) && s.leases != map[]
  {
  }

  /** The lock a client relies on. From a grant until the peer disconnects, the peer leases the name and the
      network it was told about is alive, unless the last event was a failure of the listener. */
  lemma {:induction false} LockHoldsIff(r: Run, i: nat, k: nat, n: Name, id: nat)
    requires IsRun(r) && i < k < |r.states| && GrantsAt(r, i, n, id)
    requires forall j | i < j < k :: !(r.events[j].Disconnect? && r.events[j].peer == r.events[i].peer)
    ensures Locked(r.states[k], r.events[i].peer, n, id) <==> !r.events[k - 1].ListenerError?
    decreases k
  {
    var p := r.events[i].peer;
    var s, e := r.states[k - 1], r.events[k - 1];
    assert StepAt(r, k - 1);
    ReachableOk(r, k - 1);
    if k == i + 1 {
      AcquireEffect(s, p, n, e.faults);
      StepEnds(s, e);
    } else {
      assert StepAt(r, k - 2);
      LockHoldsIff(r, i, k - 1, n, id);
      LockSurvivesIff(s, e, p, n, id);
    }
  }

  /** The lock is not promised against a failure of the listener: a run in which it ends a network that a
      connected peer leases. */
  lemma ListenerBreaksLock(table: seq<NetworkConfig>, c: NetworkConfig) returns (r: Run)
    requires Find(table, c.name) == Some(c)
    ensures IsRun(r) && |r.events| == 3 && r.states[0].table == table
    ensures GrantsAt(r, 1, c.name, 0) && Locked(r.states[2], r.events[1].peer, c.name, 0)
    ensures r.events[2].ListenerError? && Held(r.states[2], c.name) && DestroysAt(r, 2, c.name)
  {
    var grant := FirstGrant(table, c);
    LockHoldsIff(grant, 1, 2, c.name, 0);
    r := Extend(grant, ListenerError);
    assert r.states[1] == grant.states[1] && r.states[2] == grant.states[2] && r.events[1] == grant.events[1];
    assert 0 in Holders(r.states[2].leases, c.name);
  }
}
