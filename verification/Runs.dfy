/** Whole runs of the broker: what holds in every reachable state, and what the history of a run says
    about its last state. */
module Runs {
  import opened Types
  import opened Leases
  import opened Invariants

  /** A run from start-up: the states it goes through and the event between each two. */
  datatype Run = Run(states: seq<State>, events: seq<Event>)

  ghost predicate IsRun(r: Run) {
    && |r.states| == |r.events| + 1
    && r.states[0] == Initial(r.states[0].table)
    && forall i | 0 <= i < |r.events| :: StepAt(r, i)
  }

  ghost predicate StepAt(r: Run, i: nat)
    requires i < |r.events| < |r.states|
  {
    Enabled(r.states[i], r.events[i]) && r.states[i + 1] == Step(r.states[i], r.events[i])
  }

  lemma {:induction false} ReachableOk(r: Run, k: nat)
    requires IsRun(r) && k < |r.states|
    ensures Ok(r.states[k])
  {
    if k > 0 {
      ReachableOk(r, k - 1);
      assert StepAt(r, k - 1);
      StepKeepsOk(r.states[k - 1], r.events[k - 1]);
    }
  }

  lemma Extend(r: Run, e: Event) returns (r': Run)
    requires IsRun(r) && Enabled(r.states[|r.events|], e)
    ensures IsRun(r') && |r'.events| == |r.events| + 1 && r'.states[0] == r.states[0]
    ensures r'.events == r.events + [e]
    ensures r'.states == r.states + [Step(r.states[|r.events|], e)]
  {
    r' := Run(r.states + [Step(r.states[|r.events|], e)], r.events + [e]);
    forall i | 0 <= i < |r'.events| ensures StepAt(r', i) {
      if i < |r.events| {
        assert StepAt(r, i);
      }
    }
  }

  /** Events that can happen one after the other, from start-up on, are those of a run. */
  lemma {:induction false} Continue(r: Run, events: seq<Event>) returns (r': Run)
    requires IsRun(r) && Accepts(r.states[|r.events|], events)
    ensures IsRun(r') && r'.states[0] == r.states[0] && r'.events == r.events + events
    ensures r'.states[|r'.events|] == After(r.states[|r.events|], events)
    decreases |events|
  {
    if events == [] {
      r' := r;
    } else {
      var r1 := Extend(r, events[0]);
      r' := Continue(r1, events[1..]);
      assert r.events + events == r1.events + events[1..];
    }
  }

  lemma {:induction false} RunIsAccepted(r: Run, k: nat)
    requires IsRun(r) && k < |r.states|
    ensures Accepts(r.states[k], r.events[k..])
    ensures After(r.states[k], r.events[k..]) == r.states[|r.events|]
    decreases |r.events| - k
  {
    if k < |r.events| {
      assert StepAt(r, k);
      RunIsAccepted(r, k + 1);
      assert r.events[k..][1..] == r.events[k + 1..];
    }
  }

  /** The event lists the broker can be given at start-up are exactly those of the runs, and they lead to
      the last state of the run. */
  lemma EventsAreRuns(table: seq<NetworkConfig>, events: seq<Event>, s: State)
    ensures Accepts(Initial(table), events) && After(Initial(table), events) == s
            <==> exists r: Run :: IsRun(r) && r.states[0] == Initial(table) && r.events == events
                                  && r.states[|events|] == s
  {
    if Accepts(Initial(table), events) && After(Initial(table), events) == s {
      var r := Continue(Run([Initial(table)], []), events);
      assert r.events == events;
    }
    if r: Run :| IsRun(r) && r.states[0] == Initial(table) && r.events == events && r.states[|events|] == s {
      RunIsAccepted(r, 0);
      assert r.events[0..] == events;
    }
  }

  /** Parts of the state that only grow. */
  lemma StepIsMonotone(s: State, e: Event)
    requires Ok(s) && Enabled(s, e)
    ensures var s' := Step(s, e);
            s.now <= s'.now && s.next <= s'.next && (s.started ==> s'.started) && s'.table == s.table
  {
    if e.Disconnect? {
      ReleaseEffect(s, e.peer, e.ticks);
    }
  }

  lemma {:induction false} RunIsMonotone(r: Run, i: nat, k: nat)
    requires IsRun(r) && i <= k < |r.states|
    ensures r.states[i].now <= r.states[k].now && r.states[i].next <= r.states[k].next
    ensures r.states[i].table == r.states[k].table
    decreases k
  {
    if i < k {
      RunIsMonotone(r, i, k - 1);
      ReachableOk(r, k - 1);
      assert StepAt(r, k - 1);
      StepIsMonotone(r.states[k - 1], r.events[k - 1]);
    }
  }

  /** What an event makes of the process. */
  lemma StepEnds(s: State, e: Event)
    requires Ok(s) && Enabled(s, e)
    ensures Step(s, e).status == if e.ListenerError? then Exited(EXIT_FAILURE)
                                 else if e.BrokerTimer? || (e.Signal? && s.leases == map[]) then Exited(EXIT_SUCCESS)
                                 else Running
  {
    if e.Disconnect? {
      ReleaseFrame(s, e.peer, e.ticks);
    }
  }

  // ---- What a peer holds

  /** The names granted to a peer since it connected, in order, repetitions included. */
  ghost function GrantLog(r: Run, k: nat, p: Peer): seq<Name>
    requires IsRun(r) && k < |r.states|
  {
    if k == 0 then []
    else
      assert StepAt(r, k - 1);
      var log := GrantLog(r, k - 1, p);
      match r.events[k - 1]
      case Connect(q) => if q == p then [] else log
      case Disconnect(q, _, _) => if q == p then [] else log
      case Request(q, m, f) =>
        if q == p && Parse(m).Some? && Decide(r.states[k - 1], p, Parse(m).value, f).Granted?
        then log + [Parse(m).value] else log
      case _ => log
  }

  /** First uses only. */
  function FirstUses(log: seq<Name>): seq<Name> {
    if log == [] then [] else AddOnce(FirstUses(log[..|log| - 1]), log[|log| - 1])
  }

  /** `x` occurs in the log before `y` does. */
  ghost predicate Precedes(log: seq<Name>, x: Name, y: Name) {
    exists a | 0 <= a < |log| :: log[a] == x && y !in log[..a]
  }

  lemma PrecedesExtends(log: seq<Name>, z: Name, x: Name, y: Name)
    requires Precedes(log, x, y) || (x in log && y !in log)
    ensures Precedes(log + [z], x, y)
  {
    var a :| 0 <= a < |log| && log[a] == x && y !in log[..a];
    assert (log + [z])[a] == x && (log + [z])[..a] == log[..a];
  }

  /** `FirstUses` keeps every name once, in the order of first appearance. */
  lemma {:induction false} FirstUsesMeaning(log: seq<Name>)
    ensures Distinct(FirstUses(log)) && (forall x :: x in FirstUses(log) <==> x in log)
    ensures forall i, j | 0 <= i < j < |FirstUses(log)| :: Precedes(log, FirstUses(log)[i], FirstUses(log)[j])
  {
    if log != [] {
      var k := |log| - 1;
      FirstUsesMeaning(log[..k]);
      var u := FirstUses(log[..k]);
      assert log == log[..k] + [log[k]];
      forall i, j | 0 <= i < j < |FirstUses(log)|
        ensures Precedes(log, FirstUses(log)[i], FirstUses(log)[j])
      {
        assert FirstUses(log)[i] == u[i] && u[i] in log[..k];
        PrecedesExtends(log[..k], log[k], FirstUses(log)[i], FirstUses(log)[j]);
      }
    }
  }

  /** The only events that change what a connected peer leases are its own. */
  lemma StepSlots(s: State, e: Event, p: Peer)
    requires Ok(s) && Enabled(s, e) && p in Step(s, e).leases
    ensures e != Connect(p) ==> p in s.leases
    ensures Step(s, e).leases[p] ==
            if e == Connect(p) then []
            else if e.Request? && e.peer == p && Parse(e.message).Some?
                    && Decide(s, p, Parse(e.message).value, e.faults).Granted?
            then AddOnce(s.leases[p], Parse(e.message).value)
            else s.leases[p]
  {
    hide Ok, Release, Decide;
    if e.Disconnect? {
      ReleaseEffect(s, e.peer, e.ticks);
    }
  }

  /** In every reachable state a peer leases exactly the names it was granted since it connected, in the
      order of their first grants. */
  lemma {:induction false} SlotsAreFirstGrants(r: Run, k: nat, p: Peer)
    requires IsRun(r) && k < |r.states| && p in r.states[k].leases
    ensures r.states[k].leases[p] == FirstUses(GrantLog(r, k, p))
  {
    hide Ok, Acquire, Release;
    if k > 0 {
      assert StepAt(r, k - 1);
      var e := r.events[k - 1];
      ReachableOk(r, k - 1);
      StepSlots(r.states[k - 1], e, p);
      if e != Connect(p) {
        SlotsAreFirstGrants(r, k - 1, p);
        var log := GrantLog(r, k - 1, p);
        assert forall n :: (log + [n])[..|log|] == log;
      }
    }
  }

  // ---- Which network a name denotes

  lemma StepKeepsIds(s: State, e: Event, n: Name)
    requires Ok(s) && Enabled(s, e) && n in Step(s, e).nets
    ensures Step(s, e).nets[n].id == if n in s.nets then s.nets[n].id else s.next
  {
    hide Ok, Acquire, Release;
    match e
    case Disconnect(p, ticks, last) => ReleaseKeepsIds(s, p, ticks, n);
    case Request(p, m, f) =>
      if Parse(m).Some? {
        AcquireKeepsIds(s, p, Parse(m).value, f, n);
      }
    case _ =>
  }

  lemma ReleaseKeepsIds(s: State, p: Peer, ticks: seq<nat>, n: Name)
    requires Ok(s) && p in s.leases && n in Release(s, p, ticks).nets
    ensures n in s.nets && Release(s, p, ticks).nets[n].id == s.nets[n].id
  {
    ReleaseEffect(s, p, ticks);
    assert n in s.nets && ReleasedNet(s, Release(s, p, ticks), p, n);
  }

  lemma AcquireKeepsIds(s: State, p: Peer, m: Name, f: Faults, n: Name)
    requires p in s.leases && n in Acquire(s, p, m, f).nets
    ensures Acquire(s, p, m, f).nets[n].id == if n in s.nets then s.nets[n].id else s.next
  {
  }

  lemma {:induction false} RecreatedLater(r: Run, i: nat, k: nat, n: Name)
    requires IsRun(r) && i <= k < |r.states|
    requires n !in r.states[i].nets && n in r.states[k].nets
    ensures r.states[i].next <= r.states[k].nets[n].id
    decreases k
  {
    assert i < k && StepAt(r, k - 1);
    ReachableOk(r, k - 1);
    StepKeepsIds(r.states[k - 1], r.events[k - 1], n);
    if n in r.states[k - 1].nets {
      RecreatedLater(r, i, k - 1, n);
    } else {
      RunIsMonotone(r, i, k - 1);
    }
  }

  lemma {:induction false} KeptWhileRegistered(r: Run, i: nat, k: nat, n: Name)
    requires IsRun(r) && i <= k < |r.states|
    requires forall m | i <= m <= k :: n in r.states[m].nets
    ensures r.states[k].nets[n].id == r.states[i].nets[n].id
    decreases k
  {
    hide Ok, Step, Enabled;
    if i < k {
      assert StepAt(r, k - 1);
      ReachableOk(r, k - 1);
      StepKeepsIds(r.states[k - 1], r.events[k - 1], n);
      KeptWhileRegistered(r, i, k - 1, n);
    }
  }

  /** Event `i` grants `n` to some peer, which is told network `id`. */
  ghost predicate GrantsAt(r: Run, i: nat, n: Name, id: nat)
    requires IsRun(r) && i < |r.events|
  {
    && r.events[i].Request?
    && r.events[i].peer in r.states[i].leases
    && Parse(r.events[i].message) == Some(n)
    && Decide(r.states[i], r.events[i].peer, n, r.events[i].faults) == Granted(id)
  }

  lemma GrantFacts(r: Run, i: nat, n: Name, id: nat)
    requires IsRun(r) && i < |r.events| && GrantsAt(r, i, n, id)
    ensures id == if n in r.states[i].nets then r.states[i].nets[n].id else r.states[i].next
    ensures n in r.states[i + 1].nets && r.states[i + 1].nets[n].id == id && id < r.states[i + 1].next
  {
    hide Decide, Acquire;
    var s, e := r.states[i], r.events[i];
    assert StepAt(r, i);
    ReachableOk(r, i);
    GrantIs(s, e.peer, n, e.faults);
    assert n in s.nets ==> NetOk(s, n);
  }

  /** Two grants of a name, to any peers, hand out the same network if and only if the network was never
      destroyed between them. */
  lemma SameNetworkIff(r: Run, i: nat, j: nat, n: Name, a: nat, b: nat)
    requires IsRun(r) && i < j < |r.events|
    requires GrantsAt(r, i, n, a) && GrantsAt(r, j, n, b)
    ensures a == b <==> forall m | i < m <= j :: n in r.states[m].nets
  {
    hide Ok, GrantsAt;
    GrantFacts(r, i, n, a);
    GrantFacts(r, j, n, b);
    if forall m | i < m <= j :: n in r.states[m].nets {
      KeptWhileRegistered(r, i + 1, j, n);
    } else {
      var m :| i < m <= j && n !in r.states[m].nets;
      RunIsMonotone(r, i + 1, m);
      RunIsMonotone(r, m, j);
      if n in r.states[j].nets {
        RecreatedLater(r, m, j, n);
      }
    }
  }

  // ---- How the broker ends

  /** A run that ends successfully ends with no peers and no networks, through a signal or after the
      broker had no peers for the full timeout; a run that ends otherwise was ended by the listener. */
  lemma ExitIsSafe(r: Run, k: nat)
    requires IsRun(r) && k < |r.events| && r.states[k + 1].status != Running
    ensures k + 1 == |r.events|
    ensures r.states[k + 1].status == Exited(EXIT_FAILURE) <==> r.events[k].ListenerError?
    ensures r.states[k + 1].status == Exited(EXIT_SUCCESS) ==>
              && r.states[k].leases == map[] && r.states[k + 1].nets == map[]
              && (r.events[k].Signal? || r.events[k].BrokerTimer?)
    ensures r.events[k].BrokerTimer? ==>
              forall i | 0 <= i <= k && r.states[k].now < r.states[i].now + IDLE_TIMEOUT ::
                r.states[i].leases == map[]
  {
    assert StepAt(r, k);
    if k + 1 < |r.events| && StepAt(r, k + 1) {
      assert false;
    }
    ReachableOk(r, k);
    if r.events[k].Disconnect? {
      ReleaseEffect(r.states[k], r.events[k].peer, r.events[k].ticks);
    }
    if r.events[k].BrokerTimer? {
      var j := TimerIsFromLastDisconnect(r, k);
      forall i | 0 <= i <= k && r.states[k].now < r.states[i].now + IDLE_TIMEOUT
        ensures r.states[i].leases == map[]
      {
        if i <= j {
          RunIsMonotone(r, i, j);
          assert StepAt(r, j);
          ReachableOk(r, j);
          StepIsMonotone(r.states[j], r.events[j]);
        }
      }
    }
  }

  /** What one event does to a shutdown timer that is running afterwards: this event was a disconnection and
      started it, or it was running before. */
  lemma TimerAfterStep(s: State, e: Event)
    requires Ok(s) && Enabled(s, e) && Step(s, e).timer.Some?
    ensures Step(s, e).leases == map[]
    ensures if e.Disconnect? then s.leases != map[] && Step(s, e).timer == Some(Step(s, e).now + IDLE_TIMEOUT)
            else Step(s, e).timer == s.timer && s.leases == map[]
  {
    if e.Disconnect? {
      ReleaseEffect(s, e.peer, e.ticks);
    }
  }

  /** The shutdown deadline is the timeout counted from the moment the last peer left. */
  lemma {:induction false} TimerIsFromLastDisconnect(r: Run, k: nat) returns (j: nat)
    requires IsRun(r) && 0 < k < |r.states| && r.states[k].timer.Some?
    ensures j < k && r.events[j].Disconnect? && r.states[j].leases != map[]
    ensures forall i | j < i <= k :: r.states[i].leases == map[]
    ensures r.states[k].timer == Some(r.states[j + 1].now + IDLE_TIMEOUT)
  {
    hide Ok, Step, Enabled;
    assert StepAt(r, k - 1);
    ReachableOk(r, k - 1);
    TimerAfterStep(r.states[k - 1], r.events[k - 1]);
    if r.events[k - 1].Disconnect? {
      j := k - 1;
    } else {
      j := TimerIsFromLastDisconnect(r, k - 1);
    }
  }
}
