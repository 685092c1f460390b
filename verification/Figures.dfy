/** The public interface in figures: the numbers and keys of include/vmnet-broker.h and docs/protocol.md, and
    the two limits, without the names this model gives them. */
module Figures {
  import opened Types
  import opened Leases
  import opened Invariants
  import opened Runs
  import opened Lifetimes
  import opened Capacity
  import opened Protocol

  /** Every answer there is. */
  lemma AnswersInFigures(s: State, p: Peer, m: Message, f: Faults)
    requires Ok(s) && p in s.leases
    ensures Answer(s, p, m, f) ==
            if m.command != Some("acquire") || m.name.None? then XpcDictionary(map["error" := Int64(4)])
            else
              var n := m.name.value;
              var c := Find(s.table, n);
              if n in s.leases[p] then XpcDictionary(map["network" := Serialization(s.nets[n].id)])
              else if |s.leases[p]| == 8 then XpcDictionary(map["error" := Int64(7)])
              else if n in s.nets then XpcDictionary(map["network" := Serialization(s.nets[n].id)])
              else if c.None? then XpcDictionary(map["error" := Int64(5)])
              else if f.configure || f.calloc || f.strdup || f.create || f.copy
                      || (c.value.subnet.Some? && c.value.mask.Some? && (f.subnet || f.mask || f.apply))
              then XpcDictionary(map["error" := Int64(6)])
              else XpcDictionary(map["network" := Serialization(s.next)])
  {
    if n :| m.command == Some("acquire") && m.name == Some(n) {
      AcquireOutcome(s, p, n, f);
      assert n in s.leases[p] ==> n in s.nets;
    }
  }

  /** What a request does to the broker, by its fields. */
  lemma RequestsInFigures(s: State, p: Peer, m: Message, f: Faults)
    requires Enabled(s, Request(p, m, f))
    ensures Step(s, Request(p, m, f)) ==
            if m.command == Some("acquire") && m.name.Some? then Acquire(s, p, m.name.value, f) else s
  {
  }

  /** What the client reports, in figures. */
  lemma StatusInFigures(entries: map<string, XpcValue>, code: int)
    requires 0 < code < 0x8000_0000
    ensures Decode(XpcError).status == 1 && Decode(XpcOther).status == 2
    ensures Decode(XpcDictionary(entries["error" := Int64(code)])).status == code
    ensures "error" !in entries ==>
              Decode(XpcDictionary(entries)).status == if "network" in entries then 0 else 2
  {
  }

  /** The timer of an idle network may fire from 120 seconds after the last moment anybody leased it, and that of
      the broker from 120 seconds after its last peer left; neither a second earlier. */
  lemma TimersInFigures(r: Run, k: nat, n: Name) returns (j: nat)
    requires IsRun(r) && k < |r.states| && r.states[k].status == Running && IdleAt(r, k, n)
    ensures j < k && LastReleaseAt(r, j, k, n)
    ensures Enabled(r.states[k], NetworkTimer(n)) <==> r.states[k].now >= LeasedUntil(r, j, n) + 120
  {
    j := DeadlineIsFromLastRelease(r, k, n);
  }

  lemma BrokerTimerInFigures(r: Run, k: nat) returns (j: nat)
    requires IsRun(r) && 0 < k < |r.states| && r.states[k].status == Running && r.states[k].timer.Some?
    ensures j < k && r.events[j].Disconnect? && forall i | j < i <= k :: r.states[i].leases == map[]
    ensures Enabled(r.states[k], BrokerTimer) <==> r.states[k].now >= r.states[j + 1].now + 120
  {
    j := TimerIsFromLastDisconnect(r, k);
  }

  /** The process exits with 1 when the listener fails, with 0 when its timer fires or a signal finds it without
      peers, and never else. */
  lemma ExitsInFigures(s: State, e: Event)
    requires Ok(s) && Enabled(s, e)
    ensures Step(s, e).status == Exited(1) <==> e.ListenerError?
    ensures Step(s, e).status == Exited(0) <==> e.BrokerTimer? || (e.Signal? && s.leases == map[])
    ensures Step(s, e).status in {Running, Exited(0), Exited(1)}
  {
    StepEnds(s, e);
  }

  /** A run of the builtin broker. A peer acquires "shared" and leaves at once. For 119 seconds nothing but a
      signal or a failure of the listener can end the network; a second later its timer can. */
  lemma TwoMinutes() returns (r: Run)
    ensures IsRun(r) && |r.events| == 6 && r.states[0].table == BUILTIN_NETWORKS
    ensures Held(r.states[2], "shared") && r.states[3].leases == map[] && r.states[3].now == r.states[2].now
    ensures r.states[4].now == r.states[3].now + 119 && Alive(r.states[4], "shared")
    ensures !Enabled(r.states[4], NetworkTimer("shared")) && !Enabled(r.states[4], BrokerTimer)
    ensures r.states[5].now == r.states[3].now + 120 && Alive(r.states[5], "shared")
    ensures r.events[5] == NetworkTimer("shared") && DestroysAt(r, 5, "shared")
  {
    Builtins("shared");
    var visit := ShortVisit(BUILTIN_NETWORKS, NetworkConfig("shared", SharedMode, None, None));
    var r4 := Extend(visit, Tick(119));
    var r5 := Extend(r4, Tick(1));
    VisitDeadline(visit, "shared");
    assert r4.states[3] == visit.states[3] && r5.states[4] == r4.states[4];
    r := Extend(r5, NetworkTimer("shared"));
    assert r.states[2] == visit.states[2] && r.states[3] == visit.states[3];
    assert r.states[4] == r4.states[4] && r.states[5] == r5.states[5];
  }

  lemma VisitDeadline(r: Run, n: Name)
    requires IsRun(r) && |r.events| == 3 && Held(r.states[2], n) && Alive(r.states[3], n)
    requires r.states[3].leases == map[] && r.states[3].now == r.states[2].now
    ensures r.states[3].nets[n].deadline == Some(r.states[3].now + 120)
    ensures r.states[3].timer.Some? ==> r.states[3].timer == Some(r.states[3].now + 120)
  {
    ReachableOk(r, 3);
    assert NetOk(r.states[3], n);
    var j := DeadlineIsFromLastRelease(r, 3, n);
    LeasedUntilInside(r, j, n);
    if r.states[3].timer.Some? {
      var i := TimerIsFromLastDisconnect(r, 3);
      RunIsMonotone(r, i + 1, 3);
    }
  }
}
