/** Every event keeps the invariant of the lease machine. */
module Invariants {
  import opened Types
  import opened Leases

  /** Dropping a lease takes one holder from one name and touches nothing else. */
  lemma DropHolders(s: State, p: Peer, i: nat, d: nat)
    requires p in s.leases && Distinct(s.leases[p]) && i < |s.leases[p]|
    ensures var s' := Drop(s, p, i, d);
            forall n :: Holders(s'.leases, n)
                        == if n == s.leases[p][i] then Holders(s.leases, n) - {p} else Holders(s.leases, n)
  {
  }

  /** The same as a count, for one name. */
  lemma DropCount(s: State, p: Peer, i: nat, d: nat, m: Name)
    requires p in s.leases && Distinct(s.leases[p]) && i < |s.leases[p]|
    ensures |Holders(s.leases, m)|
            == |Holders(Unlease(s, p, i, d).leases, m)| + if m == s.leases[p][i] then 1 else 0
  {
    DropHolders(s, p, i, d);
    assert p in Holders(s.leases, s.leases[p][i]);
  }

  lemma DropLeasesOk(s: State, p: Peer, i: nat, d: nat)
    requires LeasesOk(s) && p in s.leases && i < |s.leases[p]|
    ensures LeasesOk(Drop(s, p, i, d)) && s.leases[p][i] in s.nets
  {
  }

  lemma DropKeepsOk(s: State, p: Peer, i: nat, d: nat)
    requires Ok(s) && p in s.leases && i < |s.leases[p]|
    ensures Ok(Drop(s, p, i, d))
  {
    hide NetOk, Held, Distinct;
    var s' := Drop(s, p, i, d);
    DropLeasesOk(s, p, i, d);
    forall n | n in s'.nets ensures NetOk(s', n) {
      DropNetOk(s, p, i, d, n);
    }
  }

  lemma DropNetOk(s: State, p: Peer, i: nat, d: nat, n: Name)
    requires LeasesOk(s) && p in s.leases && i < |s.leases[p]| && n in s.nets && NetOk(s, n)
    ensures n in Drop(s, p, i, d).nets && NetOk(Drop(s, p, i, d), n)
  {
    DropHolders(s, p, i, d);
    assert p in Holders(s.leases, s.leases[p][i]);
  }

  /** What releasing a peer does, whatever the order and pace: its leases are gone, nobody else's
      are; networks stay; exactly the names it was the last to hold get a fresh deadline. */
  ghost predicate Released(s: State, s': State, p: Peer)
    requires p in s.leases
  {
    && s'.leases == s.leases[p := []]
    && s'.nets.Keys == s.nets.Keys
    && s.now <= s'.now
    && s' == s.(leases := s'.leases, nets := s'.nets, now := s'.now)
    && (forall n | n in s.nets :: ReleasedNet(s, s', p, n))
  }

  ghost predicate ReleasedNet(s: State, s': State, p: Peer, n: Name)
    requires p in s.leases && n in s.nets && n in s'.nets
  {
    && s'.nets[n].id == s.nets[n].id
    && (if n in s.leases[p] && !Held(s', n)
        then s'.nets[n].deadline.Some?
             && s.now + IDLE_TIMEOUT <= s'.nets[n].deadline.value <= s'.now + IDLE_TIMEOUT
        else s'.nets[n] == s.nets[n])
  }

  lemma DropThenReleasedNet(s: State, p: Peer, i: nat, d: nat, s': State, n: Name)
    requires p in s.leases && i < |s.leases[p]| && Distinct(s.leases[p])
    requires n in s.nets && n in s'.nets
    requires ReleasedNet(Drop(s, p, i, d), s', p, n)
    requires s'.leases == s.leases[p := []] && s.now + d <= s'.now
    ensures ReleasedNet(s, s', p, n)
  {
  }

  lemma DropThenReleased(s: State, p: Peer, i: nat, d: nat, s1: State, s': State)
    requires p in s.leases && i < |s.leases[p]| && Distinct(s.leases[p])
    requires s.leases[p][i] in s.nets
    requires s1 == Drop(s, p, i, d) && Released(s1, s', p)
    ensures Released(s, s', p)
  {
    assert s'.leases == s.leases[p := []];
    forall n | n in s.nets ensures ReleasedNet(s, s', p, n) {
      assert n in s1.nets && ReleasedNet(s1, s', p, n);
      DropThenReleasedNet(s, p, i, d, s', n);
    }
  }

  lemma {:induction false} ReleaseEffect(s: State, p: Peer, ticks: seq<nat>)
    requires Ok(s) && p in s.leases
    ensures Ok(Release(s, p, ticks))
    ensures Released(s, Release(s, p, ticks), p)
    decreases |s.leases[p]|
  {
    if s.leases[p] == [] {
      assert s.leases == s.leases[p := []];
    } else {
      var i := |s.leases[p]| - 1;
      DropKeepsOk(s, p, i, First(ticks));
      ReleaseEffect(Drop(s, p, i, First(ticks)), p, Rest(ticks));
      DropThenReleased(s, p, i, First(ticks), Drop(s, p, i, First(ticks)), Release(s, p, ticks));
    }
  }

  lemma ReleaseFrame(s: State, p: Peer, ticks: seq<nat>)
    requires Ok(s) && p in s.leases
    ensures var t := Release(s, p, ticks);
            && t.leases == s.leases[p := []] && t.nets.Keys == s.nets.Keys && s.now <= t.now
            && t == s.(leases := t.leases, nets := t.nets, now := t.now)
  {
    ReleaseEffect(s, p, ticks);
  }

  lemma LeaveHolders(s: State, p: Peer)
    requires p in s.leases && s.leases[p] == []
    ensures forall n :: Holders(s.leases - {p}, n) == Holders(s.leases, n)
  {
  }

  lemma LeaveKeepsOk(s: State, p: Peer, last: nat)
    requires Ok(s) && p in s.leases && s.leases[p] == []
    ensures Ok(Leave(s, p, last))
  {
    var s' := Leave(s, p, last);
    LeaveHolders(s, p);
    forall n | n in s'.nets ensures NetOk(s', n) {
      assert NetOk(s, n);
    }
    if s'.leases == map[] {
      forall n | n in s'.nets ensures s'.nets[n].deadline.Some? {
        assert NetOk(s, n);
        assert Holders(s'.leases, n) == {};
      }
    }
  }

  lemma ConnectKeepsOk(s: State, p: Peer)
    requires Ok(s) && Enabled(s, Connect(p))
    ensures Ok(Step(s, Connect(p)))
  {
    var s' := Step(s, Connect(p));
    forall n ensures Holders(s'.leases, n) == Holders(s.leases, n) {
    }
    forall n | n in s'.nets ensures NetOk(s', n) {
      assert NetOk(s, n);
    }
    assert p in s'.leases;
  }

  /** A granted acquire adds the peer to the holders of one name and touches no other holder. */
  lemma AddHolders(s: State, p: Peer, n: Name)
    requires p in s.leases
    ensures forall m :: Holders(AddLease(s, p, n).leases, m)
                        == if m == n then Holders(s.leases, m) + {p} else Holders(s.leases, m)
  {
  }

  /** The same as a count, for one name. */
  lemma AddCount(s: State, p: Peer, n: Name, m: Name)
    requires p in s.leases && n !in s.leases[p]
    ensures |Holders(AddLease(s, p, n).leases, m)| == |Holders(s.leases, m)| + if m == n then 1 else 0
  {
    AddHolders(s, p, n);
  }

  /** The state after a grant, in one piece. */
  function Leased(s: State, p: Peer, n: Name, id: nat): State
    requires p in s.leases
  {
    s.(registry := true,
       leases := s.leases[p := AddOnce(s.leases[p], n)],
       nets := s.nets[n := Net(id, None)],
       next := if n in s.nets then s.next else s.next + 1)
  }

  /** When a name may be leased, and as which network. */
  ghost predicate MayLease(s: State, p: Peer, n: Name, id: nat)
    requires p in s.leases
  {
    && id == (if n in s.nets then s.nets[n].id else s.next)
    && (n in s.nets || Find(s.table, n).Some?)
    && (|s.leases[p]| < MAX_PEER_NETWORKS || (n in s.nets && n in s.leases[p]))
  }

  lemma GrantIs(s: State, p: Peer, n: Name, f: Faults)
    requires p in s.leases && Decide(s, p, n, f).Granted?
    ensures var id := Decide(s, p, n, f).id;
            MayLease(s, p, n, id) && Acquire(s, p, n, f) == Leased(s, p, n, id)
  {
  }

  lemma LeasedNetOk(s: State, p: Peer, n: Name, id: nat, m: Name)
    requires p in s.leases && MayLease(s, p, n, id) && (m == n || m in s.nets)
    requires m in s.nets ==> NetOk(s, m)
    ensures NetOk(Leased(s, p, n, id), m)
  {
    var s' := Leased(s, p, n, id);
    if m == n {
      assert p in Holders(s'.leases, n);
    } else {
      assert Holders(s'.leases, m) == Holders(s.leases, m);
    }
  }

  lemma LeasedLeasesOk(s: State, p: Peer, n: Name, id: nat)
    requires p in s.leases && MayLease(s, p, n, id) && LeasesOk(s)
    ensures LeasesOk(Leased(s, p, n, id))
  {
  }

  lemma LeasedIdsDiffer(s: State, p: Peer, n: Name, id: nat)
    requires p in s.leases && MayLease(s, p, n, id) && IdsDiffer(s)
    requires forall m | m in s.nets :: s.nets[m].id < s.next
    ensures IdsDiffer(Leased(s, p, n, id))
  {
  }

  lemma LeasedOk(s: State, p: Peer, n: Name, id: nat)
    requires Ok(s) && s.status == Running && p in s.leases && MayLease(s, p, n, id)
    ensures Ok(Leased(s, p, n, id))
  {
    hide MayLease;
    var s' := Leased(s, p, n, id);
    LeasedLeasesOk(s, p, n, id);
    assert forall m | m in s.nets :: NetOk(s, m);
    LeasedIdsDiffer(s, p, n, id);
    forall m | m in s'.nets ensures NetOk(s', m) {
      LeasedNetOk(s, p, n, id, m);
    }
    assert p in s'.leases;
  }

  lemma OpenOk(s: State)
    requires Ok(s) && s.status == Running
    ensures Ok(Open(s))
  {
    forall m | m in s.nets ensures NetOk(Open(s), m) {
      assert NetOk(s, m);
    }
  }

  lemma AcquireKeepsOk(s: State, p: Peer, n: Name, f: Faults)
    requires Ok(s) && s.status == Running && p in s.leases
    ensures Ok(Acquire(s, p, n, f))
  {
    hide Ok, Decide;
    if Decide(s, p, n, f).Granted? {
      GrantIs(s, p, n, f);
      LeasedOk(s, p, n, Decide(s, p, n, f).id);
    } else {
      OpenOk(s);
    }
  }

  /** Removing a network nobody leases keeps the invariant. */
  lemma RemoveKeepsOk(s: State, n: Name)
    requires Ok(s) && n in s.nets && s.nets[n].deadline.Some?
    ensures Ok(Remove(s, n))
  {
    var s' := Remove(s, n);
    assert !Held(s, n) by { assert NetOk(s, n); }
    forall m | m in s'.nets ensures NetOk(s', m) {
      assert NetOk(s, m);
    }
    forall p, m | p in s'.leases && m in s'.leases[p] ensures m in s'.nets {
      assert p in Holders(s.leases, m);
    }
  }

  /** The invariant is inductive: no event, in any state satisfying it, breaks it. */
  lemma StepKeepsOk(s: State, e: Event)
    requires Ok(s) && Enabled(s, e)
    ensures Ok(Step(s, e))
  {
    match e
    case Connect(p) => ConnectKeepsOk(s, p);
    case Request(p, m, f) =>
      if Parse(m).Some? {
        AcquireKeepsOk(s, p, Parse(m).value, f);
      }
    case PeerError(_) =>
    case Disconnect(p, ticks, last) =>
      ReleaseEffect(s, p, ticks);
      LeaveKeepsOk(Release(s, p, ticks), p, last);
    case NetworkTimer(n) => RemoveKeepsOk(s, n);
    case BrokerTimer =>
    case Signal =>
    case ListenerError => QuietKeepsOk(s, Step(s, e));
    case Tick(d) => QuietKeepsOk(s, Step(s, e));
  }

  /** A leased network exists and will not expire. */
  lemma LeasedStays(s: State, p: Peer, n: Name)
    requires Ok(s) && p in s.leases && n in s.leases[p]
    ensures n in s.nets && s.nets[n].deadline.None?
  {
    assert NetOk(s, n) && p in Holders(s.leases, n);
  }

  lemma QuietKeepsOk(s: State, s': State)
    requires Ok(s) && s.now <= s'.now
    requires s'.status != Exited(EXIT_SUCCESS)
    requires s' == s.(now := s'.now, status := s'.status)
    ensures Ok(s')
  {
  }

  // ---- The acquire decision

  /** Who is granted what: the name is already leased by the peer, or a slot is free and the network exists or
      can be created: the name is configured and no call that matters for its entry fails. Otherwise the code
      is the first that applies of: no free slot, unknown name, failure to create. */
  lemma AcquireOutcome(s: State, p: Peer, n: Name, f: Faults)
    requires Ok(s) && p in s.leases
    ensures var free := |s.leases[p]| < MAX_PEER_NETWORKS;
            var c := Find(s.table, n);
            var o := Decide(s, p, n, f);
            var made := && c.Some?
                        && !f.configure && !f.calloc && !f.strdup && !f.create && !f.copy
                        && (c.value.subnet.Some? && c.value.mask.Some? ==> !f.subnet && !f.mask && !f.apply);
            && (o.Granted? <==> n in s.leases[p] || (free && (n in s.nets || made)))
            && (o.Denied? ==> o.code == if !free then INTERNAL_ERROR
                                        else if c.None? then NOT_FOUND
                                        else CREATE_FAILURE)
  {
  }

  /** A denied acquire changes no lease, network, deadline or timer, and its code is never success; a
      granted one leaves the peer leasing the network it was told about, which will not expire. */
  lemma AcquireEffect(s: State, p: Peer, n: Name, f: Faults)
    requires Ok(s) && s.status == Running && p in s.leases
    ensures var s' := Acquire(s, p, n, f);
            match Decide(s, p, n, f)
            case Denied(code) =>
              code in {NOT_FOUND, CREATE_FAILURE, INTERNAL_ERROR} && s' == s.(registry := true)
            case Granted(id) =>
              && n in s'.leases[p] && n in s'.nets && s'.nets[n] == Net(id, None)
              && (n in s.nets <==> id != s.next) && id == (if n in s.nets then s.nets[n].id else s.next)
              && s'.leases[p] == (if n in s.leases[p] then s.leases[p] else s.leases[p] + [n])
              && (forall m :: m in s'.leases[p] <==> m in s.leases[p] || m == n)
              && s'.leases - {p} == s.leases - {p} && s'.nets - {n} == s.nets - {n}
              && s'.next == s.next + (if n in s.nets then 0 else 1)
              && s' == s.(registry := true, leases := s'.leases, nets := s'.nets, next := s'.next)
  {
    hide Acquire;
    if Decide(s, p, n, f).Granted? {
      GrantIs(s, p, n, f);
      LeasedEffect(s, p, n, Decide(s, p, n, f).id);
    } else {
      DeniedIs(s, p, n, f);
    }
  }

  lemma DeniedIs(s: State, p: Peer, n: Name, f: Faults)
    requires p in s.leases && Decide(s, p, n, f).Denied?
    ensures Acquire(s, p, n, f) == Open(s)
    ensures Decide(s, p, n, f).code in {NOT_FOUND, CREATE_FAILURE, INTERNAL_ERROR}
  {
  }

  lemma LeasedEffect(s: State, p: Peer, n: Name, id: nat)
    requires Ok(s) && p in s.leases && MayLease(s, p, n, id)
    ensures var s' := Leased(s, p, n, id);
            && (n in s.nets <==> id != s.next)
            && (forall m :: m in s'.leases[p] <==> m in s.leases[p] || m == n)
            && s'.leases - {p} == s.leases - {p} && s'.nets - {n} == s.nets - {n}
  {
    assert n in s.nets ==> NetOk(s, n);
  }

  /** Asking again for a leased name is granted the same network even at capacity, whatever fails, and
      changes nothing. */
  lemma ReacquireIsIdempotent(s: State, p: Peer, n: Name, f: Faults)
    requires Ok(s) && p in s.leases && n in s.leases[p]
    ensures Decide(s, p, n, f) == Granted(s.nets[n].id)
    ensures Acquire(s, p, n, f) == s
  {
    hide Acquire, Held;
    LeasedStays(s, p, n);
    GrantIs(s, p, n, f);
    var s' := Leased(s, p, n, s.nets[n].id);
    assert s'.leases == s.leases && s'.nets == s.nets && s.registry;
  }
}
