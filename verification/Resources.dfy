/** What the broker must be holding from the system in a given state: no more (nothing leaks) and no
    less (nothing is released twice). */
module Resources {
  import opened Types
  import opened Leases
  import opened Invariants

  datatype Resource =
    | Configuration              // vmnet network configuration
    | Structure(id: nat)         // memory of a network
    | NameBuffer(id: nat)        // its copied name
    | NetworkRef(id: nat)        // its vmnet reference
    | SerialRef(id: nat)         // a retain of its serialization
    | RemovalTimer(id: nat)      // its idle timer source
    | ShutdownTimer              // the broker's idle timer source
    | Transaction                // begun and not ended
    | RegistryTable              // the registry dictionary
    | ReplyMessage               // a reply under construction

  function One(b: bool): nat {
    if b then 1 else 0
  }

  /** Some network with this creation number exists. */
  ghost predicate Exists(nets: map<Name, Net>, id: nat) {
    exists n | n in nets :: nets[n].id == id
  }

  ghost predicate ExistsIdle(nets: map<Name, Net>, id: nat) {
    exists n | n in nets :: nets[n].id == id && nets[n].deadline.Some?
  }

  /** How often the broker holds a resource between two events: once per existing network its memory,
      its name, its vmnet reference and a retain of its serialization; a removal timer per idle network;
      a shutdown timer while waiting to shut down; a transaction while peers are connected; and never a
      configuration or a reply. */
  ghost function Due(s: State, x: Resource): nat {
    match x
    case Structure(id) => One(Exists(s.nets, id))
    case NameBuffer(id) => One(Exists(s.nets, id))
    case NetworkRef(id) => One(Exists(s.nets, id))
    case SerialRef(id) => One(Exists(s.nets, id))
    case RemovalTimer(id) => One(ExistsIdle(s.nets, id))
    case ShutdownTimer => One(s.timer.Some?)
    case Transaction => One(s.leases != map[])
    case RegistryTable => One(s.registry)
    case Configuration => 0
    case ReplyMessage => 0
  }

  /** What one network accounts for. */
  function NetDue(id: nat, idle: bool, x: Resource): nat {
    match x
    case Structure(i) => One(i == id)
    case NameBuffer(i) => One(i == id)
    case NetworkRef(i) => One(i == id)
    case SerialRef(i) => One(i == id)
    case RemovalTimer(i) => One(i == id && idle)
    case _ => 0
  }

  lemma ExistsSplit(nets: map<Name, Net>, n: Name, id: nat)
    requires n in nets
    ensures Exists(nets, id) <==> nets[n].id == id || Exists(nets - {n}, id)
    ensures ExistsIdle(nets, id) <==> (nets[n].id == id && nets[n].deadline.Some?) || ExistsIdle(nets - {n}, id)
  {
    if m :| m in nets && nets[m].id == id && m != n {
      assert m in nets - {n};
    }
    if m :| m in nets && nets[m].id == id && nets[m].deadline.Some? && m != n {
      assert m in nets - {n};
    }
  }

  /** Removing a network gives back exactly what it accounts for. */
  lemma RemoveDue(s: State, n: Name)
    requires n in s.nets && !Exists(s.nets - {n}, s.nets[n].id)
    ensures forall x :: Due(s, x)
                        == Due(Remove(s, n), x) + NetDue(s.nets[n].id, s.nets[n].deadline.Some?, x)
  {
    forall x ensures Due(s, x)
                     == Due(Remove(s, n), x) + NetDue(s.nets[n].id, s.nets[n].deadline.Some?, x)
    {
      if x.Structure? || x.NameBuffer? || x.NetworkRef? || x.SerialRef? || x.RemovalTimer? {
        ExistsSplit(s.nets, n, x.id);
      }
    }
  }

  lemma OthersDiffer(s: State, n: Name)
    requires n in s.nets && IdsDiffer(s)
    ensures !Exists(s.nets - {n}, s.nets[n].id)
  {
  }

  lemma CreateDue(s: State, n: Name)
    requires n !in s.nets && !Exists(s.nets, s.next)
    ensures forall x :: Due(Create(s, n), x) == Due(s, x) + NetDue(s.next, false, x)
  {
    var t := Create(s, n);
    assert t.nets - {n} == s.nets;
    RemoveDue(t, n);
    forall x ensures Due(t, x) == Due(s, x) + NetDue(s.next, false, x) {
      assert Due(Remove(t, n), x) == Due(s, x);
    }
  }

  /** Giving a network a deadline, or taking it away, changes only its removal timer. */
  lemma DeadlineDue(s: State, n: Name, d: Option<nat>)
    requires n in s.nets && IdsDiffer(s)
    ensures var t := s.(nets := s.nets[n := s.nets[n].(deadline := d)]);
            forall x :: Due(t, x) == if x == RemovalTimer(s.nets[n].id) then One(d.Some?) else Due(s, x)
    ensures Due(s, RemovalTimer(s.nets[n].id)) == One(s.nets[n].deadline.Some?)
  {
    var t := s.(nets := s.nets[n := s.nets[n].(deadline := d)]);
    var id := s.nets[n].id;
    assert s.nets - {n} == t.nets - {n};
    OthersDiffer(s, n);
    RemoveDue(s, n);
    RemoveDue(t, n);
    forall x ensures Due(t, x) == if x == RemovalTimer(id) then One(d.Some?) else Due(s, x) {
      assert Due(Remove(t, n), x) == Due(Remove(s, n), x);
    }
    assert !ExistsIdle(s.nets - {n}, id);
    assert Due(Remove(s, n), RemovalTimer(id)) == 0;
  }

  lemma OpenDue(s: State)
    ensures forall x :: Due(Open(s), x) == Due(s, x) + One(x == RegistryTable && !s.registry)
  {
  }

  lemma FreshId(s: State)
    requires forall m | m in s.nets :: NetOk(s, m)
    ensures !Exists(s.nets, s.next)
  {
  }

  /** A new lease needs nothing from the system, once the network exists. */
  lemma LeaseDue(s: State, p: Peer, n: Name)
    requires p in s.leases
    ensures forall x :: Due(AddLease(s, p, n), x) == Due(s, x)
  {
  }

  lemma DecideOpen(s: State, p: Peer, n: Name, f: Faults)
    requires p in s.leases
    ensures Decide(Open(s), p, n, f) == Decide(s, p, n, f)
  {
  }

  /** The state once the name has a network. */
  function Found(s: State, n: Name): State {
    if n in s.nets then Open(s) else Create(Open(s), n)
  }

  /** Once the name has a network, the acquire is granted if the peer has it or has a free slot. */
  lemma AcquireSteps(s: State, p: Peer, n: Name, f: Faults)
    requires p in s.leases && (n in s.nets || Decide(s, p, n, f).Granted?)
    ensures var o, t := Decide(s, p, n, f), Found(s, n);
            && (o.Granted? <==> n in t.leases[p] || |t.leases[p]| < MAX_PEER_NETWORKS)
            && (o.Granted? ==> o.id == t.nets[n].id)
            && (o.Denied? ==> o.code == INTERNAL_ERROR)
            && Acquire(s, p, n, f) == (if o.Granted? then KeepAlive(AddLease(t, p, n), n) else t)
            && Acquire(s, p, n, f).next == t.next
            && t.leases == s.leases
            && (t.nets[n].deadline.Some? ==> n in s.nets && s.nets[n].deadline.Some? && s.nets[n].id == t.nets[n].id)
            && (forall x :: AcquireDelta(s, n, o.Granted?, x)
                            == FindDelta(s, n, true, x) + TakeDelta(t.nets[n], o.Granted?, x))
            && (forall x :: FindDelta(s, n, true, x) >= 0)
  {
  }

  lemma DeniedSteps(s: State, p: Peer, n: Name, f: Faults)
    requires p in s.leases && n !in s.nets && Decide(s, p, n, f).Denied?
    ensures Acquire(s, p, n, f) == Open(s)
    ensures forall x :: AcquireDelta(s, n, false, x) == FindDelta(s, n, false, x)
  {
  }

  /** The resources taken to find or register the network of a name: the registry table the first time, and
      the network if it is new. */
  function FindDelta(s: State, n: Name, found: bool, x: Resource): int {
    One(x == RegistryTable && !s.registry) + if n !in s.nets && found then NetDue(s.next, false, x) else 0
  }

  /** The resources that handing out a network takes and gives back: a retain of its serialization for the
      reply, and its removal timer if it was idle. */
  function TakeDelta(net: Net, granted: bool, x: Resource): int {
    if granted then One(x == SerialRef(net.id)) - One(net.deadline.Some? && x == RemovalTimer(net.id)) else 0
  }

  function AcquireDelta(s: State, n: Name, granted: bool, x: Resource): int {
    FindDelta(s, n, granted, x) + TakeDelta(if n in s.nets then s.nets[n] else Net(s.next, None), granted, x)
  }

  /** Apart from the retain for the reply, the resources due change as the acquire changes them. */
  lemma AcquireDue(s: State, p: Peer, n: Name, f: Faults)
    requires Ok(s) && p in s.leases
    ensures var o := Decide(s, p, n, f);
            forall x :: Due(Acquire(s, p, n, f), x) + One(o.Granted? && x == SerialRef(o.id))
                        == Due(s, x) + AcquireDelta(s, n, o.Granted?, x)
  {
    var s1 := Open(s);
    OpenDue(s);
    if Decide(s, p, n, f).Granted? {
      FreshId(s);
      var s2 := if n in s.nets then s1 else Create(s1, n);
      if n !in s.nets {
        CreateDue(s1, n);
      }
      var s3 := AddLease(s2, p, n);
      LeaseDue(s2, p, n);
      IdsStayDifferent(s, n);
      DeadlineDue(s3, n, None);
      assert KeepAlive(s3, n) == Acquire(s, p, n, f);
    }
  }

  lemma IdsStayDifferent(s: State, n: Name)
    requires Ok(s)
    ensures IdsDiffer(Open(s)) && (n !in s.nets ==> IdsDiffer(Create(Open(s), n)))
  {
  }

  /** Dropping a lease takes a removal timer if nobody else leases the name. */
  function DropDelta(s: State, p: Peer, i: nat, d: nat, id: nat, x: Resource): nat
    requires p in s.leases && i < |s.leases[p]|
  {
    One(!Held(Unlease(s, p, i, d), s.leases[p][i]) && x == RemovalTimer(id))
  }

  lemma DropDue(s: State, p: Peer, i: nat, d: nat)
    requires Ok(s) && p in s.leases && i < |s.leases[p]|
    ensures s.leases[p][i] in s.nets
    ensures forall x :: Due(Drop(s, p, i, d), x)
                        == Due(s, x) + DropDelta(s, p, i, d, s.nets[s.leases[p][i]].id, x)
  {
    hide Due, Held, NetOk, LeasesOk, TimerOk;
    var n, s1 := s.leases[p][i], Unlease(s, p, i, d);
    LeasedStays(s, p, n);
    UnleaseDue(s, p, i, d);
    DeadlineDue(s1, n, Some(s1.now + IDLE_TIMEOUT));
  }

  lemma UnleaseDue(s: State, p: Peer, i: nat, d: nat)
    requires p in s.leases && i < |s.leases[p]|
    ensures forall x :: Due(Unlease(s, p, i, d), x) == Due(s, x)
  {
    assert p in Unlease(s, p, i, d).leases;
  }

  lemma DropLength(s: State, p: Peer, i: nat, d: nat)
    requires p in s.leases && i < |s.leases[p]|
    ensures var t := Drop(s, p, i, d);
            p in t.leases && |t.leases[p]| == |s.leases[p]| - 1 && t.next == s.next
  {
  }

  /** What an acquire may rely on, and what it makes of the resources due. */
  lemma AcquireFacts(s: State, p: Peer, n: Name, f: Faults)
    requires Ok(s) && p in s.leases
    ensures n !in s.nets ==> Holders(s.leases, n) == {}
    ensures n in s.nets && s.nets[n].deadline.Some? ==> Due(s, RemovalTimer(s.nets[n].id)) == 1
    ensures |Acquire(s, p, n, f).leases| == |s.leases|
    ensures var o := Decide(s, p, n, f);
            forall x :: Due(Acquire(s, p, n, f), x) + One(o.Granted? && x == SerialRef(o.id))
                        == Due(s, x) + AcquireDelta(s, n, o.Granted?, x)
  {
    AcquireDue(s, p, n, f);
    if n in s.nets {
      DeadlineDue(s, n, None);
    }
    assert Acquire(s, p, n, f).leases.Keys == s.leases.Keys;
    assert forall m: map<Peer, seq<Name>> :: |m| == |m.Keys|;
  }

  lemma ConnectDue(s: State, p: Peer)
    requires Ok(s) && Enabled(s, Connect(p))
    ensures var t := Step(s, Connect(p));
            && |t.leases| == |s.leases| + 1 && t.next == s.next
            && (s.timer.Some? ==> |s.leases| == 0 && Due(s, ShutdownTimer) == 1)
            && forall x :: Due(t, x) == Due(s, x) + One(x == Transaction && |s.leases| == 0)
                                        - One(x == ShutdownTimer && s.timer.Some?)
  {
  }

  /** Events that only move the clock or end the process need nothing from the system. */
  lemma QuietDue(s: State, e: Event)
    requires Enabled(s, e) && (e.ListenerError? || e.PeerError? || e.Tick?)
    ensures forall x :: Due(Step(s, e), x) == Due(s, x)
    ensures Step(s, e).leases == s.leases && Step(s, e).next == s.next
  {
  }

  /** The state when the peer is forgotten and its session not yet ended. */
  function Left(t: State, p: Peer): State {
    t.(leases := t.leases - {p})
  }

  /** Ending the session of the last peer trades the transaction for the shutdown timer. */
  lemma LeaveDue(t: State, p: Peer, last: nat)
    requires p in t.leases && t.timer.None?
    ensures |Left(t, p).leases| == |t.leases| - 1
    ensures Due(t, Transaction) == 1
    ensures forall x :: Due(Leave(t, p, last), x) == Due(t, x) + One(x == ShutdownTimer && |Left(t, p).leases| == 0)
                                                     - One(x == Transaction && |Left(t, p).leases| == 0)
  {
  }

  lemma BusyHasNoTimer(s: State, p: Peer)
    requires Ok(s) && p in s.leases
    ensures s.timer.None?
  {
  }

  /** The pieces of a disconnection. */
  lemma LeaveFacts(s: State, p: Peer, ticks: seq<nat>, last: nat)
    requires Ok(s) && p in s.leases
    ensures var t := Release(s, p, ticks);
            var done := Leave(t, p, last);
            && p in t.leases && t.leases[p] == [] && t.timer.None? && t.status == s.status
            && |t.leases| == |s.leases|
            && done == (if |Left(t, p).leases| == 0
                        then Advance(Left(t, p), last).(timer := Some(t.now + last + IDLE_TIMEOUT)) else Left(t, p))
  {
    hide Ok, ReleasedNet;
    var t := Release(s, p, ticks);
    ReleaseEffect(s, p, ticks);
    BusyHasNoTimer(s, p);
    assert t.leases.Keys == s.leases.Keys;
    assert |Left(t, p).leases| == 0 <==> Left(t, p).leases == map[];
  }

  /** An idle network can be removed. */
  lemma RemoveFacts(s: State, n: Name)
    requires Ok(s) && n in s.nets && s.nets[n].deadline.Some?
    ensures Holders(s.leases, n) == {} && Ok(Remove(s, n))
    ensures forall x :: Due(s, x)
                        == Due(Remove(s, n), x) + NetDue(s.nets[n].id, s.nets[n].deadline.Some?, x)
  {
    assert NetOk(s, n);
    RemoveKeepsOk(s, n);
    OthersDiffer(s, n);
    RemoveDue(s, n);
  }

  /** A network that nobody holds can be removed. */
  lemma UnheldFacts(s: State, n: Name)
    requires Ok(s) && n in s.nets && s.leases == map[]
    ensures Holders(s.leases, n) == {} && Ok(Remove(s, n))
    ensures forall x :: Due(s, x)
                        == Due(Remove(s, n), x) + NetDue(s.nets[n].id, s.nets[n].deadline.Some?, x)
  {
    assert NetOk(s, n);
    RemoveKeepsOk(s, n);
    OthersDiffer(s, n);
    RemoveDue(s, n);
  }

  lemma ClearDue(s: State)
    requires s.registry
    ensures s.nets == map[] ==>
              forall x :: Due(s.(nets := map[], registry := false), x) == Due(s, x) - One(x == RegistryTable)
    ensures Due(s, RegistryTable) == 1
  {
  }

  /** A broker that exited successfully holds nothing but the source of the shutdown timer. */
  lemma NothingLeftAfterExit(s: State, x: Resource)
    requires Ok(s) && s.status == Exited(EXIT_SUCCESS)
    ensures Due(s, x) == One(x == ShutdownTimer && s.started)
  {
  }
}
