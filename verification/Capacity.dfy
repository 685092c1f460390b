/** When a peer can be told that it has too many networks. */
module Capacity {
  import opened Types
  import opened Leases
  import opened Invariants
  import opened Runs

  function ConfiguredNames(table: seq<NetworkConfig>): set<Name> {
    set c | c in table :: c.name
  }

  /** By pigeonhole no peer leases more networks than there are configured names. */
  lemma LeasesFitTable(s: State, p: Peer)
    requires Ok(s) && p in s.leases
    ensures Elements(s.leases[p]) <= ConfiguredNames(s.table)
    ensures |s.leases[p]| <= |ConfiguredNames(s.table)|
  {
    forall n | n in s.leases[p] ensures n in ConfiguredNames(s.table) {
      assert NetOk(s, n);
      assert Find(s.table, n).value in s.table;
    }
    DistinctSize(s.leases[p]);
    SubsetSize(Elements(s.leases[p]), ConfiguredNames(s.table));
  }

  /** Event `i` of the run is refused for lack of a free slot. */
  ghost predicate RefusedFull(r: Run, i: nat)
    requires IsRun(r) && i < |r.events|
  {
    && r.events[i].Request?
    && r.events[i].peer in r.states[i].leases
    && Parse(r.events[i].message).Some?
    && Decide(r.states[i], r.events[i].peer, Parse(r.events[i].message).value, r.events[i].faults)
       == Denied(INTERNAL_ERROR)
  }

  lemma {:induction false} NamesToSeq(names: set<Name>, k: nat) returns (s: seq<Name>)
    requires k <= |names|
    ensures |s| == k && Distinct(s) && forall n | n in s :: n in names
  {
    s := [];
    if k > 0 {
      var n :| n in names;
      var rest := NamesToSeq(names - {n}, k - 1);
      s := [n] + rest;
    }
  }

  function Joined(names: seq<Name>): Name {
    if names == [] then "" else names[0] + Joined(names[1..])
  }

  lemma {:induction false} JoinedIsLong(names: seq<Name>, n: Name)
    requires n in names
    ensures |n| <= |Joined(names)|
  {
    if n != names[0] {
      JoinedIsLong(names[1..], n);
    }
  }

  /** There is always a name a peer has not leased. */
  lemma UnusedName(names: seq<Name>) returns (n: Name)
    ensures n !in names
  {
    n := Joined(names) + "x";
    if n in names {
      JoinedIsLong(names, n);
    }
  }

  function AcquireEvent(n: Name): Event {
    Request(0, Message(Some(COMMAND_ACQUIRE), Some(n), true), NO_FAULTS)
  }

  /** A run in which peer 0 acquires the first `k` of some distinct, creatable names. */
  lemma {:induction false} FillPeer(table: seq<NetworkConfig>, names: seq<Name>, k: nat) returns (r: Run)
    requires k <= |names| <= MAX_PEER_NETWORKS && Distinct(names)
    requires forall n | n in names :: n in ConfiguredNames(table)
    ensures IsRun(r) && r.states[0].table == table
    ensures var s := r.states[|r.events|];
            s.status == Running && 0 in s.leases && s.leases[0] == names[..k] && s.table == table
  {
    hide Ok;
    if k == 0 {
      var s0 := Initial(table);
      r := Run([s0], []);
      r := Extend(r, Connect(0));
    } else {
      r := FillPeer(table, names, k - 1);
      var s := r.states[|r.events|];
      var n := names[k - 1];
      ReachableOk(r, |r.events|);
      assert Find(table, n).Some? by {
        assert n in names;
        var c :| c in table && c.name == n;
      }
      assert Creates(Find(table, n).value, NO_FAULTS);
      AcquireOutcome(s, 0, n, NO_FAULTS);
      r := Extend(r, AcquireEvent(n));
      assert n !in names[..k - 1];
      assert names[..k] == names[..k - 1] + [n];
    }
  }

  /** The refusal for lack of slots can occur if and only if the table configures at least as many names
      as a peer has slots. */
  lemma CapacityIsReachableIff(table: seq<NetworkConfig>)
    ensures (exists r: Run, i: nat ::
               IsRun(r) && r.states[0].table == table && i < |r.events| && RefusedFull(r, i))
            <==> |ConfiguredNames(table)| >= MAX_PEER_NETWORKS
  {
    forall r: Run, i: nat | IsRun(r) && r.states[0].table == table && i < |r.events| && RefusedFull(r, i)
      ensures |ConfiguredNames(table)| >= MAX_PEER_NETWORKS
    {
      ReachableOk(r, i);
      RunIsMonotone(r, 0, i);
      LeasesFitTable(r.states[i], r.events[i].peer);
    }
    if |ConfiguredNames(table)| >= MAX_PEER_NETWORKS {
      var names := NamesToSeq(ConfiguredNames(table), MAX_PEER_NETWORKS);
      var r := FillPeer(table, names, MAX_PEER_NETWORKS);
      var n := UnusedName(names);
      assert names[..MAX_PEER_NETWORKS] == names;
      var k := |r.events|;
      ReachableOk(r, k);
      AcquireOutcome(r.states[k], 0, n, NO_FAULTS);
      var r' := Extend(r, AcquireEvent(n));
      assert RefusedFull(r', k);
    }
  }

  /** The builtin networks are "shared", in shared mode, and "host", in host mode, with dynamic addresses. */
  lemma Builtins(n: Name)
    ensures ConfiguredNames(BUILTIN_NETWORKS) == {"shared", "host"}
    ensures Find(BUILTIN_NETWORKS, n).Some? <==> n == "shared" || n == "host"
    ensures Find(BUILTIN_NETWORKS, "shared") == Some(NetworkConfig("shared", SharedMode, None, None))
    ensures Find(BUILTIN_NETWORKS, "host") == Some(NetworkConfig("host", HostMode, None, None))
  {
    var shared, host := BUILTIN_NETWORKS[0], BUILTIN_NETWORKS[1];
    assert BUILTIN_NETWORKS == [shared, host] && BUILTIN_NETWORKS[1..] == [host];
    assert shared.name[0] != host.name[0];
    assert shared in BUILTIN_NETWORKS && host in BUILTIN_NETWORKS;
  }

  /** With the builtin networks, and if no external call fails, a peer is granted these two names whenever it
      asks, and is told of any other that it is not found. */
  lemma BuiltinsAreServed(s: State, p: Peer, n: Name)
    requires Ok(s) && s.table == BUILTIN_NETWORKS && p in s.leases
    ensures Decide(s, p, n, NO_FAULTS).Granted? <==> n == "shared" || n == "host"
    ensures Decide(s, p, n, NO_FAULTS).Denied? ==> Decide(s, p, n, NO_FAULTS).code == NOT_FOUND
  {
    Builtins(n);
    AcquireOutcome(s, p, n, NO_FAULTS);
    LeasesFitTable(s, p);
    SubsetSize(ConfiguredNames(BUILTIN_NETWORKS), {"shared", "host"});
    assert n in s.leases[p] ==> n in Elements(s.leases[p]);
    assert n in s.nets ==> NetOk(s, n);
  }

  /** With the two builtin networks no peer is ever refused for lack of slots. */
  lemma BuiltinsNeverFillAPeer(r: Run, i: nat)
    requires IsRun(r) && r.states[0].table == BUILTIN_NETWORKS && i < |r.events|
    ensures !RefusedFull(r, i)
  {
    Builtins("");
    SubsetSize(ConfiguredNames(BUILTIN_NETWORKS), {"shared", "host"});
    if RefusedFull(r, i) {
      CapacityIsReachableIff(BUILTIN_NETWORKS);
    }
  }
}
