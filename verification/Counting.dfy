/** Counting leases two ways. */
module Counting {
  import opened Types
  import opened Leases

  ghost function Sum<T(!new)>(m: map<T, nat>): nat {
    if m == map[] then 0
    else
      var k :| k in m;
      m[k] + Sum(m - {k})
  }

  /** The order of summation does not matter. */
  lemma {:induction false} SumSplit<T(!new)>(m: map<T, nat>, k: T)
    requires k in m
    ensures Sum(m) == m[k] + Sum(m - {k})
    decreases |m|
  {
    var j :| j in m && Sum(m) == m[j] + Sum(m - {j});
    if j != k {
      assert |m - {j}| < |m| && |m - {k}| < |m| by {
        assert (m - {j}).Keys == m.Keys - {j} && (m - {k}).Keys == m.Keys - {k};
      }
      SumSplit(m - {j}, k);
      SumSplit(m - {k}, j);
      assert (m - {j}) - {k} == (m - {k}) - {j};
    }
  }

  /** Adding one at every key of a set adds its size to the sum. */
  lemma {:induction false} SumBump<T(!new)>(a: map<T, nat>, b: map<T, nat>, bumped: set<T>)
    requires a.Keys == b.Keys && bumped <= a.Keys
    requires forall k | k in a :: b[k] == a[k] + if k in bumped then 1 else 0
    ensures Sum(b) == Sum(a) + |bumped|
    decreases |a|
  {
    if a == map[] {
      assert b == map[] && bumped == {};
    } else {
      var k :| k in a;
      SumSplit(a, k);
      SumSplit(b, k);
      assert (a - {k}).Keys == a.Keys - {k} && (b - {k}).Keys == b.Keys - {k};
      SumBump(a - {k}, b - {k}, bumped - {k});
    }
  }

  lemma {:induction false} SumZero<T(!new)>(m: map<T, nat>)
    requires forall k | k in m :: m[k] == 0
    ensures Sum(m) == 0
    decreases |m|
  {
    if m != map[] {
      var k :| k in m;
      SumSplit(m, k);
      assert (m - {k}).Keys == m.Keys - {k};
      SumZero(m - {k});
    }
  }

  function SlotCounts(leases: map<Peer, seq<Name>>): map<Peer, nat> {
    map p | p in leases :: |leases[p]|
  }

  function HolderCounts(leases: map<Peer, seq<Name>>, names: set<Name>): map<Name, nat> {
    map n | n in names :: |Holders(leases, n)|
  }

  lemma HoldersSplit(leases: map<Peer, seq<Name>>, p: Peer, n: Name)
    requires p in leases
    ensures |Holders(leases, n)| == |Holders(leases - {p}, n)| + if n in leases[p] then 1 else 0
  {
    if n in leases[p] {
      assert Holders(leases, n) == Holders(leases - {p}, n) + {p};
    } else {
      assert Holders(leases, n) == Holders(leases - {p}, n);
    }
  }

  /** Leases counted by peer and by network agree. */
  lemma {:induction false} DoubleCounting(leases: map<Peer, seq<Name>>, names: set<Name>)
    requires forall p | p in leases :: Distinct(leases[p]) && Elements(leases[p]) <= names
    ensures Sum(SlotCounts(leases)) == Sum(HolderCounts(leases, names))
    decreases |leases|
  {
    if leases == map[] {
      SumZero(HolderCounts(leases, names));
    } else {
      var p :| p in leases;
      var rest := leases - {p};
      assert rest.Keys == leases.Keys - {p};
      DoubleCounting(rest, names);
      SumSplit(SlotCounts(leases), p);
      assert SlotCounts(leases) - {p} == SlotCounts(rest);
      forall n | n in names {
        HoldersSplit(leases, p, n);
      }
      SumBump(HolderCounts(rest, names), HolderCounts(leases, names), Elements(leases[p]));
      DistinctSize(leases[p]);
    }
  }

  /** In a state satisfying the invariant the slots in use are exactly the holders of the networks. */
  lemma LeasesBalance(s: State)
    requires LeasesOk(s)
    ensures Sum(SlotCounts(s.leases)) == Sum(HolderCounts(s.leases, s.nets.Keys))
  {
    DoubleCounting(s.leases, s.nets.Keys);
  }
}
