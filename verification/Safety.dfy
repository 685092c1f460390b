/** What the invariant of module Broker means for the memory of the process, without mention of the
    lease machine it follows. */
module Safety {
  import opened Types
  import opened Leases
  import opened Resources
  import opened Runtime
  import opened Counting
  import opened Broker

  /** Allocated, and the value of the registry under its own name. */
  ghost predicate Registered(b: Broker, net: Network)
    reads b`registry, net
  {
    && !net.freed && net.name.Some?
    && net.name.value in b.Entries() && b.Entries()[net.name.value] == net
  }

  /** The network is in one of the used slots. */
  ghost predicate Uses(ctx: Context, net: Network)
    reads ctx, ctx.networks
  {
    exists i | 0 <= i < ctx.networkCount && i < ctx.networks.Length :: ctx.networks[i] == net
  }

  /** The peers whose used slots contain the network. */
  ghost function Owners(b: Broker, net: Network): set<Peer>
    reads b`contexts, b.Contexts(), b.Arrays()
  {
    set p | p in b.contexts && Uses(b.contexts[p], net)
  }

  lemma EntryIs(b: Broker, s: State, n: Name)
    requires b.Linked(s) && n in b.Entries()
    ensures n in s.nets && Registered(b, b.Entries()[n]) && b.Entries()[n].name == Some(n)
    ensures b.Entries()[n].peers == |Holders(s.leases, n)| && b.Entries()[n].id == s.nets[n].id
    ensures b.Entries()[n] in b.sys.armed <==> s.nets[n].deadline.Some?
    ensures b.Entries()[n].idleTimer == s.nets[n].deadline.Some?
    ensures s.nets[n].deadline.Some? ==> b.sys.armed[b.Entries()[n]] == s.nets[n].deadline.value
  {
  }

  /** Every used slot of every open connection points to a network that is allocated and registered under
      its own name. */
  lemma NoDanglingSlot(b: Broker, s: State, p: Peer, i: nat)
    requires b.Represents(s) && p in b.contexts && i < b.contexts[p].networkCount
    ensures i < b.contexts[p].networks.Length <= MAX_PEER_NETWORKS
    ensures b.contexts[p].networks[i] != null && Registered(b, b.contexts[p].networks[i])
    ensures forall j | 0 <= j < i :: b.contexts[p].networks[j] != b.contexts[p].networks[i]
  {
  }

  /** The handler of every armed timer captured a network that is allocated, registered under its own name
      and without owners. */
  lemma NoDanglingTimer(b: Broker, s: State, net: Network)
    requires b.Represents(s) && net in b.sys.armed
    ensures Registered(b, net) && net.peers == 0 && net.idleTimer && Owners(b, net) == {}
  {
  }

  lemma OwnersAreHolders(b: Broker, s: State, n: Name)
    requires b.Linked(s) && n in b.Entries()
    ensures Owners(b, b.Entries()[n]) == Holders(s.leases, n)
  {
  }

  /** Every reference count is exact, and a removal timer is armed exactly for the networks whose count is
      zero. */
  lemma CountsAreExact(b: Broker, s: State, n: Name)
    requires b.Represents(s) && n in b.Entries()
    ensures var net := b.Entries()[n];
            && net.peers == |Owners(b, net)|
            && (net.peers == 0 <==> net in b.sys.armed) && (net.peers == 0 <==> net.idleTimer)
            && 0 <= net.peers <= b.connectedPeers
  {
    EntryIs(b, s, n);
    OwnersAreHolders(b, s, n);
    assert NetOk(s, n);
    HoldersBound(s, n);
  }

  lemma HoldersBound(s: State, n: Name)
    ensures |Holders(s.leases, n)| <= |s.leases|
  {
    SubsetSize(Holders(s.leases, n), s.leases.Keys);
    assert |s.leases.Keys| == |s.leases|;
  }

  ghost function NetworkCounts(b: Broker): map<Name, nat>
    reads b`registry, b.Nets()
    requires forall net | net in b.Nets() :: net.peers >= 0
  {
    map n | n in b.Entries() :: b.Entries()[n].peers
  }

  ghost function UsedSlots(b: Broker): map<Peer, nat>
    reads b`contexts, b.Contexts()
    requires forall ctx | ctx in b.Contexts() :: ctx.networkCount >= 0
  {
    map p | p in b.contexts :: b.contexts[p].networkCount
  }

  lemma NetworkCountsAre(b: Broker, s: State)
    requires b.Linked(s)
    ensures forall net | net in b.Nets() :: net.peers >= 0
    ensures NetworkCounts(b) == HolderCounts(s.leases, s.nets.Keys)
  {
    hide b.ModeOf;
  }

  lemma UsedSlotsAre(b: Broker, s: State)
    requires b.Linked(s)
    ensures forall ctx | ctx in b.Contexts() :: ctx.networkCount >= 0
    ensures UsedSlots(b) == SlotCounts(s.leases)
  {
  }

  /** Summed over the registry, the reference counts are the number of slots in use. */
  lemma CountsBalance(b: Broker, s: State)
    requires b.Represents(s)
    ensures forall net | net in b.Nets() :: net.peers >= 0
    ensures forall ctx | ctx in b.Contexts() :: ctx.networkCount >= 0
    ensures Sum(NetworkCounts(b)) == Sum(UsedSlots(b))
  {
    NetworkCountsAre(b, s);
    UsedSlotsAre(b, s);
    LeasesBalance(s);
  }

  /** The broker counts its connections; it holds a transaction exactly while there are any; and it waits
      to shut down exactly when there are none any more, for at least as long as every network. */
  lemma SessionIsExact(b: Broker, s: State)
    requires b.Represents(s)
    ensures b.connectedPeers == |b.contexts|
    ensures Count(b.sys.live, Transaction) == One(b.connectedPeers > 0)
    ensures Count(b.sys.live, ShutdownTimer) == One(b.idleTimer)
    ensures b.idleTimer <==> b.connectedPeers == 0 && s.started
    ensures b.idleTimer <==> b.sys.shutdownAt.Some?
    ensures b.idleTimer ==> forall n | n in b.Entries() ::
              && b.Entries()[n] in b.sys.armed && b.sys.armed[b.Entries()[n]] <= b.sys.shutdownAt.value
  {
    assert b.contexts.Keys == s.leases.Keys;
    assert |b.contexts| == |b.contexts.Keys| && |s.leases| == |s.leases.Keys|;
    if b.idleTimer {
      forall n | n in b.Entries()
        ensures b.Entries()[n] in b.sys.armed && b.sys.armed[b.Entries()[n]] <= b.sys.shutdownAt.value
      {
        EntryIs(b, s, n);
      }
    }
  }

  /** Nothing is held twice; the references, structures, names and serializations held are those of the
      registered networks, the timers held those of the idle ones; no configuration and no reply is left
      over from an earlier event. */
  lemma LedgerIsExact(b: Broker, s: State, id: nat)
    requires b.Represents(s)
    ensures forall x :: Count(b.sys.live, x) <= 1
    ensures Count(b.sys.live, NetworkRef(id)) == 1 <==> exists n | n in b.Entries() :: b.Entries()[n].id == id
    ensures Count(b.sys.live, RemovalTimer(id)) == 1 <==>
              exists n | n in b.Entries() :: b.Entries()[n].id == id && b.Entries()[n].peers == 0
    ensures Count(b.sys.live, Structure(id)) == Count(b.sys.live, NetworkRef(id))
    ensures Count(b.sys.live, NameBuffer(id)) == Count(b.sys.live, NetworkRef(id))
    ensures Count(b.sys.live, SerialRef(id)) == Count(b.sys.live, NetworkRef(id))
    ensures Count(b.sys.live, Configuration) == 0 && Count(b.sys.live, ReplyMessage) == 0
    ensures Count(b.sys.live, RegistryTable) == One(b.registry.Some?)
  {
    hide b.Linked, Ok, Count;
    b.EntriesAreNets(s);
    forall n | n in b.Entries()
      ensures b.Entries()[n].id == s.nets[n].id && (b.Entries()[n].peers == 0 <==> s.nets[n].deadline.Some?)
    {
      EntryIs(b, s, n);
      CountsAreExact(b, s, n);
    }
  }

  /** Every registered network was made in the mode of the first entry that the table has for its name. */
  lemma ModesAreConfigured(b: Broker, s: State, n: Name) returns (i: nat)
    requires b.Represents(s) && n in b.Entries()
    ensures i < |b.table| && b.table[i].name == n && b.Entries()[n].ref == Some(b.table[i].mode)
    ensures forall j | 0 <= j < i :: b.table[j].name != n
  {
    assert b.NetLinked(b.Entries(), s.leases, s.nets, n) && NetOk(s, n);
    i := FindIsFirst(b.table, n);
  }

  /** With the builtin networks "shared" is made in shared mode and "host" in host mode. */
  lemma BuiltinModes(b: Broker, s: State, n: Name)
    requires b.Represents(s) && b.table == BUILTIN_NETWORKS && n in b.Entries()
    ensures (n == "shared" && b.Entries()[n].ref == Some(SharedMode))
            || (n == "host" && b.Entries()[n].ref == Some(HostMode))
  {
    var i := ModesAreConfigured(b, s, n);
    assert i == 0 || i == 1;
  }

  /** Two peers that use networks of the same name use the same object. */
  lemma SameNameSameObject(b: Broker, s: State, p: Peer, i: nat, q: Peer, j: nat)
    requires b.Represents(s) && p in b.contexts && q in b.contexts
    requires i < b.contexts[p].networkCount && j < b.contexts[q].networkCount
    ensures i < b.contexts[p].networks.Length && j < b.contexts[q].networks.Length
    ensures b.contexts[p].networks[i] != null && b.contexts[q].networks[j] != null
    ensures b.contexts[p].networks[i].name == b.contexts[q].networks[j].name
            <==> b.contexts[p].networks[i] == b.contexts[q].networks[j]
  {
  }

  /** After a successful exit no connection, network or removal timer is left, and the only thing still held
      is the source of the broker's own idle timer, if it was running. */
  lemma ExitFreesEverything(b: Broker, s: State)
    requires b.Represents(s) && b.sys.status == Exited(EXIT_SUCCESS)
    ensures b.contexts == map[] && b.registry.None? && b.sys.armed == map[] && b.connectedPeers == 0
    ensures forall x :: Count(b.sys.live, x) == One(x == ShutdownTimer && b.idleTimer)
  {
  }
}
