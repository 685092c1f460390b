/** The broker process: the registry and ownership of networks (broker/network.c), the reaction to peers,
    timers and signals (broker/broker.c) and the per-connection dispatch (broker/xpc.c). Every event
    handler is proved to take the machine of module Leases one step: if the heap represents a state
    before the event, it represents the next state after it. */
module Broker {
  import opened Types
  import opened Leases
  import opened Invariants
  import opened Resources
  import opened Runtime
  import opened Networks

  /** The used slots of a context are the networks filed under `names`, in order. */
  ghost predicate SlotsMatch(ctx: Context, names: seq<Name>, entries: map<Name, Network>)
    reads ctx, ctx.networks
  {
    && ctx.networks.Length == MAX_PEER_NETWORKS
    && ctx.networkCount == |names| <= MAX_PEER_NETWORKS
    && forall i | 0 <= i < |names| :: names[i] in entries && ctx.networks[i] == entries[names[i]]
  }

  lemma SlotsAre(ctx: Context, names: seq<Name>, entries: map<Name, Network>)
    requires SlotsMatch(ctx, names, entries)
    ensures ctx.networks.Length == MAX_PEER_NETWORKS && ctx.networkCount == |names| <= MAX_PEER_NETWORKS
    ensures forall i | 0 <= i < |names| :: names[i] in entries && ctx.networks[..][i] == entries[names[i]]
  {
  }

  lemma SlotsPushed(ctx: Context, names: seq<Name>, n: Name, entries: map<Name, Network>)
    requires ctx.networks.Length == MAX_PEER_NETWORKS && ctx.networkCount == |names| + 1 <= MAX_PEER_NETWORKS
    requires forall i | 0 <= i < |names| :: names[i] in entries && ctx.networks[..][i] == entries[names[i]]
    requires n in entries && ctx.networks[..][|names|] == entries[n]
    ensures SlotsMatch(ctx, names + [n], entries)
  {
  }

  lemma SlotsPopped(ctx: Context, names: seq<Name>, entries: map<Name, Network>)
    requires ctx.networks.Length == MAX_PEER_NETWORKS && ctx.networkCount == |names| - 1 < MAX_PEER_NETWORKS
    requires forall i | 0 <= i < |names| :: names[i] in entries && ctx.networks[..][i] == entries[names[i]]
    requires names != []
    ensures SlotsMatch(ctx, names[..|names| - 1], entries)
  {
  }

  /** A network filed under `n` is allocated, complete and named so, counts its holders, and has its timer
      armed, on itself, exactly when it has a deadline. */
  ghost predicate NetMatches(net: Network, n: Name, spec: Net, holders: nat, armed: map<Network, nat>)
    reads net
  {
    && !net.freed && net.id == spec.id && net.name == Some(n)
    && net.ref.Some? && net.serialization == Some(net.id)
    && net.peers == holders
    && net.idleTimer == spec.deadline.Some?
    && (net in armed <==> spec.deadline.Some?)
    && (spec.deadline.Some? ==> armed[net] == spec.deadline.value)
  }

  /** The networks on file. */
  ghost function Files(entries: map<Name, Network>): set<Network> {
    set n | n in entries :: entries[n]
  }

  lemma FilesShrink(entries: map<Name, Network>, n: Name)
    requires n in entries
    ensures entries[n] in Files(entries)
    ensures Files(entries) - {entries[n]} <= Files(entries - {n}) <= Files(entries)
    ensures |entries - {n}| < |entries|
  {
    assert (entries - {n}).Keys == entries.Keys - {n};
    forall x | x in Files(entries) && x != entries[n] ensures x in Files(entries - {n}) {
      var m :| m in entries && entries[m] == x;
      assert (entries - {n})[m] == x;
    }
  }

  /** The state after the registry is gone. */
  function Cleared(s: State): State {
    s.(nets := map[], registry := false)
  }

  lemma NoPeers(leases: map<Peer, seq<Name>>)
    ensures |leases| == 0 <==> leases == map[]
  {
  }

  /** A network does not notice that the timer of another one is gone. */
  lemma DisarmApart(other: Network, n: Name, spec: Net, holders: nat, armed: map<Network, nat>, net: Network)
    requires NetMatches(other, n, spec, holders, armed) && other != net
    ensures NetMatches(other, n, spec, holders, armed - {net})
  {
  }

  lemma DisarmSelf(net: Network, n: Name, spec: Net, holders: nat, armed: map<Network, nat>)
    requires !net.freed && net.id == spec.id && net.name == Some(n) && net.ref.Some? && net.serialization == Some(net.id)
    requires !net.idleTimer && spec.deadline.None? && net !in armed && net.peers == holders
    ensures NetMatches(net, n, spec, holders, armed)
  {
  }

  /** Nor that the timer of another one is started. */
  lemma ArmApart(
    other: Network, n: Name, spec: Net, holders: nat, armed: map<Network, nat>, net: Network, deadline: nat)
    requires NetMatches(other, n, spec, holders, armed) && other != net
    ensures NetMatches(other, n, spec, holders, armed[net := deadline])
  {
  }

  lemma ArmSelf(net: Network, n: Name, spec: Net, holders: nat, armed: map<Network, nat>)
    requires !net.freed && net.id == spec.id && net.name == Some(n) && net.ref.Some? && net.serialization == Some(net.id)
    requires net.idleTimer && net.peers == holders && net in armed && spec.deadline == Some(armed[net])
    ensures NetMatches(net, n, spec, holders, armed)
  {
  }

  lemma WithoutAbsent(armed: map<Network, nat>, net: Network)
    ensures net !in armed ==> armed - {net} == armed
  {
  }

  class Broker {
    const sys: System
    const table: seq<NetworkConfig>

    // Statics of broker/network.c and broker/broker.c.
    var registry: Option<map<Name, Network>>
    var connectedPeers: int
    var idleTimer: bool

    // The contexts captured by the event handlers of the open connections; no two share an array.
    var contexts: map<Peer, Context>
    ghost var owner: map<array<Network?>, Peer>

    ghost function Entries(): map<Name, Network>
      reads `registry
    {
      if registry.Some? then registry.value else map[]
    }

    ghost function Nets(): set<Network>
      reads `registry
    {
      Files(Entries())
    }

    ghost function Contexts(): set<Context>
      reads `contexts
    {
      set p | p in contexts :: contexts[p]
    }

    ghost function Arrays(): set<array<Network?>>
      reads `contexts
    {
      set p | p in contexts :: contexts[p].networks
    }

    ghost predicate PeerLinked(entries: map<Name, Network>, leases: map<Peer, seq<Name>>, p: Peer)
      requires p in contexts
      reads `contexts, `owner, contexts[p], contexts[p].networks
    {
      && p in leases && contexts[p].connection == p
      && contexts[p].networks in owner && owner[contexts[p].networks] == p
      && SlotsMatch(contexts[p], leases[p], entries)
    }

    /** The contexts represent the leases. */
    ghost predicate PeersLinked(entries: map<Name, Network>, leases: map<Peer, seq<Name>>)
      reads `contexts, `owner, Contexts(), Arrays()
    {
      && (forall p :: p in contexts <==> p in leases)
      && (forall p | p in contexts :: PeerLinked(entries, leases, p))
    }

    /** The mode a network of this name is made in. */
    function ModeOf(n: Name): Option<Mode> {
      var c := Find(table, n);
      if c.Some? then Some(c.value.mode) else None
    }

    ghost predicate NetLinked(
      entries: map<Name, Network>, leases: map<Peer, seq<Name>>, nets: map<Name, Net>, n: Name)
      requires n in entries
      reads sys`armed, entries[n]
    {
      && n in nets && NetMatches(entries[n], n, nets[n], |Holders(leases, n)|, sys.armed)
      && entries[n].ref == ModeOf(n)
    }

    /** The registry and the removal timers represent the networks, each counting its holders. */
    ghost predicate NetsLinked(
      entries: map<Name, Network>, leases: map<Peer, seq<Name>>, nets: map<Name, Net>)
      reads sys`armed, Files(entries)
    {
      && (forall n :: n in entries <==> n in nets)
      && (forall n | n in entries :: NetLinked(entries, leases, nets, n))
      && sys.armed.Keys <= Files(entries)
    }

    ghost predicate RestLinked(s: State)
      reads `registry, `idleTimer, sys`now, sys`shutdownAt, sys`status
    {
      && s.table == table
      && sys.now == s.now && sys.status == s.status
      && sys.shutdownAt == s.timer && idleTimer == s.timer.Some?
      && registry.Some? == s.registry
    }

    /** The heap represents `s`. */
    ghost predicate Linked(s: State)
      reads `registry, `idleTimer, `contexts, `owner
      reads sys`now, sys`armed, sys`shutdownAt, sys`status, Contexts(), Arrays(), Nets()
    {
      RestLinked(s) && PeersLinked(Entries(), s.leases) && NetsLinked(Entries(), s.leases, s.nets)
    }

    /** Exactly what the state calls for is held, and vmnet numbers networks as the state does. */
    ghost predicate Balanced(s: State)
      reads sys`live, sys`created
    {
      sys.created == s.next && forall x :: Count(sys.live, x) == Due(s, x)
    }

    /** What holds between two events, in state `s`. */
    ghost predicate Represents(s: State)
      reads this, sys, Contexts(), Arrays(), Nets()
    {
      Ok(s) && Linked(s) && Balanced(s) && connectedPeers == |s.leases|
    }

    constructor (sys: System, table: seq<NetworkConfig>)
      requires sys.now == 0 && sys.live == map[] && sys.armed == map[] && sys.shutdownAt == None
      requires sys.status == Running && sys.created == 0
      ensures Represents(Initial(table)) && this.sys == sys && this.table == table
      ensures contexts == map[] && Entries() == map[]
    {
      this.sys, this.table := sys, table;
      registry, connectedPeers, idleTimer := None, 0, false;
      contexts, owner := map[], map[];
    }

    lemma PeerFacts(s: State, ctx: Context)
      requires Linked(s) && ctx.connection in contexts && contexts[ctx.connection] == ctx
      ensures ctx.connection in s.leases && ctx.networks.Length == MAX_PEER_NETWORKS
      ensures ctx.networkCount == |s.leases[ctx.connection]| <= MAX_PEER_NETWORKS
    {
    }

    lemma NetFacts(s: State, n: Name)
      requires Linked(s)
      ensures n in Entries() <==> n in s.nets
      ensures n in Entries() ==> NetMatches(Entries()[n], n, s.nets[n], |Holders(s.leases, n)|, sys.armed)
    {
    }

    // ---- The system's reference counts do not show in the state.

    method Hold(ghost s: State, x: Resource)
      requires Linked(s)
      modifies sys`live
      ensures Linked(s) && forall y :: Count(sys.live, y) == Count(old(sys.live), y) + One(y == x)
    {
      sys.Hold(x);
    }

    method LetGo(ghost s: State, x: Resource)
      requires Linked(s) && Count(sys.live, x) > 0
      modifies sys`live
      ensures Linked(s) && forall y :: Count(sys.live, y) == Count(old(sys.live), y) - One(y == x)
    {
      sys.Drop(x);
    }

    method Wait(ghost s: State, d: nat)
      requires Linked(s)
      modifies sys`now
      ensures Linked(Advance(s, d))
    {
      sys.Tick(d);
    }

    // ---- broker/network.c: registry

    method InitRegistry(ghost s: State)
      requires Linked(s)
      modifies `registry, sys`live
      ensures Linked(Open(s)) && registry.Some? && Entries() == old(Entries())
      ensures forall x :: Count(sys.live, x) == Count(old(sys.live), x) + One(x == RegistryTable && !s.registry)
    {
      if registry.None? {
        sys.Hold(RegistryTable);
        registry := Some(map[]);
      }
      assert forall p | p in contexts :: old(PeerLinked(Entries(), s.leases, p));
      assert forall n | n in Entries() :: old(NetLinked(Entries(), s.leases, s.nets, n));
    }

    /** A name is found exactly when it has a network; what is found is that network, whole, under its own
        name, with its exact count and timer. */
    function RegistryGet(ghost s: State, name: Name): (net: Network?)
      requires Linked(s) && registry.Some?
      reads `registry, `idleTimer, `contexts, `owner
      reads sys`now, sys`armed, sys`shutdownAt, sys`status, Contexts(), Arrays(), Nets()
      ensures net != null <==> name in s.nets
      ensures net != null ==>
                && name in Entries() && Entries()[name] == net
                && NetMatches(net, name, s.nets[name], |Holders(s.leases, name)|, sys.armed)
    {
      NetFacts(s, name);
      if name in registry.value then registry.value[name] else null
    }

    lemma EntryKeepsPeers(s: State, name: Name, net: Network)
      requires Linked(s) && name !in Entries()
      ensures PeersLinked(Entries()[name := net], s.leases)
    {
    }

    lemma EntryKeepsNets(s: State, name: Name, net: Network)
      requires Linked(s) && name !in Entries() && net !in sys.armed
      requires !net.freed && net.id == s.next && net.name == Some(name) && net.peers == 0
      requires net.ref.Some? && net.ref == ModeOf(name) && net.serialization == Some(net.id) && !net.idleTimer
      requires Holders(s.leases, name) == {}
      ensures NetsLinked(Entries()[name := net], s.leases, Create(s, name).nets)
    {
      hide ModeOf;
      var entries := Entries()[name := net];
      assert forall n | n in Entries() :: NetLinked(Entries(), s.leases, s.nets, n);
      forall x | x in sys.armed.Keys ensures x in Files(entries) {
        var n :| n in Entries() && Entries()[n] == x;
        assert entries[n] == x;
      }
    }

    /** File a new network under a name that is not taken. It has no owner yet. */
    method RegistrySet(ghost s: State, name: Name, net: Network)
      requires Linked(s) && registry.Some? && name !in Entries() && net !in sys.armed
      requires !net.freed && net.id == s.next && net.name == Some(name) && net.peers == 0
      requires net.ref.Some? && net.ref == ModeOf(name) && net.serialization == Some(net.id) && !net.idleTimer
      requires Holders(s.leases, name) == {}
      modifies `registry
      ensures Linked(Create(s, name))
      ensures registry == Some(old(Entries())[name := net])
    {
      EntryKeepsPeers(s, name, net);
      EntryKeepsNets(s, name, net);
      registry := Some(registry.value[name := net]);
    }

    // ---- broker/network.c: ownership

    /** A network of the registry is in a used slot of a peer exactly when the peer leases its name. */
    method PeerOwnsNetwork(ghost s: State, ctx: Context, net: Network, ghost n: Name) returns (owns: bool)
      requires Linked(s) && ctx.connection in contexts && contexts[ctx.connection] == ctx
      requires n in Entries() && Entries()[n] == net
      ensures owns <==> n in s.leases[ctx.connection]
    {
      hide ModeOf;
      ghost var names := s.leases[ctx.connection];
      assert PeerLinked(Entries(), s.leases, ctx.connection) && NetLinked(Entries(), s.leases, s.nets, n);
      for i := 0 to ctx.networkCount
        invariant n !in names[..i]
      {
        assert NetLinked(Entries(), s.leases, s.nets, names[i]);
        if ctx.networks[i] == net {
          assert names[i] == n;
          return true;
        }
        assert names[..i + 1] == names[..i] + [names[i]];
      }
      assert names[..ctx.networkCount] == names;
      return false;
    }

    method CanAddNetworkToPeer(ctx: Context, err: int) returns (ok: bool, error: int)
      ensures ok <==> ctx.networkCount < MAX_PEER_NETWORKS
      ensures error == if ok then err else INTERNAL_ERROR
    {
      if ctx.networkCount >= MAX_PEER_NETWORKS {
        return false, INTERNAL_ERROR;
      }
      return true, err;
    }

    /** Fill the next slot of a peer and count it, unless the peer has the network or is full. */
    method UpdatePeerOwnership(ghost s: State, ctx: Context, net: Network, ghost n: Name, err: int)
      returns (ok: bool, error: int)
      requires Linked(s) && ctx.connection in contexts && contexts[ctx.connection] == ctx
      requires n in Entries() && Entries()[n] == net
      modifies ctx`networkCount, ctx.networks, net`peers
      ensures ok <==> n in s.leases[ctx.connection] || |s.leases[ctx.connection]| < MAX_PEER_NETWORKS
      ensures Linked(if ok then AddLease(s, ctx.connection, n) else s)
      ensures error == if ok then err else INTERNAL_ERROR
    {
      hide ModeOf;
      assert PeerLinked(Entries(), s.leases, ctx.connection);
      var owns := PeerOwnsNetwork(s, ctx, net, n);
      if owns {
        assert s == AddLease(s, ctx.connection, n) by {
          assert s.leases[ctx.connection := s.leases[ctx.connection]] == s.leases;
        }
        return true, err;
      }
      ok, error := CanAddNetworkToPeer(ctx, err);
      if !ok {
        return;
      }
      FillSlot(s, ctx, net, n);
    }

    /** The last two statements of the source's function, reached when the peer lacks the network and has
        a free slot. */
    method FillSlot(ghost s: State, ctx: Context, net: Network, ghost n: Name)
      requires Linked(s) && ctx.connection in contexts && contexts[ctx.connection] == ctx
      requires n in Entries() && Entries()[n] == net
      requires n !in s.leases[ctx.connection] && ctx.networkCount < MAX_PEER_NETWORKS
      modifies ctx`networkCount, ctx.networks, net`peers
      ensures Linked(AddLease(s, ctx.connection, n))
    {
      hide Linked, RestLinked, PeersLinked, NetsLinked;
      PeerFacts(s, ctx);
      NetFacts(s, n);
      PushSlot(s, ctx, net, n);
      CountPeer(s, AddLease(s, ctx.connection, n).leases, net, n, 1) by {
        forall m {
          AddCount(s, ctx.connection, n, m);
        }
      }
    }

    /** Take the next slot. The counts still follow the leases of before. */
    method PushSlot(ghost s: State, ctx: Context, net: Network, ghost n: Name)
      requires Linked(s) && ctx.connection in contexts && contexts[ctx.connection] == ctx
      requires n in Entries() && Entries()[n] == net
      requires n !in s.leases[ctx.connection] && ctx.networkCount < MAX_PEER_NETWORKS
      modifies ctx`networkCount, ctx.networks
      ensures RestLinked(s) && NetsLinked(Entries(), s.leases, s.nets)
      ensures PeersLinked(Entries(), AddLease(s, ctx.connection, n).leases)
    {
      hide NetsLinked, RestLinked, SlotsMatch;
      ghost var p, names := ctx.connection, s.leases[ctx.connection];
      ghost var leases := AddLease(s, p, n).leases;
      assert PeerLinked(Entries(), s.leases, p);
      SlotsAre(ctx, names, Entries());
      WriteSlot(s, ctx, net);
      SlotsPushed(ctx, names, n, Entries());
      forall q | q in contexts ensures PeerLinked(Entries(), leases, q) {
        assert old(PeerLinked(Entries(), s.leases, q));
      }
    }

    method WriteSlot(ghost s: State, ctx: Context, net: Network)
      requires RestLinked(s) && NetsLinked(Entries(), s.leases, s.nets)
      requires 0 <= ctx.networkCount < ctx.networks.Length
      modifies ctx`networkCount, ctx.networks
      ensures RestLinked(s) && NetsLinked(Entries(), s.leases, s.nets)
      ensures ctx.networkCount == old(ctx.networkCount) + 1
      ensures ctx.networks[..] == old(ctx.networks[..])[old(ctx.networkCount) := net]
    {
      ctx.networks[ctx.networkCount], ctx.networkCount := net, ctx.networkCount + 1;
    }

    /** Adjust the count of one network to new leases that change its holders by `delta` and no others. */
    method CountPeer(ghost s: State, ghost leases: map<Peer, seq<Name>>, net: Network, ghost n: Name, delta: int)
      requires RestLinked(s) && NetsLinked(Entries(), s.leases, s.nets) && PeersLinked(Entries(), leases)
      requires n in Entries() && Entries()[n] == net
      requires forall m :: |Holders(leases, m)| == |Holders(s.leases, m)| + if m == n then delta else 0
      modifies net`peers
      ensures Linked(s.(leases := leases))
    {
      hide ModeOf, SlotsMatch, PeerLinked;
      assert NetLinked(Entries(), s.leases, s.nets, n);
      net.peers := net.peers + delta;
      forall m | m in Entries() ensures NetLinked(Entries(), leases, s.nets, m) {
        assert old(NetLinked(Entries(), s.leases, s.nets, m));
      }
    }

    // ---- broker/network.c: idle networks

    /** Cancel the removal of a network, if one is scheduled. */
    method CancelRemoveLater(ghost s: State, net: Network, ghost n: Name)
      requires Linked(s) && n in Entries() && Entries()[n] == net
      requires s.nets[n].deadline.Some? ==> Count(sys.live, RemovalTimer(net.id)) > 0
      modifies net`idleTimer, sys`live, sys`armed
      ensures Linked(KeepAlive(s, n))
      ensures forall x :: Count(sys.live, x)
                          == Count(old(sys.live), x) - One(x == RemovalTimer(net.id) && s.nets[n].deadline.Some?)
    {
      hide Linked, Count;
      NetFacts(s, n);
      if net.idleTimer {
        Disarm(s, net, n);
      } else {
        assert s == KeepAlive(s, n) by {
          assert s.nets == s.nets[n := s.nets[n].(deadline := None)];
        }
      }
    }

    /** Cancel a scheduled removal. */
    method Disarm(ghost s: State, net: Network, ghost n: Name)
      requires Linked(s) && n in Entries() && Entries()[n] == net
      requires Count(sys.live, RemovalTimer(net.id)) > 0
      modifies net`idleTimer, sys`live, sys`armed
      ensures Linked(KeepAlive(s, n))
      ensures forall x :: Count(sys.live, x) == Count(old(sys.live), x) - One(x == RemovalTimer(net.id))
    {
      hide PeersLinked, Count, NetMatches, Files;
      ghost var t := KeepAlive(s, n);
      EntriesAreNets(s);
      OneFileEach(s, n);
      Complete(s, n);
      StopTimer(s, net);
      DisarmSelf(net, n, t.nets[n], |Holders(s.leases, n)|, sys.armed);
      forall m | m in Entries() ensures NetLinked(Entries(), t.leases, t.nets, m) {
        assert old(NetLinked(Entries(), s.leases, s.nets, m));
        if m != n {
          DisarmApart(Entries()[m], m, t.nets[m], |Holders(s.leases, m)|, old(sys.armed), net);
        }
      }
    }

    method StopTimer(ghost s: State, net: Network)
      requires RestLinked(s) && PeersLinked(Entries(), s.leases) && Count(sys.live, RemovalTimer(net.id)) > 0
      modifies net`idleTimer, sys`live, sys`armed
      ensures RestLinked(s) && PeersLinked(Entries(), s.leases)
      ensures !net.idleTimer && sys.armed == old(sys.armed) - {net}
      ensures forall x :: Count(sys.live, x) == Count(old(sys.live), x) - One(x == RemovalTimer(net.id))
    {
      sys.CancelRemoval(net);
      net.idleTimer := false;
    }

    /** Schedule the removal of a network nobody owns. No removal may be scheduled already: this is the
        assertion of the source, here a proof obligation of the callers. */
    method RemoveLater(ghost s: State, net: Network, ghost n: Name)
      requires Linked(s) && n in Entries() && Entries()[n] == net
      requires !net.idleTimer
      modifies net`idleTimer, sys`live, sys`armed
      ensures Linked(Expire(s, n))
      ensures forall x :: Count(sys.live, x) == Count(old(sys.live), x) + One(x == RemovalTimer(net.id))
    {
      hide PeersLinked, Count, NetMatches;
      ghost var t := Expire(s, n);
      EntriesAreNets(s);
      OneFileEach(s, n);
      Complete(s, n);
      StartTimer(s, net);
      ArmSelf(net, n, t.nets[n], |Holders(s.leases, n)|, sys.armed);
      forall m | m in Entries() ensures NetLinked(Entries(), t.leases, t.nets, m) {
        assert old(NetLinked(Entries(), s.leases, s.nets, m));
        if m != n {
          ArmApart(Entries()[m], m, t.nets[m], |Holders(s.leases, m)|, old(sys.armed), net, s.now + IDLE_TIMEOUT);
        }
      }
      assert net in Nets();
    }

    method StartTimer(ghost s: State, net: Network)
      requires RestLinked(s) && PeersLinked(Entries(), s.leases)
      modifies net`idleTimer, sys`live, sys`armed
      ensures RestLinked(s) && PeersLinked(Entries(), s.leases)
      ensures net.idleTimer && sys.armed == old(sys.armed)[net := s.now + IDLE_TIMEOUT]
      ensures forall x :: Count(sys.live, x) == Count(old(sys.live), x) + One(x == RemovalTimer(net.id))
    {
      sys.ArmRemoval(net);
      net.idleTimer := true;
    }

    // ---- broker/network.c: acquire

    /** `ConfigureNetwork`, which the state does not notice. */
    method MakeNetwork(ghost s: State, name: Name, f: Faults, err: int) returns (net: Network?, error: int)
      requires Linked(s) && sys.created == s.next
      modifies sys`live, sys`created
      ensures Linked(s)
      ensures net != null <==> Find(table, name).Some? && Creates(Find(table, name).value, f)
      ensures error == if net != null then err
                       else if Find(table, name).None? then NOT_FOUND
                       else CREATE_FAILURE
      ensures net == null ==> sys.created == s.next
      ensures net != null ==>
                && fresh(net) && net !in sys.armed && !net.freed && net.id == s.next && net.name == Some(name)
                && net.peers == 0 && net.ref.Some? && net.ref == ModeOf(name)
                && net.serialization == Some(net.id) && !net.idleTimer
                && sys.created == s.next + 1
      ensures forall x :: Count(sys.live, x) == Count(old(sys.live), x)
                          + if net != null then NetDue(s.next, false, x) else 0
    {
      net, error := ConfigureNetwork(sys, table, name, f, err);
    }

    /** Create a network for a name that has none and register it, without an owner as yet. Nothing is
        registered for a peer that could not take it. */
    method RegisterNew(ghost s: State, ctx: Context, name: Name, f: Faults, err: int)
      returns (net: Network?, error: int)
      requires Linked(s) && registry.Some? && name !in Entries() && Holders(s.leases, name) == {}
      requires ctx.connection in contexts && contexts[ctx.connection] == ctx && sys.created == s.next
      modifies `registry, sys`live, sys`created
      ensures net != null <==> Decide(s, ctx.connection, name, f).Granted?
      ensures net == null ==> Linked(s) && sys.created == s.next && Entries() == old(Entries())
                              && error == Decide(s, ctx.connection, name, f).code
      ensures net != null ==> Linked(Create(s, name)) && sys.created == s.next + 1
                              && Entries() == old(Entries())[name := net]
                              && fresh(net) && error == err
      ensures forall x :: Count(sys.live, x) == Count(old(sys.live), x)
                          + if net != null then NetDue(s.next, false, x) else 0
    {
      assert PeerLinked(Entries(), s.leases, ctx.connection);
      var ok;
      ok, error := CanAddNetworkToPeer(ctx, err);
      if !ok {
        return null, error;
      }
      net, error := MakeNetwork(s, name, f, error);
      if net != null {
        RegistrySet(s, name, net);
      }
    }

    /** The first half of an acquire: the network of the name, registering a new one if need be. */
    method FindOrRegister(ghost s: State, ctx: Context, name: Name, f: Faults, err: int)
      returns (net: Network?, error: int)
      requires Linked(s) && sys.created == s.next
      requires ctx.connection in contexts && contexts[ctx.connection] == ctx
      requires name !in s.nets ==> Holders(s.leases, name) == {}
      modifies `registry, sys`live, sys`created
      ensures net == null <==> name !in s.nets && Decide(s, ctx.connection, name, f).Denied?
      ensures net == null ==> Linked(Open(s)) && sys.created == s.next && Entries() == old(Entries())
                              && error == Decide(s, ctx.connection, name, f).code
      ensures net != null ==> Linked(Found(s, name)) && sys.created == Found(s, name).next && error == err
                              && name in Entries() && Entries()[name] == net
                              && net.id == Found(s, name).nets[name].id
                              && Entries() == old(Entries())[name := net]
                              && (if name in old(Entries()) then net == old(Entries())[name] else fresh(net))
      ensures forall x :: Count(sys.live, x) == Count(old(sys.live), x) + FindDelta(s, name, net != null, x)
    {
      hide Linked, Count, Decide;
      PeerFacts(s, ctx);
      NetFacts(s, name);
      InitRegistry(s);
      DecideOpen(s, ctx.connection, name, f);
      net := RegistryGet(Open(s), name);
      error := err;
      if net == null {
        net, error := RegisterNew(Open(s), ctx, name, f, error);
        if net != null {
          NetFacts(Found(s, name), name);
        }
      } else {
        NetFacts(Found(s, name), name);
      }
    }

    /** The second half: the network is registered, the peer may still be full. */
    method TakeNetwork(ghost s: State, ctx: Context, net: Network, ghost n: Name, err: int)
      returns (serialization: Option<nat>, error: int)
      requires Linked(s) && ctx.connection in contexts && contexts[ctx.connection] == ctx
      requires n in Entries() && Entries()[n] == net
      requires s.nets[n].deadline.Some? ==> Count(sys.live, RemovalTimer(net.id)) > 0
      modifies sys`live, sys`armed, ctx`networkCount, ctx.networks, net`peers, net`idleTimer
      ensures serialization.Some? <==> n in s.leases[ctx.connection]
                                       || |s.leases[ctx.connection]| < MAX_PEER_NETWORKS
      ensures serialization.Some? ==> serialization == Some(s.nets[n].id)
      ensures error == if serialization.Some? then err else INTERNAL_ERROR
      ensures Linked(if serialization.Some? then KeepAlive(AddLease(s, ctx.connection, n), n) else s)
      ensures forall x :: Count(sys.live, x)
                          == Count(old(sys.live), x) + TakeDelta(s.nets[n], serialization.Some?, x)
    {
      hide Linked, Count, KeepAlive;
      PeerFacts(s, ctx);
      NetFacts(s, n);
      var owned;
      owned, error := UpdatePeerOwnership(s, ctx, net, n, err);
      if !owned {
        return None, error;
      }
      ghost var t := AddLease(s, ctx.connection, n);
      CancelRemoveLater(t, net, n);
      Hold(KeepAlive(t, n), SerialRef(net.serialization.value));
      return net.serialization, error;
    }

    /** Hand a network to a peer, creating it if there is none. On success the caller owns one more retain
        of its serialization. */
    method AcquireNetwork(ghost s: State, ctx: Context, name: Name, f: Faults, err: int)
      returns (serialization: Option<nat>, error: int)
      requires Linked(s) && sys.created == s.next
      requires ctx.connection in contexts && contexts[ctx.connection] == ctx
      requires name !in s.nets ==> Holders(s.leases, name) == {}
      requires name in s.nets && s.nets[name].deadline.Some? ==>
                 Count(sys.live, RemovalTimer(s.nets[name].id)) > 0
      modifies `registry, sys`live, sys`armed, sys`created, ctx`networkCount, ctx.networks
      modifies Nets()`peers, Nets()`idleTimer
      ensures Linked(Acquire(s, ctx.connection, name, f))
      ensures sys.created == Acquire(s, ctx.connection, name, f).next
      ensures match Decide(s, ctx.connection, name, f)
              case Granted(id) => serialization == Some(id) && error == err
              case Denied(code) => serialization == None && error == code
      ensures forall x :: Count(sys.live, x)
                          == Count(old(sys.live), x) + AcquireDelta(s, name, serialization.Some?, x)
      ensures fresh(Nets() - old(Nets()))
    {
      hide Linked, Acquire, Decide, Found, KeepAlive, AddLease, FindDelta, TakeDelta, Count;
      PeerFacts(s, ctx);
      var net;
      net, error := FindOrRegister(s, ctx, name, f, err);
      if net == null {
        DeniedSteps(s, ctx.connection, name, f);
        return None, error;
      }
      AcquireSteps(s, ctx.connection, name, f);
      serialization, error := TakeNetwork(Found(s, name), ctx, net, name, error);
    }

    // ---- broker/network.c: release

    /** Take the last used slot of a peer out of use and count the peer out: the loop body of the source up
        to its test. */
    method PopSlot(ghost s: State, ctx: Context, net: Network, ghost n: Name)
      requires Linked(s) && ctx.connection in contexts && contexts[ctx.connection] == ctx
      requires ctx.networkCount > 0 && Distinct(s.leases[ctx.connection])
      requires n == s.leases[ctx.connection][|s.leases[ctx.connection]| - 1]
      requires n in Entries() && Entries()[n] == net
      modifies ctx`networkCount, net`peers
      ensures Linked(Unlease(s, ctx.connection, |s.leases[ctx.connection]| - 1, 0))
    {
      hide Linked, RestLinked, PeersLinked, NetsLinked;
      PeerFacts(s, ctx);
      NetFacts(s, n);
      ghost var p := ctx.connection;
      ghost var i := |s.leases[p]| - 1;
      FreeSlot(s, ctx);
      CountPeer(s, Unlease(s, p, i, 0).leases, net, n, -1) by {
        forall m {
          DropCount(s, p, i, 0, m);
        }
      }
    }

    /** Give up the last used slot. The counts still follow the leases of before. */
    method FreeSlot(ghost s: State, ctx: Context)
      requires Linked(s) && ctx.connection in contexts && contexts[ctx.connection] == ctx
      requires ctx.networkCount > 0
      modifies ctx`networkCount
      ensures RestLinked(s) && NetsLinked(Entries(), s.leases, s.nets)
      ensures ctx.connection in s.leases && s.leases[ctx.connection] != []
      ensures PeersLinked(Entries(), Unlease(s, ctx.connection, |s.leases[ctx.connection]| - 1, 0).leases)
    {
      hide NetsLinked, RestLinked, SlotsMatch;
      ghost var p := ctx.connection;
      assert PeerLinked(Entries(), s.leases, p);
      SlotsAre(ctx, s.leases[p], Entries());
      ghost var i := |s.leases[p]| - 1;
      ghost var leases := Unlease(s, p, i, 0).leases;
      ShortenSlots(s, ctx);
      assert leases[p] == s.leases[p][..i];
      SlotsPopped(ctx, s.leases[p], Entries());
      forall q | q in contexts ensures PeerLinked(Entries(), leases, q) {
        assert old(PeerLinked(Entries(), s.leases, q));
      }
    }

    method ShortenSlots(ghost s: State, ctx: Context)
      requires RestLinked(s) && NetsLinked(Entries(), s.leases, s.nets)
      modifies ctx`networkCount
      ensures RestLinked(s) && NetsLinked(Entries(), s.leases, s.nets)
      ensures ctx.networkCount == old(ctx.networkCount) - 1
    {
      ctx.networkCount := ctx.networkCount - 1;
    }

    lemma SlotFacts(s: State, ctx: Context, i: nat)
      requires Linked(s) && ctx.connection in contexts && contexts[ctx.connection] == ctx
      requires ctx.connection in s.leases && i < |s.leases[ctx.connection]|
      ensures var n := s.leases[ctx.connection][i];
              i < ctx.networks.Length && n in Entries() && ctx.networks[i] == Entries()[n] && Entries()[n] in Nets()
    {
    }

    /** The network in the last used slot of a peer. */
    lemma LastSlot(s: State, ctx: Context)
      requires Ok(s) && Linked(s) && ctx.connection in contexts && contexts[ctx.connection] == ctx
      requires s.leases[ctx.connection] != []
      ensures 0 < ctx.networkCount <= ctx.networks.Length
      ensures var names := s.leases[ctx.connection];
              var n, net := names[|names| - 1], ctx.networks[ctx.networkCount - 1];
              && net != null && net in Nets() && n in Entries() && Entries()[n] == net
              && n in s.nets && net.id == s.nets[n].id
              && !net.idleTimer && s.nets[n].deadline.None?
    {
      hide Linked, Ok, Nets;
      PeerFacts(s, ctx);
      var names := s.leases[ctx.connection];
      SlotFacts(s, ctx, |names| - 1);
      NetFacts(s, names[|names| - 1]);
      LeasedStays(s, ctx.connection, names[|names| - 1]);
    }

    /** The loop body of the source: drop one lease, and schedule the removal of a network that nobody
        owns any more. */
    method ReleaseLast(ghost s: State, ctx: Context, net: Network, ghost n: Name, d: nat)
      requires Linked(s) && ctx.connection in contexts && contexts[ctx.connection] == ctx
      requires ctx.networkCount > 0 && Distinct(s.leases[ctx.connection])
      requires n == s.leases[ctx.connection][|s.leases[ctx.connection]| - 1]
      requires n in Entries() && Entries()[n] == net && n in s.nets && !net.idleTimer
      modifies sys`now, sys`live, sys`armed, ctx`networkCount, net`peers, net`idleTimer
      ensures var i := |s.leases[ctx.connection]| - 1;
              && Linked(Drop(s, ctx.connection, i, d))
              && forall x :: Count(sys.live, x)
                             == Count(old(sys.live), x) + DropDelta(s, ctx.connection, i, d, net.id, x)
    {
      hide Linked, Count;
      ghost var p := ctx.connection;
      PeerFacts(s, ctx);
      ghost var i := |s.leases[p]| - 1;
      Wait(s, d);
      PopSlot(Advance(s, d), ctx, net, n);
      ghost var t := Unlease(s, p, i, d);
      assert t == Unlease(Advance(s, d), p, i, 0);
      NetFacts(t, n);
      if net.peers == 0 {
        RemoveLater(t, net, n);
      }
    }

    method ReleasePeerNetworks(ghost s: State, ctx: Context, ticks: seq<nat>)
      requires Ok(s) && Linked(s) && Balanced(s)
      requires ctx.connection in contexts && contexts[ctx.connection] == ctx
      modifies sys`now, sys`live, sys`armed, ctx`networkCount, Nets()`peers, Nets()`idleTimer
      ensures ctx.connection in s.leases
      ensures Linked(Release(s, ctx.connection, ticks)) && Balanced(Release(s, ctx.connection, ticks))
    {
      hide Linked, Count, Nets, Drop, Due;
      ghost var p := ctx.connection;
      PeerFacts(s, ctx);
      ghost var t := s;
      var rest := ticks;
      while ctx.networkCount != 0
        invariant p in t.leases && ctx.networkCount == |t.leases[p]|
        invariant Ok(t) && Linked(t) && Balanced(t)
        invariant Release(t, p, rest) == Release(s, p, ticks)
        decreases ctx.networkCount
      {
        LastSlot(t, ctx);
        ghost var i := |t.leases[p]| - 1;
        ghost var n := t.leases[p][i];
        DropDue(t, p, i, First(rest));
        DropKeepsOk(t, p, i, First(rest));
        DropLength(t, p, i, First(rest));
        ReleaseLast(t, ctx, ctx.networks[ctx.networkCount - 1], n, First(rest));
        t := Drop(t, p, i, First(rest));
        rest := Rest(rest);
        PeerFacts(t, ctx);
      }
    }

    // ---- broker/network.c: removal

    /** Remove a network from the registry, which frees it. Nobody may own it. */
    method RegistryRemove(ghost s: State, name: Name)
      requires Linked(s) && registry.Some? && name in Entries() && name in s.nets
      requires Holders(s.leases, name) == {}
      requires forall x :: NetDue(s.nets[name].id, s.nets[name].deadline.Some?, x) <= Count(sys.live, x)
      modifies `registry, sys`live, sys`armed, Entries()[name]
      ensures Linked(Remove(s, name)) && registry == Some(old(Entries()) - {name})
      ensures old(Entries())[name].freed
      ensures forall x :: Count(old(sys.live), x)
                          == Count(sys.live, x) + NetDue(s.nets[name].id, s.nets[name].deadline.Some?, x)
    {
      hide PeersLinked, NetsLinked, NetDue, Count;
      SlotsKeep(s, name);
      FreeFiled(s, name, registry.value[name]);
      DropEntry(s, name);
    }

    /** Take an entry out of the dictionary, of which the rest already represents the other networks. */
    method DropEntry(ghost s: State, name: Name)
      requires registry.Some? && RestLinked(s)
      requires PeersLinked(Entries() - {name}, s.leases)
      requires NetsLinked(Entries() - {name}, s.leases, s.nets - {name})
      modifies `registry
      ensures Linked(Remove(s, name)) && registry == Some(old(Entries()) - {name})
    {
      hide ModeOf, NetMatches;
      registry := Some(registry.value - {name});
    }

    /** Contexts do not point to a network nobody holds. */
    lemma SlotsKeep(s: State, name: Name)
      requires Linked(s) && Holders(s.leases, name) == {}
      ensures PeersLinked(Entries() - {name}, s.leases)
    {
      forall q | q in contexts ensures PeerLinked(Entries() - {name}, s.leases, q) {
        assert PeerLinked(Entries(), s.leases, q);
        assert q !in Holders(s.leases, name) && name !in s.leases[q];
      }
    }

    /** The release callback of the registry. What is left of the registry still represents the other
        networks. */
    method FreeFiled(ghost s: State, ghost name: Name, net: Network)
      requires RestLinked(s) && NetsLinked(Entries(), s.leases, s.nets)
      requires name in Entries() && Entries()[name] == net && name in s.nets
      requires forall x :: NetDue(s.nets[name].id, s.nets[name].deadline.Some?, x) <= Count(sys.live, x)
      requires PeersLinked(Entries() - {name}, s.leases)
      modifies sys`live, sys`armed, net
      ensures RestLinked(s) && PeersLinked(Entries() - {name}, s.leases)
      ensures NetsLinked(Entries() - {name}, s.leases, s.nets - {name})
      ensures net.freed
      ensures forall x :: Count(old(sys.live), x)
                          == Count(sys.live, x) + NetDue(s.nets[name].id, s.nets[name].deadline.Some?, x)
    {
      hide PeersLinked, RestLinked, NetDue, Count, NetMatches, Files, Holders, ModeOf;
      ghost var rest, nets := Entries() - {name}, s.nets - {name};
      Complete(s, name);
      HoldsIsDue(net);
      FilesShrink(Entries(), name);
      OneFileEach(s, name);
      FreeApart(s, rest, net);
      forall m | m in rest ensures NetLinked(rest, s.leases, nets, m) {
        assert old(NetLinked(Entries(), s.leases, s.nets, m));
        DisarmApart(rest[m], m, nets[m], |Holders(s.leases, m)|, old(sys.armed), net);
      }
    }

    /** `FreeNetwork`, which contexts that do not point to the network do not notice. */
    method FreeApart(ghost s: State, ghost rest: map<Name, Network>, net: Network)
      requires RestLinked(s) && PeersLinked(rest, s.leases)
      requires !net.freed && forall x :: net.Holds(x) <= Count(sys.live, x)
      requires net.idleTimer <==> net in sys.armed
      modifies sys`live, sys`armed, net
      ensures RestLinked(s) && PeersLinked(rest, s.leases)
      ensures net.freed
      ensures forall x :: Count(old(sys.live), x) == Count(sys.live, x) + old(net.Holds(x))
      ensures sys.armed == old(sys.armed) - {net}
    {
      WithoutAbsent(sys.armed, net);
      FreeNetwork(sys, net);
    }

    lemma Complete(s: State, n: Name)
      requires NetsLinked(Entries(), s.leases, s.nets) && n in Entries() && n in s.nets
      ensures NetMatches(Entries()[n], n, s.nets[n], |Holders(s.leases, n)|, sys.armed)
      ensures var net := Entries()[n];
              && !net.freed && net.id == s.nets[n].id && net.name == Some(n) && net.ref.Some?
              && net.serialization == Some(net.id) && net.peers == |Holders(s.leases, n)|
              && net.idleTimer == s.nets[n].deadline.Some? && (net.idleTimer <==> net in sys.armed)
    {
    }

    lemma OneFileEach(s: State, name: Name)
      requires NetsLinked(Entries(), s.leases, s.nets) && name in Entries()
      ensures forall m | m in Entries() && m != name :: Entries()[m] != Entries()[name]
    {
    }

    /** A complete network holds what it is accounted for. */
    lemma HoldsIsDue(net: Network)
      requires net.name.Some? && net.ref.Some? && net.serialization.Some?
      ensures forall x :: net.Holds(x) == NetDue(net.id, net.idleTimer, x)
    {
    }

    lemma EntriesAreNets(s: State)
      requires Linked(s)
      ensures registry.Some? == s.registry && Entries().Keys == s.nets.Keys
    {
    }

    /** Release the registry: every network in it is freed, in no particular order. */
    method ReleaseRegistry(ghost s: State)
      requires Ok(s) && Linked(s) && Balanced(s) && s.leases == map[]
      modifies `registry, sys`live, sys`armed, Nets()
      ensures Linked(Cleared(s)) && Balanced(Cleared(s)) && registry.None?
      ensures forall net | net in old(Nets()) :: net.freed
    {
      EntriesAreNets(s);
      if registry.Some? {
        ghost var all := Nets();
        ghost var t := ReleaseAll(s, all);
        NoNetsLeft(all);
        ClearDue(t);
        EntriesAreNets(t);
        CloseRegistry(t);
      }
    }

    /** Only freed networks have left the registry. */
    ghost predicate FreedOutside(all: set<Network>)
      reads `registry, all
    {
      Nets() <= all && forall net | net in all && net !in Nets() :: net.freed
    }

    lemma NoNetsLeft(all: set<Network>)
      requires FreedOutside(all) && Entries() == map[]
      ensures forall net | net in all :: net.freed
    {
    }

    /** The release callback of the registry, applied to every network in it. */
    method ReleaseAll(ghost s: State, ghost all: set<Network>) returns (ghost t: State)
      requires Ok(s) && Linked(s) && Balanced(s) && s.leases == map[] && registry.Some? && FreedOutside(all)
      modifies `registry, sys`live, sys`armed, all
      ensures Linked(t) && Balanced(t) && t == s.(nets := map[]) && registry == Some(map[])
      ensures FreedOutside(all)
    {
      hide Linked, Ok, Balanced, FreedOutside;
      t := s;
      EntriesAreNets(t);
      while registry.value != map[]
        invariant registry.Some? && Ok(t) && Linked(t) && Balanced(t) && FreedOutside(all)
        invariant t == s.(nets := t.nets) && registry.value.Keys == t.nets.Keys
        decreases |registry.value|
      {
        var name :| name in registry.value;
        t := ReleaseOne(t, name, all);
      }
    }

    method ReleaseOne(ghost s: State, name: Name, ghost all: set<Network>) returns (ghost t: State)
      requires registry.Some? && Ok(s) && Linked(s) && Balanced(s) && s.leases == map[]
      requires name in registry.value && name in s.nets && FreedOutside(all)
      modifies `registry, sys`live, sys`armed, all
      ensures registry.Some? && Ok(t) && Linked(t) && Balanced(t) && FreedOutside(all)
      ensures t == s.(nets := s.nets - {name}) && registry.value.Keys == t.nets.Keys
      ensures registry.value == old(registry.value) - {name} && |registry.value| < |old(registry.value)|
    {
      hide Linked, Ok, Balanced;
      FilesShrink(registry.value, name);
      UnheldFacts(s, name);
      ReleaseNamed(s, name);
      t := Remove(s, name);
      EntriesAreNets(t);
    }

    method ReleaseNamed(ghost s: State, name: Name)
      requires registry.Some? && Ok(s) && Linked(s) && Balanced(s) && s.leases == map[]
      requires name in registry.value && name in s.nets
      modifies `registry, sys`live, sys`armed, registry.value[name]
      ensures Linked(Remove(s, name)) && Balanced(Remove(s, name))
      ensures registry == Some(old(registry.value) - {name}) && old(registry.value[name]).freed
    {
      hide Linked, Count, NetDue, Due;
      UnheldFacts(s, name);
      RegistryRemove(s, name);
    }

    method CloseRegistry(ghost s: State)
      requires Linked(s) && registry == Some(map[]) && Count(sys.live, RegistryTable) > 0
      modifies `registry, sys`live
      ensures Linked(Cleared(s)) && registry.None?
      ensures forall x :: Count(sys.live, x) == Count(old(sys.live), x) - One(x == RegistryTable)
    {
      sys.Drop(RegistryTable);
      registry := None;
      forall q | q in contexts ensures PeerLinked(Entries(), s.leases, q) {
        assert old(PeerLinked(Entries(), s.leases, q));
      }
    }

    method ShutdownNetworks(ghost s: State)
      requires Ok(s) && Linked(s) && Balanced(s) && s.leases == map[]
      modifies `registry, sys`live, sys`armed, Nets()
      ensures Linked(Cleared(s)) && Balanced(Cleared(s)) && registry.None?
      ensures forall net | net in old(Nets()) :: net.freed
    {
      ReleaseRegistry(s);
    }

    // ---- broker/broker.c

    /** The handler of the timer source that `net` was captured by. Whatever source fires, its network is
        allocated, registered under its own name and idle; it alone is removed and freed. */
    method OnNetworkTimer(ghost s: State, net: Network) returns (ghost n: Name)
      requires Represents(s) && s.status == Running
      requires net in sys.armed && sys.armed[net] <= sys.now
      modifies `registry, sys`live, sys`armed, Nets()
      ensures registry == Some(old(Entries()) - {n})
      ensures n in old(Entries()) && old(Entries())[n] == net && old(net.name) == Some(n) && net.freed
      ensures Enabled(s, NetworkTimer(n)) && Represents(Step(s, NetworkTimer(n)))
    {
      hide Linked, Ok, Count, NetDue, Due;
      n := ArmedFacts(s, net);
      assert !net.freed;
      RemoveFacts(s, n);
      FilesShrink(Entries(), n);
      CountsSuffice(s, n);
      RegistryRemove(s, net.name.value);
    }

    /** An armed timer captures a network that is registered under its own name, idle and not freed. */
    lemma ArmedFacts(s: State, net: Network) returns (n: Name)
      requires Ok(s) && Linked(s) && net in sys.armed
      ensures n in Entries() && Entries()[n] == net && net.name == Some(n) && !net.freed && net.peers == 0
      ensures n in s.nets && s.nets[n].deadline == Some(sys.armed[net]) && registry.Some?
      ensures sys.now == s.now
    {
      n :| n in Entries() && Entries()[n] == net;
      assert NetLinked(Entries(), s.leases, s.nets, n) && NetOk(s, n);
    }

    lemma CountsSuffice(s: State, n: Name)
      requires Ok(s) && Balanced(s) && n in s.nets
      ensures forall x :: NetDue(s.nets[n].id, s.nets[n].deadline.Some?, x) <= Count(sys.live, x)
    {
    }

    /** Ask for the idle shutdown of the broker. It must not be scheduled already: the assertion of the
        source. */
    method ShutdownLater(ghost s: State, d: nat)
      requires Linked(s) && !idleTimer
      modifies `idleTimer, sys`now, sys`live, sys`shutdownAt
      ensures Linked(Advance(s, d).(timer := Some(s.now + d + IDLE_TIMEOUT)))
      ensures forall x :: Count(sys.live, x) == Count(old(sys.live), x) + One(x == ShutdownTimer)
    {
      hide ModeOf, NetMatches, SlotsMatch;
      Wait(s, d);
      sys.ArmShutdown();
      idleTimer := true;
    }

    /** Cancel the idle shutdown of the broker. */
    method CancelShutdown(ghost s: State)
      requires Linked(s) && idleTimer && Count(sys.live, ShutdownTimer) > 0
      modifies `idleTimer, sys`live, sys`shutdownAt
      ensures Linked(s.(timer := None))
      ensures forall x :: Count(sys.live, x) == Count(old(sys.live), x) - One(x == ShutdownTimer)
    {
      sys.CancelShutdown();
      idleTimer := false;
    }

    method Exit(ghost s: State, code: nat)
      requires Linked(s)
      modifies sys`status
      ensures Linked(s.(status := Exited(code)))
    {
      sys.Exit(code);
    }

    /** The idle timer of the broker: shut down all networks and exit. */
    method OnIdleTimeout(ghost s: State)
      requires Represents(s) && Enabled(s, BrokerTimer)
      modifies `registry, sys`live, sys`armed, sys`status, Nets()
      ensures Represents(Step(s, BrokerTimer)) && sys.status == Exited(EXIT_SUCCESS) && registry.None?
      ensures forall net | net in old(Nets()) :: net.freed
    {
      StepKeepsOk(s, BrokerTimer);
      hide Linked, Balanced;
      ShutdownNetworks(s);
      Exit(Cleared(s), EXIT_SUCCESS);
      ExitBalance(s);
    }

    /** A termination signal: ignored while peers are connected. */
    method OnSignal(ghost s: State)
      requires Represents(s) && s.status == Running
      modifies `registry, sys`live, sys`armed, sys`status, Nets()
      ensures Represents(Step(s, Signal))
      ensures sys.status == (if connectedPeers > 0 then Running else Exited(EXIT_SUCCESS))
      ensures connectedPeers == 0 ==> registry.None? && forall net | net in old(Nets()) :: net.freed
      ensures connectedPeers > 0 ==> registry == old(registry)
    {
      NoPeers(s.leases);
      if connectedPeers > 0 {
        return;
      }
      StepKeepsOk(s, Signal);
      hide Linked, Balanced;
      ShutdownNetworks(s);
      Exit(Cleared(s), EXIT_SUCCESS);
      ExitBalance(s);
    }

    lemma ExitBalance(s: State)
      requires Balanced(Cleared(s))
      ensures Balanced(Shutdown(s))
    {
    }

    // ---- broker/xpc.c and broker/broker.c: peers

    /** The first peer begins the transaction and cancels the idle shutdown. */
    method OnPeerConnect(ghost s: State)
      requires Linked(s) && 0 <= connectedPeers
      requires s.timer.Some? ==> connectedPeers == 0 && Count(sys.live, ShutdownTimer) > 0
      modifies `connectedPeers, `idleTimer, sys`live, sys`shutdownAt
      ensures connectedPeers == old(connectedPeers) + 1
      ensures Linked(s.(timer := None))
      ensures forall x :: Count(sys.live, x) == Count(old(sys.live), x)
                          + One(x == Transaction && connectedPeers == 1)
                          - One(x == ShutdownTimer && s.timer.Some?)
    {
      hide Linked, Count;
      TimerFacts(s);
      IncrementPeers(s);
      if connectedPeers == 1 {
        Hold(s, Transaction);
        if idleTimer {
          CancelShutdown(s);
        }
      }
    }

    method IncrementPeers(ghost s: State)
      requires Linked(s)
      modifies `connectedPeers
      ensures Linked(s) && connectedPeers == old(connectedPeers) + 1
    {
      connectedPeers := connectedPeers + 1;
    }

    method DecrementPeers(ghost s: State)
      requires Linked(s)
      modifies `connectedPeers
      ensures Linked(s) && connectedPeers == old(connectedPeers) - 1
    {
      connectedPeers := connectedPeers - 1;
    }

    lemma TimerFacts(s: State)
      requires Linked(s)
      ensures idleTimer == s.timer.Some? && (s.timer.None? ==> s == s.(timer := None))
    {
    }

    /** A new connection: a fresh context, then the broker is told. */
    method HandleConnection(ghost s: State, p: Peer) returns (ctx: Context)
      requires Represents(s) && Enabled(s, Connect(p))
      modifies `contexts, `owner, `connectedPeers, `idleTimer, sys`live, sys`shutdownAt
      ensures Represents(Step(s, Connect(p)))
      ensures fresh(ctx) && fresh(ctx.networks) && contexts == old(contexts)[p := ctx]
    {
      hide Linked, Count, Due, Ok;
      StepKeepsOk(s, Connect(p));
      ConnectDue(s, p);
      ctx := MakeContext(s, p);
      OnPeerConnect(s.(leases := s.leases[p := []], started := true));
    }

    lemma NewPeerKeepsNets(s: State, p: Peer)
      requires NetsLinked(Entries(), s.leases, s.nets) && p !in s.leases
      ensures NetsLinked(Entries(), s.leases[p := []], s.nets)
    {
      forall m | m in Entries() ensures NetLinked(Entries(), s.leases[p := []], s.nets, m) {
        assert NetLinked(Entries(), s.leases, s.nets, m);
        assert Holders(s.leases[p := []], m) == Holders(s.leases, m);
      }
    }

    /** `init_context`; XPC delivers the events of the connection with this context from now on. */
    method MakeContext(ghost s: State, p: Peer) returns (ctx: Context)
      requires Linked(s) && p !in s.leases
      modifies `contexts, `owner
      ensures Linked(s.(leases := s.leases[p := []], started := true))
      ensures fresh(ctx) && fresh(ctx.networks) && contexts == old(contexts)[p := ctx]
    {
      NewPeerKeepsNets(s, p);
      ctx := new Context(p);
      AddContext(s, p, ctx);
    }

    method AddContext(ghost s: State, p: Peer, ctx: Context)
      requires RestLinked(s) && PeersLinked(Entries(), s.leases) && NetsLinked(Entries(), s.leases[p := []], s.nets)
      requires p !in s.leases && ctx.connection == p && ctx.networkCount == 0
      requires ctx.networks.Length == MAX_PEER_NETWORKS && ctx.networks !in owner
      modifies `contexts, `owner
      ensures Linked(s.(leases := s.leases[p := []], started := true))
      ensures contexts == old(contexts)[p := ctx]
    {
      hide ModeOf, NetMatches;
      contexts := contexts[p := ctx];
      owner := owner[ctx.networks := p];
      forall q | q in contexts ensures PeerLinked(Entries(), s.leases[p := []], q) {
        assert q != p ==> old(PeerLinked(Entries(), s.leases, q));
      }
    }

    /** The connection is gone: XPC delivers no more events for its context. */
    method ForgetContext(ghost s: State, p: Peer)
      requires Linked(s) && p in s.leases && s.leases[p] == []
      modifies `contexts
      ensures Linked(s.(leases := s.leases - {p}))
      ensures contexts == old(contexts) - {p}
    {
      hide ModeOf, NetMatches;
      contexts := contexts - {p};
      ghost var leases := s.leases - {p};
      forall q | q in contexts ensures PeerLinked(Entries(), leases, q) {
        assert old(PeerLinked(Entries(), s.leases, q));
      }
      LeaveHolders(s, p);
      forall m | m in Entries() ensures NetLinked(Entries(), leases, s.nets, m) {
        assert old(NetLinked(Entries(), s.leases, s.nets, m));
      }
    }

    /** Release what a peer holds; the last peer to go also ends the session. */
    method OnPeerDisconnect(ghost s: State, ctx: Context, ticks: seq<nat>, last: nat)
      requires Represents(s) && s.status == Running
      requires ctx.connection in contexts && contexts[ctx.connection] == ctx
      modifies `contexts, `connectedPeers, `idleTimer, sys`now, sys`live, sys`armed, sys`shutdownAt
      modifies ctx`networkCount, Nets()`peers, Nets()`idleTimer
      ensures ctx.connection in s.leases
      ensures Represents(Step(s, Disconnect(ctx.connection, ticks, last)))
      ensures contexts == old(contexts) - {ctx.connection}
    {
      hide Linked, Balanced, Ok, Release, Leave, Nets;
      var p := ctx.connection;
      PeerFacts(s, ctx);
      StepKeepsOk(s, Disconnect(p, ticks, last));
      LeaveFacts(s, p, ticks, last);
      LeaveDue(Release(s, p, ticks), p, last);
      DecrementPeers(s);
      ReleasePeerNetworks(s, ctx, ticks);
      Depart(Release(s, p, ticks), p, last);
    }

    /** Forget a peer that holds nothing any more, and end the session if it was the last one. */
    method Depart(ghost s: State, p: Peer, last: nat)
      requires Linked(s) && Balanced(s)
      requires p in s.leases && s.leases[p] == [] && s.timer.None? && connectedPeers == |s.leases| - 1
      modifies `contexts, `idleTimer, sys`now, sys`live, sys`shutdownAt
      ensures Linked(Leave(s, p, last)) && Balanced(Leave(s, p, last))
      ensures contexts == old(contexts) - {p}
    {
      hide Linked, Count, Due;
      LeaveDue(s, p, last);
      NoPeers(Left(s, p).leases);
      ForgetContext(s, p);
      TimerFacts(Left(s, p));
      EndSession(Left(s, p), last);
    }

    /** What is left to do when a peer has gone: if it was the last one, end the transaction and schedule
        the idle shutdown. */
    method EndSession(ghost s: State, last: nat)
      requires Linked(s)
      requires connectedPeers == 0 ==> !idleTimer && Count(sys.live, Transaction) > 0
      modifies `idleTimer, sys`now, sys`live, sys`shutdownAt
      ensures Linked(if connectedPeers == 0
                     then Advance(s, last).(timer := Some(s.now + last + IDLE_TIMEOUT)) else s)
      ensures forall x :: Count(sys.live, x) == Count(old(sys.live), x)
                          + One(x == ShutdownTimer && connectedPeers == 0)
                          - One(x == Transaction && connectedPeers == 0)
    {
      hide Linked, Count;
      if connectedPeers == 0 {
        LetGo(s, Transaction);
        ShutdownLater(s, last);
      }
    }

    // ---- broker/xpc.c: replies

    /** The reply dictionary, if the request has a return address. */
    method CreateReply(ghost s: State, m: Message) returns (ok: bool)
      requires Linked(s)
      modifies sys`live
      ensures Linked(s) && ok == m.replyTo
      ensures forall x :: Count(sys.live, x) == Count(old(sys.live), x) + One(ok && x == ReplyMessage)
    {
      ok := m.replyTo;
      if ok {
        sys.Hold(ReplyMessage);
      }
    }

    method SendMessage(ghost s: State, p: Peer, reply: XpcObject)
      requires Linked(s)
      modifies sys`sent
      ensures Linked(s) && sys.sent == old(sys.sent) + [Sent(p, reply)]
    {
      sys.Send(p, reply);
    }

    method SendXpcError(ghost s: State, ctx: Context, m: Message, code: int)
      requires Linked(s)
      modifies sys`live, sys`sent
      ensures Linked(s) && forall x :: Count(sys.live, x) == Count(old(sys.live), x)
      ensures sys.sent == old(sys.sent) + if m.replyTo then [Sent(ctx.connection, ErrorReply(code))] else []
    {
      hide Linked, Count;
      var reply := CreateReply(s, m);
      if !reply {
        return;
      }
      SendMessage(s, ctx.connection, XpcDictionary(map[REPLY_ERROR := Int64(code)]));
      LetGo(s, ReplyMessage);
    }

    /** The reply retains the serialization while it exists. */
    method SendXpcNetwork(ghost s: State, ctx: Context, m: Message, serialization: nat)
      requires Linked(s)
      modifies sys`live, sys`sent
      ensures Linked(s) && forall x :: Count(sys.live, x) == Count(old(sys.live), x)
      ensures sys.sent
              == old(sys.sent) + if m.replyTo then [Sent(ctx.connection, NetworkReply(serialization))] else []
    {
      hide Linked, Count;
      var reply := CreateReply(s, m);
      if !reply {
        return;
      }
      Hold(s, SerialRef(serialization));
      SendMessage(s, ctx.connection, XpcDictionary(map[REPLY_NETWORK := Serialization(serialization)]));
      LetGo(s, SerialRef(serialization));
      LetGo(s, ReplyMessage);
    }

    /** Check a request, acquire the network it names and answer it. */
    method OnPeerRequest(ghost s: State, ctx: Context, m: Message, f: Faults)
      requires Represents(s) && s.status == Running
      requires ctx.connection in contexts && contexts[ctx.connection] == ctx
      modifies `registry, sys`live, sys`armed, sys`created, sys`sent, ctx`networkCount, ctx.networks
      modifies Nets()`peers, Nets()`idleTimer
      ensures ctx.connection in s.leases && Represents(Step(s, Request(ctx.connection, m, f)))
      ensures sys.sent == old(sys.sent) + Replies(s, Request(ctx.connection, m, f))
      ensures fresh(Nets() - old(Nets()))
    {
      hide Linked, Count, Due, Ok, Acquire, Decide, AcquireDelta;
      PeerFacts(s, ctx);
      if m.command.None? {
        SendXpcError(s, ctx, m, INVALID_REQUEST);
        return;
      }
      if m.command.value != COMMAND_ACQUIRE {
        SendXpcError(s, ctx, m, INVALID_REQUEST);
        return;
      }
      if m.name.None? {
        SendXpcError(s, ctx, m, INVALID_REQUEST);
        return;
      }
      Answering(s, ctx, m, f);
    }

    /** The rest of the source's function, for a well-formed request. */
    method Answering(ghost s: State, ctx: Context, m: Message, f: Faults)
      requires Represents(s) && s.status == Running
      requires ctx.connection in contexts && contexts[ctx.connection] == ctx
      requires ctx.connection in s.leases && Parse(m).Some?
      modifies `registry, sys`live, sys`armed, sys`created, sys`sent, ctx`networkCount, ctx.networks
      modifies Nets()`peers, Nets()`idleTimer
      ensures Represents(Acquire(s, ctx.connection, Parse(m).value, f))
      ensures sys.sent
              == old(sys.sent) + if m.replyTo then [Sent(ctx.connection, Answer(s, ctx.connection, m, f))] else []
      ensures fresh(Nets() - old(Nets()))
    {
      hide Linked, Count, Due, Ok, Acquire, Decide, AcquireDelta, Nets;
      ghost var p, t := ctx.connection, Acquire(s, ctx.connection, m.name.value, f);
      AcquireKeepsOk(s, p, m.name.value, f);
      AcquireFacts(s, p, m.name.value, f);
      var serialization, error := AcquireNetwork(s, ctx, m.name.value, f, 0);
      if serialization.None? {
        SendXpcError(t, ctx, m, error);
        return;
      }
      SendXpcNetwork(t, ctx, m, serialization.value);
      LetGo(t, SerialRef(serialization.value));
    }

    // ---- The main queue: one event at a time

    lemma ContextFacts(s: State, p: Peer)
      requires Linked(s) && p in s.leases
      ensures p in contexts && contexts[p].connection == p
      ensures contexts[p] in Contexts() && contexts[p].networks in Arrays()
    {
    }

    lemma IdleFacts(s: State, n: Name)
      requires Linked(s) && n in s.nets && s.nets[n].deadline.Some?
      ensures registry.Some? && n in registry.value && registry.value[n].name == Some(n)
      ensures registry.value[n] in sys.armed && sys.armed[registry.value[n]] == s.nets[n].deadline.value
      ensures sys.now == s.now
    {
    }

    method HandleRequest(ghost s: State, p: Peer, m: Message, f: Faults)
      requires Represents(s) && Enabled(s, Request(p, m, f))
      modifies this, sys, Contexts(), Arrays(), Nets()
      ensures Represents(Step(s, Request(p, m, f))) && contexts == old(contexts)
      ensures sys.sent == old(sys.sent) + Replies(s, Request(p, m, f))
      ensures fresh(Nets() - old(Nets()))
    {
      hide Linked, Ok, Step, Replies, Balanced;
      ContextFacts(s, p);
      OnPeerRequest(s, contexts[p], m, f);
    }

    method HandleDisconnect(ghost s: State, p: Peer, ticks: seq<nat>, last: nat)
      requires Represents(s) && Enabled(s, Disconnect(p, ticks, last))
      modifies this, sys, Contexts(), Arrays(), Nets()
      ensures Represents(Step(s, Disconnect(p, ticks, last))) && registry == old(registry)
      ensures contexts == old(contexts) - {p} && sys.sent == old(sys.sent)
    {
      hide Linked, Ok, Step, Balanced;
      ContextFacts(s, p);
      OnPeerDisconnect(s, contexts[p], ticks, last);
    }

    method HandleTimer(ghost s: State, n: Name)
      requires Represents(s) && Enabled(s, NetworkTimer(n))
      modifies this, sys, Contexts(), Arrays(), Nets()
      ensures Represents(Step(s, NetworkTimer(n))) && registry == Some(old(Entries()) - {n})
      ensures contexts == old(contexts) && sys.sent == old(sys.sent)
    {
      hide Linked, Ok, Step, Balanced;
      IdleFacts(s, n);
      ghost var m := OnNetworkTimer(s, registry.value[n]);
    }

    /** A failed listener ends the process at once; an unexpected error on a connection is only logged;
        and time may pass while the queue is empty. */
    method HandleOther(ghost s: State, e: Event)
      requires Represents(s) && Enabled(s, e) && (e.ListenerError? || e.PeerError? || e.Tick?)
      modifies sys`now, sys`status
      ensures Represents(Step(s, e))
    {
      hide Linked, Ok, Due, Count;
      StepKeepsOk(s, e);
      QuietDue(s, e);
      match e
      case ListenerError => Exit(s, EXIT_FAILURE);
      case Tick(d) => Wait(s, d);
      case _ =>
    }

    method HandleEvent(ghost s: State, e: Event)
      requires Represents(s) && Enabled(s, e)
      modifies this, sys, Contexts(), Arrays(), Nets()
      ensures Represents(Step(s, e)) && sys.sent == old(sys.sent) + Replies(s, e)
      ensures fresh(Nets() - old(Nets())) && fresh(Contexts() - old(Contexts())) && fresh(Arrays() - old(Arrays()))
    {
      hide Linked, Ok, Step, Balanced;
      match e
      case Connect(p) =>
        var ctx := HandleConnection(s, p);
      case Request(p, m, f) => HandleRequest(s, p, m, f);
      case Disconnect(p, ticks, last) => HandleDisconnect(s, p, ticks, last);
      case NetworkTimer(n) => HandleTimer(s, n);
      case BrokerTimer => OnIdleTimeout(s);
      case Signal => OnSignal(s);
      case _ => HandleOther(s, e);
    }

    /** The main queue delivers any list of events that can happen. The broker follows the machine of
        module Leases event by event and sends exactly its replies, in order. */
    method Serve(ghost s: State, events: seq<Event>)
      requires Represents(s) && Accepts(s, events)
      modifies this, sys, Contexts(), Arrays(), Nets()
      ensures Represents(After(s, events))
      ensures sys.sent == old(sys.sent) + AllReplies(s, events)
    {
      hide Linked, Ok, Balanced, Enabled, Step, Replies, Represents;
      ghost var t := s;
      for i := 0 to |events|
        invariant Represents(t) && Accepts(t, events[i..])
        invariant After(t, events[i..]) == After(s, events)
        invariant sys.sent + AllReplies(t, events[i..]) == old(sys.sent) + AllReplies(s, events)
        invariant fresh(Nets() - old(Nets()))
        invariant fresh(Contexts() - old(Contexts())) && fresh(Arrays() - old(Arrays()))
      {
        assert events[i..][0] == events[i] && events[i..][1..] == events[i + 1..];
        HandleEvent(t, events[i]);
        t := Step(t, events[i]);
      }
    }
  }

  /** The broker from start-up: it answers any list of events as the machine does from its initial state. */
  method StartAndServe(table: seq<NetworkConfig>, events: seq<Event>) returns (b: Broker)
    requires Accepts(Initial(table), events)
    ensures fresh(b) && b.Represents(After(Initial(table), events))
    ensures b.sys.sent == AllReplies(Initial(table), events)
  {
    var sys := new System();
    b := new Broker(sys, table);
    b.Serve(Initial(table), events);
  }
}
