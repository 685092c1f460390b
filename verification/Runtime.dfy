/** The system the broker runs on, as far as the broker can observe it: memory and reference counts,
    timers on the main queue, the clock, outgoing messages and process exit. Every release requires that
    the thing released is held, so a verified caller never releases twice. */
module Runtime {
  import opened Types
  import opened Leases
  import opened Resources

  /** A shared network, as allocated in memory. Zeroed on allocation. */
  class Network {
    const id: nat
    var name: Option<Name>
    var peers: int
    var ref: Option<Mode>         // the vmnet network, known by its mode
    var serialization: Option<nat>
    var idleTimer: bool
    ghost var freed: bool

    constructor (id: nat)
      ensures this.id == id && name == None && peers == 0 && ref == None && serialization == None
      ensures !idleTimer && !freed
    {
      this.id := id;
      name, peers, ref, serialization, idleTimer, freed := None, 0, None, None, false, false;
    }

    /** How often a resource is held through the fields that are set. */
    ghost function Holds(x: Resource): nat
      reads this
    {
      match x
      case Structure(i) => One(i == id)
      case NameBuffer(i) => One(i == id && name.Some?)
      case NetworkRef(i) => One(i == id && ref.Some?)
      case SerialRef(i) => One(i == id && serialization.Some?)
      case RemovalTimer(i) => One(i == id && idleTimer)
      case _ => 0
    }
  }

  /** How often something is held. */
  function Count<T>(live: map<T, nat>, x: T): nat {
    if x in live then live[x] else 0
  }

  /** The per-connection context: a fixed array of network pointers, of which the first
      `networkCount` are in use. */
  class Context {
    const connection: Peer
    const networks: array<Network?>
    var networkCount: int

    constructor (connection: Peer)
      ensures this.connection == connection && networkCount == 0
      ensures networks.Length == MAX_PEER_NETWORKS && fresh(networks)
      ensures forall i | 0 <= i < networks.Length :: networks[i] == null
    {
      this.connection := connection;
      networks := new Network?[MAX_PEER_NETWORKS](_ => null);
      networkCount := 0;
    }
  }

  class System {
    var now: nat
    ghost var live: map<Resource, nat>        // held and not yet released
    ghost var armed: map<Network, nat>        // removal timers: captured network and deadline
    ghost var shutdownAt: Option<nat>         // the broker's idle timer
    var sent: seq<Sent>                       // messages handed to XPC
    var status: Status
    var created: nat                          // networks vmnet has made so far

    constructor ()
      ensures now == 0 && live == map[] && armed == map[] && shutdownAt == None && sent == []
      ensures status == Running && created == 0
    {
      now, live, armed, shutdownAt, sent, status, created := 0, map[], map[], None, [], Running, 0;
    }

    method Hold(x: Resource)
      modifies `live
      ensures forall y :: Count(live, y) == Count(old(live), y) + One(y == x)
    {
      live := live[x := Count(live, x) + 1];
    }

    method Drop(x: Resource)
      requires Count(live, x) > 0
      modifies `live
      ensures forall y :: Count(live, y) == Count(old(live), y) - One(y == x)
    {
      live := live[x := Count(live, x) - 1];
    }

    /** Time passes. */
    method Tick(d: nat)
      modifies `now
      ensures now == old(now) + d
    {
      now := now + d;
    }

    /** Create, set and resume a timer source whose handler captures `net`. */
    method ArmRemoval(net: Network)
      modifies `live, `armed
      ensures forall y :: Count(live, y) == Count(old(live), y) + One(y == RemovalTimer(net.id))
      ensures armed == old(armed)[net := now + IDLE_TIMEOUT]
    {
      live := live[RemovalTimer(net.id) := Count(live, RemovalTimer(net.id)) + 1];
      armed := armed[net := now + IDLE_TIMEOUT];
    }

    /** Cancel and release a removal timer; its handler does not run any more. */
    method CancelRemoval(net: Network)
      requires Count(live, RemovalTimer(net.id)) > 0
      modifies `live, `armed
      ensures forall y :: Count(live, y) == Count(old(live), y) - One(y == RemovalTimer(net.id))
      ensures armed == old(armed) - {net}
    {
      live := live[RemovalTimer(net.id) := Count(live, RemovalTimer(net.id)) - 1];
      armed := armed - {net};
    }

    method ArmShutdown()
      modifies `live, `shutdownAt
      ensures forall y :: Count(live, y) == Count(old(live), y) + One(y == ShutdownTimer)
      ensures shutdownAt == Some(now + IDLE_TIMEOUT)
    {
      live := live[ShutdownTimer := Count(live, ShutdownTimer) + 1];
      shutdownAt := Some(now + IDLE_TIMEOUT);
    }

    method CancelShutdown()
      requires Count(live, ShutdownTimer) > 0
      modifies `live, `shutdownAt
      ensures forall y :: Count(live, y) == Count(old(live), y) - One(y == ShutdownTimer)
      ensures shutdownAt == None
    {
      live := live[ShutdownTimer := Count(live, ShutdownTimer) - 1];
      shutdownAt := None;
    }

    method Send(peer: Peer, reply: XpcObject)
      modifies `sent
      ensures sent == old(sent) + [Sent(peer, reply)]
    {
      sent := sent + [Sent(peer, reply)];
    }

    method Exit(code: nat)
      modifies `status
      ensures status == Exited(code)
    {
      status := Exited(code);
    }
  }
}
