/** The specification of the broker: which peer leases which name, which names have a network, and
    when idle networks and the idle broker may go away. There are no reference counts here. */
module Leases {
  import opened Types

  /** A network: its creation number, and its removal deadline while nobody leases it. */
  datatype Net = Net(id: nat, deadline: Option<nat>)

  datatype Status = Running | Exited(code: nat)

  datatype State = State(
    table: seq<NetworkConfig>,      // fixed configuration
    now: nat,                       // seconds
    leases: map<Peer, seq<Name>>,   // connected peers, each with the names it acquired, in order
    nets: map<Name, Net>,           // existing networks
    next: nat,                      // networks created so far
    registry: bool,                 // the registry has been created
    timer: Option<nat>,             // deadline of the broker's own idle shutdown
    started: bool,                  // some peer has connected
    status: Status)

  datatype Event =
    | Connect(peer: Peer)
    | Request(peer: Peer, message: Message, faults: Faults)
    | PeerError(peer: Peer)
    | Disconnect(peer: Peer, ticks: seq<nat>, last: nat)
    | NetworkTimer(name: Name)
    | BrokerTimer
    | Signal
    | ListenerError
    | Tick(elapsed: nat)

  function Initial(table: seq<NetworkConfig>): State {
    State(table, 0, map[], map[], 0, false, None, false, Running)
  }

  // ---- Leasing

  function Holders(leases: map<Peer, seq<Name>>, n: Name): set<Peer> {
    set p | p in leases && n in leases[p]
  }

  predicate Held(s: State, n: Name) {
    Holders(s.leases, n) != {}
  }

  datatype Outcome = Granted(id: nat) | Denied(code: int)

  /** What an acquire request is answered: a full peer is told so first, an unknown name second, a
      failure to create last. */
  function Decide(s: State, p: Peer, n: Name, f: Faults): Outcome
    requires p in s.leases
  {
    if n in s.nets && (n in s.leases[p] || |s.leases[p]| < MAX_PEER_NETWORKS) then
      Granted(s.nets[n].id)
    else if |s.leases[p]| >= MAX_PEER_NETWORKS then
      Denied(INTERNAL_ERROR)
    else
      match Find(s.table, n)
      case None => Denied(NOT_FOUND)
      case Some(c) => if Creates(c, f) then Granted(s.next) else Denied(CREATE_FAILURE)
  }

  /** A new network without an owner: the registry entry before its first lease. */
  function Create(s: State, n: Name): State {
    s.(nets := s.nets[n := Net(s.next, None)], next := s.next + 1)
  }

  function AddLease(s: State, p: Peer, n: Name): State
    requires p in s.leases
  {
    s.(leases := s.leases[p := AddOnce(s.leases[p], n)])
  }

  function KeepAlive(s: State, n: Name): State
    requires n in s.nets
  {
    s.(nets := s.nets[n := s.nets[n].(deadline := None)])
  }

  function Open(s: State): State {
    s.(registry := true)
  }

  function Acquire(s: State, p: Peer, n: Name, f: Faults): State
    requires p in s.leases
  {
    if Decide(s, p, n, f).Denied? then Open(s)
    else
      var s1 := if n in s.nets then Open(s) else Create(Open(s), n);
      KeepAlive(AddLease(s1, p, n), n)
  }

  // ---- Releasing

  function Advance(s: State, d: nat): State {
    s.(now := s.now + d)
  }

  /** Take the name in slot `i` from a peer, `d` seconds after the previous step. */
  function Unlease(s: State, p: Peer, i: nat, d: nat): State
    requires p in s.leases && i < |s.leases[p]|
  {
    var names := s.leases[p];
    s.(now := s.now + d, leases := s.leases[p := names[..i] + names[i + 1..]])
  }

  /** Give a network a removal deadline, counted from now. */
  function Expire(s: State, n: Name): State
    requires n in s.nets
  {
    s.(nets := s.nets[n := s.nets[n].(deadline := Some(s.now + IDLE_TIMEOUT))])
  }

  /** Drop the lease in a slot. A name nobody leases any more gets a removal deadline. */
  function Drop(s: State, p: Peer, i: nat, d: nat): State
    requires p in s.leases && i < |s.leases[p]|
  {
    var n, s1 := s.leases[p][i], Unlease(s, p, i, d);
    if n in s1.nets && !Held(s1, n) then Expire(s1, n) else s1
  }

  function First(ticks: seq<nat>): nat {
    if ticks == [] then 0 else ticks[0]
  }

  function Rest(ticks: seq<nat>): seq<nat> {
    if ticks == [] then [] else ticks[1..]
  }

  /** Drop every lease of a peer, last acquired first. `ticks` says how much time passes before each
      reading of the clock. */
  function Release(s: State, p: Peer, ticks: seq<nat>): State
    requires p in s.leases
    decreases if p in s.leases then |s.leases[p]| else 0
  {
    if s.leases[p] == [] then s
    else Release(Drop(s, p, |s.leases[p]| - 1, First(ticks)), p, Rest(ticks))
  }

  /** Forget a peer; the last one to go schedules the shutdown of the broker. */
  function Leave(s: State, p: Peer, last: nat): State {
    var left := s.(leases := s.leases - {p});
    if left.leases == map[] then
      Advance(left, last).(timer := Some(s.now + last + IDLE_TIMEOUT))
    else left
  }

  // ---- The machine

  function Remove(s: State, n: Name): State {
    s.(nets := s.nets - {n})
  }

  function Shutdown(s: State): State {
    s.(nets := map[], registry := false, status := Exited(EXIT_SUCCESS))
  }

  /** What the environment may do. XPC delivers the events of a connection between its first and its
      last one; a timer does not fire before its deadline; nothing happens after exit. */
  predicate Enabled(s: State, e: Event) {
    && s.status == Running
    && match e
       case Connect(p) => p !in s.leases
       case Request(p, _, _) => p in s.leases
       case PeerError(p) => p in s.leases
       case Disconnect(p, _, _) => p in s.leases
       case NetworkTimer(n) => n in s.nets && s.nets[n].deadline.Some? && s.nets[n].deadline.value <= s.now
       case BrokerTimer => s.timer.Some? && s.timer.value <= s.now
       case Signal => true
       case ListenerError => true
       case Tick(_) => true
  }

  function Step(s: State, e: Event): State
    requires Enabled(s, e)
  {
    match e
    case Connect(p) => s.(leases := s.leases[p := []], timer := None, started := true)
    case Request(p, m, f) => if Parse(m).Some? then Acquire(s, p, Parse(m).value, f) else s
    case PeerError(_) => s
    case Disconnect(p, ticks, last) => Leave(Release(s, p, ticks), p, last)
    case NetworkTimer(n) => Remove(s, n)
    case BrokerTimer => Shutdown(s)
    case Signal => if s.leases == map[] then Shutdown(s) else s
    case ListenerError => s.(status := Exited(EXIT_FAILURE))
    case Tick(d) => Advance(s, d)
  }

  /** The reply to a request, whether or not it can be delivered. */
  function Answer(s: State, p: Peer, m: Message, f: Faults): XpcObject
    requires p in s.leases
  {
    if Parse(m).None? then ErrorReply(INVALID_REQUEST)
    else match Decide(s, p, Parse(m).value, f)
      case Granted(id) => NetworkReply(id)
      case Denied(code) => ErrorReply(code)
  }

  /** The messages an event sends. */
  function Replies(s: State, e: Event): seq<Sent>
    requires Enabled(s, e)
  {
    match e
    case Request(p, m, f) => if m.replyTo then [Sent(p, Answer(s, p, m, f))] else []
    case _ => []
  }

  /** A list of events that can happen one after the other, where they lead, and what they send. */
  ghost predicate Accepts(s: State, events: seq<Event>)
    decreases |events|
  {
    events == [] || (Enabled(s, events[0]) && Accepts(Step(s, events[0]), events[1..]))
  }

  function After(s: State, events: seq<Event>): State
    requires Accepts(s, events)
    decreases |events|
  {
    if events == [] then s else After(Step(s, events[0]), events[1..])
  }

  function AllReplies(s: State, events: seq<Event>): seq<Sent>
    requires Accepts(s, events)
    decreases |events|
  {
    if events == [] then [] else Replies(s, events[0]) + AllReplies(Step(s, events[0]), events[1..])
  }

  // ---- What every reachable state satisfies

  ghost predicate LeasesOk(s: State) {
    forall p | p in s.leases ::
      && Distinct(s.leases[p])
      && |s.leases[p]| <= MAX_PEER_NETWORKS
      && forall n | n in s.leases[p] :: n in s.nets
  }

  /** A network is configured, and has a deadline exactly when nobody leases it. */
  ghost predicate NetOk(s: State, n: Name)
    requires n in s.nets
  {
    && Find(s.table, n).Some?
    && s.nets[n].id < s.next
    && (s.nets[n].deadline.Some? <==> !Held(s, n))
    && (s.nets[n].deadline.Some? ==> s.nets[n].deadline.value <= s.now + IDLE_TIMEOUT)
  }

  ghost predicate IdsDiffer(s: State) {
    forall m, n | m in s.nets && n in s.nets && m != n :: s.nets[m].id != s.nets[n].id
  }

  /** The broker waits to shut down exactly when it has been used and has no peers, and never for less
      time than any network. */
  ghost predicate TimerOk(s: State) {
    && (s.timer.Some? <==> s.leases == map[] && s.started)
    && (s.leases != map[] ==> s.started)
    && (!s.started ==> s.nets == map[])
    && (s.timer.Some? ==>
          && s.timer.value <= s.now + IDLE_TIMEOUT
          && forall n | n in s.nets ::
               s.nets[n].deadline.Some? && s.nets[n].deadline.value <= s.timer.value)
  }

  ghost predicate Ok(s: State) {
    && LeasesOk(s)
    && (forall n | n in s.nets :: NetOk(s, n))
    && IdsDiffer(s)
    && (s.nets != map[] ==> s.registry)
    && TimerOk(s)
    && (s.status == Exited(EXIT_SUCCESS) ==> s.leases == map[] && s.nets == map[] && !s.registry)
  }
}
