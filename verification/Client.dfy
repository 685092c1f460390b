/** The client library (client/client.c): one lazily created connection, a synchronous request, and the
    retain discipline of the objects involved. */
module Clients {
  import opened Types
  import opened Leases
  import opened Invariants
  import opened Protocol
  import opened Broker
  import opened Resources
  import opened Runtime

  /** What the client holds from XPC. */
  datatype Handle = Connection | Outgoing | Reply | Retained(value: XpcValue)

  /** What becomes of a request: it does not reach the broker, the broker acts on it but the reply does not
      reach the client, or both arrive. */
  datatype Delivery = RequestLost | ReplyLost | Delivered

  /** How much more of a handle is held once the caller has its answer. */
  function Taken(serialization: Option<XpcValue>, h: Handle): nat {
    One(serialization.Some? && h == Retained(serialization.value))
  }

  /** The broker's state once it knows the peer. */
  function Met(s: State, p: Peer): (t: State)
    requires s.status == Running
    ensures p in t.leases && t.status == Running
  {
    if p in s.leases then s else Step(s, Connect(p))
  }

  lemma MetFacts(s: State, p: Peer, m: Message, f: Faults)
    requires s.status == Running
    ensures p !in s.leases ==> Enabled(s, Connect(p)) && Met(s, p) == Step(s, Connect(p)) && Replies(s, Connect(p)) == []
    ensures p in s.leases ==> Met(s, p) == s
    ensures Enabled(Met(s, p), Request(p, m, f))
    ensures m.replyTo ==> Replies(Met(s, p), Request(p, m, f)) == [Sent(p, Answer(Met(s, p), p, m, f))]
  {
  }

  lemma KnowsPeer(b: Broker, s: State, p: Peer)
    requires b.Linked(s)
    ensures b.sys.status == s.status && (p in b.contexts <==> p in s.leases)
  {
  }

  lemma RepresentsStatus(b: Broker, s: State)
    requires b.Represents(s)
    ensures b.sys.status == s.status
  {
  }

  lemma RepresentsOk(b: Broker, s: State)
    requires b.Represents(s)
    ensures Ok(s)
  {
  }

  /** A request reaches a broker that has not exited. */
  predicate Arrives(s: State, delivery: Delivery) {
    s.status == Running && !delivery.RequestLost?
  }

  /** The reply gets back, too. */
  predicate Answered(s: State, delivery: Delivery) {
    s.status == Running && delivery.Delivered?
  }

  /** Where a request takes the broker, and what the client receives. */
  function Reached(s: State, p: Peer, m: Message, f: Faults, delivery: Delivery): State {
    if Arrives(s, delivery) then Step(Met(s, p), Request(p, m, f)) else s
  }

  function Received(s: State, p: Peer, m: Message, f: Faults, delivery: Delivery): XpcObject {
    if Answered(s, delivery) then Answer(Met(s, p), p, m, f) else XpcError
  }

  /** The caller gets a serialization exactly when it is answered and the broker, now in state `t`, leases the
      network to the peer; it is the one registered then. Otherwise it gets a code that tells a failed
      conversation from a refusal. */
  ghost predicate Serves(t: State, p: Peer, name: Name, answered: bool, got: Acquired) {
    && (got.status == SUCCESS <==> got.serialization.Some?)
    && (got.status == SUCCESS <==> answered && p in t.leases && name in t.leases[p])
    && (got.status == SUCCESS ==> name in t.nets && got.serialization == Some(Serialization(t.nets[name].id)))
    && (got.status == XPC_FAILURE <==> !answered)
    && (got.status !in {SUCCESS, XPC_FAILURE} ==> got.status in {NOT_FOUND, CREATE_FAILURE, INTERNAL_ERROR})
  }

  lemma ReceivedServes(s: State, p: Peer, name: Name, f: Faults, delivery: Delivery)
    requires Ok(s)
    ensures var m := AcquireRequest(name);
            Serves(Reached(s, p, m, f, delivery), p, name, Answered(s, delivery),
                   Decode(Received(s, p, m, f, delivery)))
  {
    if s.status == Running {
      assert Ok(Met(s, p)) by {
        if p !in s.leases {
          StepKeepsOk(s, Connect(p));
        }
      }
      EndToEnd(Met(s, p), p, name, f);
      DecodeIsConsistent(Answer(Met(s, p), p, AcquireRequest(name), f));
    }
  }

  lemma ReachedIs(s: State, q: Peer, name: Name, f: Faults, delivery: Delivery)
    ensures Reached(s, q, AcquireRequest(name), f, delivery) ==
            if s.status == Running && !delivery.RequestLost? then
              Step(if q in s.leases then s else Step(s, Connect(q)),
                   Request(q, Message(Some(COMMAND_ACQUIRE), Some(name), true), f))
            else s
  {
  }

  /** The caller's status and serialization, from the state the request finds. */
  lemma ReceivedIs(s: State, q: Peer, name: Name, f: Faults, delivery: Delivery)
    requires Ok(s)
    ensures var names := if q in s.leases then s.leases[q] else [];
            var free := |names| < MAX_PEER_NETWORKS;
            var c := Find(s.table, name);
            var got := Decode(Received(s, q, AcquireRequest(name), f, delivery));
            && got.status == (if s.status != Running || !delivery.Delivered? then XPC_FAILURE
                              else if name in names then SUCCESS
                              else if !free then INTERNAL_ERROR
                              else if name in s.nets then SUCCESS
                              else if c.None? then NOT_FOUND
                              else if !Creates(c.value, f) then CREATE_FAILURE
                              else SUCCESS)
            && got.serialization ==
               if got.status != SUCCESS then None
               else Some(Serialization(if name in s.nets then s.nets[name].id else s.next))
  {
    hide Acquire, Ok;
    if Answered(s, delivery) {
      var t := Met(s, q);
      assert Ok(t) by {
        if q !in s.leases {
          StepKeepsOk(s, Connect(q));
        }
      }
      AcquireOutcome(t, q, name, f);
      AcquireEffect(t, q, name, f);
      match Decide(t, q, name, f)
      case Granted(id) => NetworkRoundTrip(id);
      case Denied(code) => ErrorRoundTripIff(code);
    }
  }

  /** A client that was given a network and asks for it again is given the same one, whatever fails meanwhile,
      and the broker does not change. */
  lemma AskingAgain(s: State, p: Peer, name: Name, f: Faults, again: Faults)
    requires Ok(s) && s.status == Running
    ensures var m := AcquireRequest(name);
            var t := Reached(s, p, m, f, Delivered);
            Decode(Received(s, p, m, f, Delivered)).status == SUCCESS ==>
              && t.status == Running
              && Reached(t, p, m, again, Delivered) == t
              && Decode(Received(t, p, m, again, Delivered)) == Decode(Received(s, p, m, f, Delivered))
  {
    var m := AcquireRequest(name);
    var t := Reached(s, p, m, f, Delivered);
    ReceivedServes(s, p, name, f, Delivered);
    if Decode(Received(s, p, m, f, Delivered)).status == SUCCESS {
      ReachedOk(s, p, m, f, Delivered);
      ReacquireIsIdempotent(t, p, name, again);
      NetworkRoundTrip(t.nets[name].id);
    }
  }

  lemma ReachedOk(s: State, p: Peer, m: Message, f: Faults, delivery: Delivery)
    requires Ok(s)
    ensures Ok(Reached(s, p, m, f, delivery))
  {
    if Arrives(s, delivery) {
      if p !in s.leases {
        StepKeepsOk(s, Connect(p));
      }
      StepKeepsOk(Met(s, p), Request(p, m, f));
    }
  }

  class Client {
    var peer: Option<Peer>    // the connection, once there is one
    ghost var held: map<Handle, nat>

    constructor ()
      ensures peer == None && held == map[]
    {
      peer, held := None, map[];
    }

    /** The peer that the client is to the broker; `p` if it has yet to connect. */
    function Identity(p: Peer): Peer
      reads `peer
    {
      if peer.Some? then peer.value else p
    }

    method Hold(h: Handle)
      modifies `held
      ensures forall k :: Count(held, k) == Count(old(held), k) + One(k == h)
    {
      held := held[h := Count(held, h) + 1];
    }

    method LetGo(h: Handle)
      requires Count(held, h) > 0
      modifies `held
      ensures forall k :: Count(held, k) == Count(old(held), k) - One(k == h)
    {
      held := held[h := Count(held, h) - 1];
    }

    method ConnectToBroker(p: Peer)
      modifies this
      ensures peer == Some(p) && forall k :: Count(held, k) == Count(old(held), k) + One(k == Connection)
    {
      peer := Some(p);
      Hold(Connection);
    }

    /** Read a reply, which is given up here. The caller owns one retain of the serialization, if there is
        one; nothing else is kept. */
    method ReadReply(reply: XpcObject) returns (serialization: Option<XpcValue>, status: int)
      requires Count(held, Reply) > 0
      modifies `held
      ensures Acquired(serialization, status) == Decode(reply)
      ensures reply.XpcError? ==> status == XPC_FAILURE && serialization == None
      ensures reply.XpcOther? ==> status == INVALID_REPLY && serialization == None
      ensures reply.XpcDictionary? ==>
                var entries := reply.entries;
                var code := if REPLY_ERROR in entries && entries[REPLY_ERROR].Int64? then entries[REPLY_ERROR].code
                            else 0;
                if code % 0x1_0000_0000 != 0 then
                  && -0x8000_0000 <= status < 0x8000_0000 && (code - status) % 0x1_0000_0000 == 0
                  && serialization == None
                else if REPLY_NETWORK in entries then
                  status == SUCCESS && serialization == Some(entries[REPLY_NETWORK])
                else
                  status == INVALID_REPLY && serialization == None
      ensures forall k :: Count(held, k) == Count(old(held), k) - (if k == Reply then 1 else 0)
                          + (if serialization.Some? && k == Retained(serialization.value) then 1 else 0)
    {
      serialization, status := None, INTERNAL_ERROR;
      label out: {
        if reply.XpcError? {
          status := XPC_FAILURE;
          break out;
        }
        if !reply.XpcDictionary? {
          status := INVALID_REPLY;
          break out;
        }
        var error := Narrow(ErrorOf(reply.entries));
        if error != 0 {
          status := error;
          break out;
        }
        if REPLY_NETWORK !in reply.entries {
          status := INVALID_REPLY;
          break out;
        }
        serialization := Some(reply.entries[REPLY_NETWORK]);
        status := SUCCESS;
        Hold(Retained(serialization.value));
      }
      LetGo(Reply);
    }

    /** The broker gets a message of peer `p`, and with the first one learns of its connection. */
    method Deliver(b: Broker, ghost s: State, p: Peer, m: Message, f: Faults) returns (reply: XpcObject)
      requires b.Represents(s) && s.status == Running && m.replyTo
      modifies b, b.sys, b.Contexts(), b.Arrays(), b.Nets()
      ensures b.Represents(Step(Met(s, p), Request(p, m, f))) && reply == Answer(Met(s, p), p, m, f)
      ensures fresh(b.Nets() - old(b.Nets()))
      ensures fresh(b.Contexts() - old(b.Contexts())) && fresh(b.Arrays() - old(b.Arrays()))
    {
      hide b.Linked, b.Balanced, Ok, Step, Answer, Met, Replies, Enabled;
      MetFacts(s, p, m, f);
      KnowsPeer(b, s, p);
      if p !in b.contexts {
        b.HandleEvent(s, Connect(p));
      }
      b.HandleEvent(Met(s, p), Request(p, m, f));
      return b.sys.sent[|b.sys.sent| - 1].reply;
    }

    /** Send a request and wait for what XPC returns, which is an error if the broker has exited. */
    method SendWithReply(b: Broker, ghost s: State, p: Peer, m: Message, f: Faults, delivery: Delivery)
      returns (reply: XpcObject)
      requires b.Represents(s) && m.replyTo
      modifies b, b.sys, b.Contexts(), b.Arrays(), b.Nets()
      ensures b.Represents(Reached(s, p, m, f, delivery)) && reply == Received(s, p, m, f, delivery)
      ensures fresh(b.Nets() - old(b.Nets()))
      ensures fresh(b.Contexts() - old(b.Contexts())) && fresh(b.Arrays() - old(b.Arrays()))
    {
      hide b.Represents;
      RepresentsStatus(b, s);
      if delivery.RequestLost? || b.sys.status != Running {
        return XpcError;
      }
      reply := Deliver(b, s, p, m, f);
      if delivery.ReplyLost? {
        reply := XpcError;
      }
    }

    /** Connect if need be, and make a request. */
    method Begin(p: Peer)
      modifies this
      ensures peer == Some(old(Identity(p)))
      ensures forall k :: Count(held, k) == Count(old(held), k) + One(k == Connection && old(peer).None?)
                                            + One(k == Outgoing)
    {
      hide Count;
      if peer.None? {
        ConnectToBroker(p);
      }
      Hold(Outgoing);
    }

    /** Trade the request for the reply, and read it. */
    method Finish(reply: XpcObject) returns (serialization: Option<XpcValue>, status: int)
      requires Count(held, Outgoing) > 0
      modifies `held
      ensures Acquired(serialization, status) == Decode(reply)
      ensures forall k :: Count(held, k) == Count(old(held), k) - One(k == Outgoing) + Taken(serialization, k)
    {
      hide Count;
      Hold(Reply);
      LetGo(Outgoing);
      serialization, status := ReadReply(reply);
    }

    /** `Finish`, which the broker does not notice. */
    method Conclude(b: Broker, ghost t: State, reply: XpcObject) returns (serialization: Option<XpcValue>, status: int)
      requires b.Represents(t) && Count(held, Outgoing) > 0
      modifies `held
      ensures b.Represents(t) && Acquired(serialization, status) == Decode(reply)
      ensures forall k :: Count(held, k) == Count(old(held), k) - One(k == Outgoing) + Taken(serialization, k)
      ensures b.Nets() == old(b.Nets()) && b.Contexts() == old(b.Contexts()) && b.Arrays() == old(b.Arrays())
    {
      hide Decode, Count, Taken, Ok, b.Balanced, b.ModeOf, NetMatches, SlotsMatch;
      serialization, status := Finish(reply);
    }

    /** The body of the source's function, in terms of what is received. */
    method Ask(b: Broker, ghost s: State, p: Peer, name: Name, f: Faults, delivery: Delivery)
      returns (serialization: Option<XpcValue>, status: int)
      requires b.Represents(s)
      modifies this, b, b.sys, b.Contexts(), b.Arrays(), b.Nets()
      ensures peer == Some(old(Identity(p)))
      ensures b.Represents(Reached(s, peer.value, AcquireRequest(name), f, delivery))
      ensures Acquired(serialization, status)
              == Decode(Received(s, peer.value, AcquireRequest(name), f, delivery))
      ensures forall k :: Count(held, k) == Count(old(held), k) + One(k == Connection && old(peer).None?)
                                            + Taken(serialization, k)
      ensures fresh(b.Nets() - old(b.Nets()))
      ensures fresh(b.Contexts() - old(b.Contexts())) && fresh(b.Arrays() - old(b.Arrays()))
    {
      hide b.Represents, Ok, Reached, Received, Decode, Count, Taken;
      Begin(p);
      var message := AcquireRequest(name);
      var reply := SendWithReply(b, s, peer.value, message, f, delivery);
      serialization, status := Conclude(b, Reached(s, peer.value, message, f, delivery), reply);
    }

    /** Acquire a network from a broker, running or not. `p` is what a connection becomes if this call has to
        make it; every later call is the same peer. Besides the retain of its caller nothing is kept but the
        connection. */
    method AcquireNetwork(b: Broker, ghost s: State, p: Peer, name: Name, f: Faults, delivery: Delivery)
      returns (serialization: Option<XpcValue>, status: int)
      requires b.Represents(s)
      modifies this, b, b.sys, b.Contexts(), b.Arrays(), b.Nets()
      ensures peer == Some(old(Identity(p)))
      ensures var t := Reached(s, peer.value, AcquireRequest(name), f, delivery);
              && b.Represents(t)
              && Serves(t, peer.value, name, Answered(s, delivery), Acquired(serialization, status))
      ensures var q := peer.value;
              b.Represents(
                if s.status == Running && !delivery.RequestLost? then
                  Step(if q in s.leases then s else Step(s, Connect(q)),
                       Request(q, Message(Some(COMMAND_ACQUIRE), Some(name), true), f))
                else s)
      ensures var names := if peer.value in s.leases then s.leases[peer.value] else [];
              var free := |names| < MAX_PEER_NETWORKS;
              var c := Find(s.table, name);
              status == if s.status != Running || !delivery.Delivered? then XPC_FAILURE
                        else if name in names then SUCCESS
                        else if !free then INTERNAL_ERROR
                        else if name in s.nets then SUCCESS
                        else if c.None? then NOT_FOUND
                        else if !Creates(c.value, f) then CREATE_FAILURE
                        else SUCCESS
      ensures serialization ==
              if status != SUCCESS then None
              else Some(Serialization(if name in s.nets then s.nets[name].id else s.next))
      ensures forall k :: Count(held, k) == Count(old(held), k) + (if k == Connection && old(peer).None? then 1 else 0)
                          + (if serialization.Some? && k == Retained(serialization.value) then 1 else 0)
      ensures fresh(b.Nets() - old(b.Nets()))
      ensures fresh(b.Contexts() - old(b.Contexts())) && fresh(b.Arrays() - old(b.Arrays()))
    {
      hide b.Represents, Ok, Reached, Received, Serves, Decode, Count;
      RepresentsOk(b, s);
      ReceivedServes(s, Identity(p), name, f, delivery);
      ReceivedIs(s, Identity(p), name, f, delivery);
      ReachedIs(s, Identity(p), name, f, delivery);
      serialization, status := Ask(b, s, p, name, f, delivery);
    }
  }
}
