/** The conversation between a client and the broker, end to end: what the broker answers, and what the
    client makes of any answer. */
module Protocol {
  import opened Types
  import opened Leases
  import opened Invariants

  /** The request the client library sends. */
  function AcquireRequest(name: Name): Message {
    Message(Some(COMMAND_ACQUIRE), Some(name), true)
  }

  /** The conversion of a 64-bit code to the 32-bit one the client tests: the low half, as a signed number. */
  function Narrow(code: int): (e: int)
    ensures -0x8000_0000 <= e < 0x8000_0000 && (code - e) % 0x1_0000_0000 == 0
    ensures e == code <==> -0x8000_0000 <= code < 0x8000_0000
  {
    (code + 0x8000_0000) % 0x1_0000_0000 - 0x8000_0000
  }

  /** The number under the error key, 0 if there is none. */
  function ErrorOf(entries: map<string, XpcValue>): int {
    if REPLY_ERROR in entries && entries[REPLY_ERROR].Int64? then entries[REPLY_ERROR].code else 0
  }

  /** What an acquire returns to its caller. */
  datatype Acquired = Acquired(serialization: Option<XpcValue>, status: int)

  function Failed(status: int): Acquired {
    Acquired(None, status)
  }

  /** What the client makes of a reply. */
  function Decode(reply: XpcObject): Acquired {
    match reply
    case XpcError => Failed(XPC_FAILURE)
    case XpcOther => Failed(INVALID_REPLY)
    case XpcDictionary(entries) =>
      if Narrow(ErrorOf(entries)) != 0 then Failed(Narrow(ErrorOf(entries)))
      else if REPLY_NETWORK in entries then Acquired(Some(entries[REPLY_NETWORK]), SUCCESS)
      else Failed(INVALID_REPLY)
  }

  /** Whatever the reply, the caller gets a serialization exactly when the status is success; and that is
      exactly when the reply is a dictionary with a network whose error code vanishes in 32 bits. */
  lemma DecodeIsConsistent(reply: XpcObject)
    ensures Decode(reply).status == SUCCESS <==> Decode(reply).serialization.Some?
    ensures Decode(reply).status == SUCCESS
            <==> reply.XpcDictionary? && REPLY_NETWORK in reply.entries
                 && ErrorOf(reply.entries) % 0x1_0000_0000 == 0
  {
  }

  /** A network survives the way from the broker to the caller. */
  lemma NetworkRoundTrip(id: nat)
    ensures Decode(NetworkReply(id)) == Acquired(Some(Serialization(id)), SUCCESS)
  {
  }

  /** An error code survives the way from the broker to the caller if and only if it is a nonzero 32-bit
      number. */
  lemma ErrorRoundTripIff(code: int)
    ensures Decode(ErrorReply(code)) == Failed(code) <==> code != 0 && -0x8000_0000 <= code < 0x8000_0000
  {
  }

  /** A failure is not reported as one when its code has no low half: a reply that carries the error code
      2^32 beside a network is taken for a success. */
  lemma TruncationHidesErrors(id: nat) returns (reply: XpcObject)
    ensures reply.XpcDictionary? && ErrorOf(reply.entries) != 0 && Decode(reply).status == SUCCESS
  {
    reply := XpcDictionary(map[REPLY_ERROR := Int64(0x1_0000_0000), REPLY_NETWORK := Serialization(id)]);
    assert REPLY_ERROR[0] != REPLY_NETWORK[0];
    assert ErrorOf(reply.entries) == 0x1_0000_0000;
  }

  /** The reply carries a network, or an error that is one of the four codes of the broker, not both. */
  ghost predicate WellFormed(reply: XpcObject) {
    && reply.XpcDictionary?
    && (REPLY_NETWORK in reply.entries <==> REPLY_ERROR !in reply.entries)
    && (REPLY_NETWORK in reply.entries ==> reply.entries[REPLY_NETWORK].Serialization?)
    && (REPLY_ERROR in reply.entries ==>
          reply.entries[REPLY_ERROR] in {Int64(INVALID_REQUEST), Int64(NOT_FOUND),
                                         Int64(CREATE_FAILURE), Int64(INTERNAL_ERROR)})
  }

  /** Any message of a connected peer gets exactly one reply, to that peer, if it has a return address, and
      none otherwise; the reply is well formed. Other events send nothing. */
  lemma OneReply(s: State, e: Event)
    requires Ok(s) && Enabled(s, e)
    ensures |Replies(s, e)| == if e.Request? && e.message.replyTo then 1 else 0
    ensures forall r | r in Replies(s, e) :: r.peer == e.peer && WellFormed(r.reply)
  {
  }

  lemma AnswerIsWellFormed(s: State, p: Peer, m: Message, f: Faults)
    requires Ok(s) && p in s.leases
    ensures WellFormed(Answer(s, p, m, f))
    ensures Answer(s, p, m, f) == ErrorReply(INVALID_REQUEST) <==> m.command != Some(COMMAND_ACQUIRE) || m.name.None?
  {
    assert REPLY_ERROR[0] != REPLY_NETWORK[0];
    if Parse(m).Some? {
      AcquireOutcome(s, p, Parse(m).value, f);
    }
  }

  /** End to end: the caller gets a serialization if and only if the broker leases the name to it from then
      on, and it is that of the network then registered. Otherwise the caller gets the code of the first
      reason that applies, and the broker is as before. */
  lemma EndToEnd(s: State, p: Peer, n: Name, f: Faults)
    requires Ok(s) && s.status == Running && p in s.leases
    ensures var e := Request(p, AcquireRequest(n), f);
            var s' := Step(s, e);
            var got := Decode(Answer(s, p, AcquireRequest(n), f));
            var free := |s.leases[p]| < MAX_PEER_NETWORKS;
            var c := Find(s.table, n);
            && Replies(s, e) == [Sent(p, Answer(s, p, AcquireRequest(n), f))]
            && (got.status == SUCCESS <==> n in s'.leases[p])
            && (got.status == SUCCESS
                <==> n in s.leases[p] || (free && (n in s.nets || (c.Some? && Creates(c.value, f)))))
            && (got.status == SUCCESS ==>
                  && n in s'.nets && got.serialization == Some(Serialization(s'.nets[n].id))
                  && (n in s.nets ==> s'.nets[n].id == s.nets[n].id))
            && (got.status != SUCCESS ==>
                  && got.serialization == None && s' == Open(s)
                  && got.status == if !free then INTERNAL_ERROR
                                   else if c.None? then NOT_FOUND
                                   else CREATE_FAILURE)
  {
    AcquireOutcome(s, p, n, f);
    AcquireEffect(s, p, n, f);
    match Decide(s, p, n, f)
    case Granted(id) => NetworkRoundTrip(id);
    case Denied(code) => ErrorRoundTripIff(code);
  }
}
