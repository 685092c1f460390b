/** What a broker sends over a whole run: which requests are answered, in what order, and with what. */
module Answers {
  import opened Types
  import opened Leases
  import opened Runs

  lemma {:induction false} Split(s: State, a: seq<Event>, b: seq<Event>)
    requires Accepts(s, a + b)
    ensures Accepts(s, a) && Accepts(After(s, a), b) && After(s, a + b) == After(After(s, a), b)
    ensures AllReplies(s, a + b) == AllReplies(s, a) + AllReplies(After(s, a), b)
    decreases |a|
  {
    if a == [] {
      assert a + b == b;
    } else {
      assert (a + b)[1..] == a[1..] + b;
      Split(Step(s, a[0]), a[1..], b);
    }
  }

  /** The requests with a return address among the first `k` events. */
  function Asking(events: seq<Event>, k: nat): set<int>
    requires k <= |events|
  {
    set i | 0 <= i < k && events[i].Request? && events[i].message.replyTo
  }

  lemma AskingLast(events: seq<Event>, e: Event)
    ensures var n, asks := |events|, e.Request? && e.message.replyTo;
            && Asking(events + [e], n) == Asking(events, n)
            && Asking(events + [e], n + 1) == Asking(events, n) + (if asks then {n} else {})
            && |Asking(events + [e], n + 1)| == |Asking(events, n)| + if asks then 1 else 0
  {
    var n := |events|;
    var all := events + [e];
    assert forall i | 0 <= i < n :: all[i] == events[i];
    assert all[n] == e;
    assert n !in Asking(events, n);
    assert Asking(all, n + 1) == Asking(events, n) + (if e.Request? && e.message.replyTo then {n} else {});
  }

  lemma {:induction false} ReplyCount(s: State, events: seq<Event>)
    requires Accepts(s, events)
    ensures |AllReplies(s, events)| == |Asking(events, |events|)|
    decreases |events|
  {
    if events != [] {
      var n := |events| - 1;
      var es, e := events[..n], events[n];
      assert events == es + [e];
      Split(s, es, [e]);
      ReplyCount(s, es);
      AskingLast(es, e);
      assert AllReplies(After(s, es), [e]) == Replies(After(s, es), e);
    }
  }

  lemma AskingPrefix(events: seq<Event>, k: nat)
    requires k <= |events|
    ensures Asking(events, k) == Asking(events[..k], k)
  {
  }

  /** One message is sent for each request with a return address, and nothing else. The reply to a request
      comes after exactly as many others as there were such requests before it; it goes to the peer that asked
      and says what the broker decides in the state in which the request finds it. */
  lemma RepliesInOrder(s: State, events: seq<Event>, k: nat)
    requires Accepts(s, events) && k < |events|
    ensures |AllReplies(s, events)|
            == |set i | 0 <= i < |events| && events[i].Request? && events[i].message.replyTo|
    ensures Accepts(s, events[..k])
    ensures events[k].Request? && events[k].message.replyTo ==>
              var t, e := After(s, events[..k]), events[k];
              var at := |set i | 0 <= i < k && events[i].Request? && events[i].message.replyTo|;
              && at < |AllReplies(s, events)| && e.peer in t.leases
              && AllReplies(s, events)[at] == Sent(e.peer, Answer(t, e.peer, e.message, e.faults))
  {
    ReplyCount(s, events);
    assert Asking(events, |events|)
           == set i | 0 <= i < |events| && events[i].Request? && events[i].message.replyTo;
    var before, rest := events[..k], events[k..];
    assert events == before + rest;
    Split(s, before, rest);
    ReplyCount(s, before);
    AskingPrefix(events, k);
    assert Asking(events, k) == set i | 0 <= i < k && events[i].Request? && events[i].message.replyTo;
  }

  /** Every message that is sent is the reply to some request. */
  lemma {:induction false} EveryReply(s: State, events: seq<Event>, at: nat) returns (k: nat)
    requires Accepts(s, events) && at < |AllReplies(s, events)|
    ensures k < |events| && events[k].Request? && events[k].message.replyTo
    ensures at == |set i | 0 <= i < k && events[i].Request? && events[i].message.replyTo|
    decreases |events|
  {
    var n := |events| - 1;
    var es, e := events[..n], events[n];
    assert events == es + [e];
    Split(s, es, [e]);
    ReplyCount(s, es);
    if at < |AllReplies(s, es)| {
      k := EveryReply(s, es, at);
      assert (set i | 0 <= i < k && es[i].Request? && es[i].message.replyTo)
             == set i | 0 <= i < k && events[i].Request? && events[i].message.replyTo;
    } else {
      k := n;
      AskingPrefix(events, n);
      assert AllReplies(After(s, es), [e]) == Replies(After(s, es), e);
      assert Asking(events, n) == set i | 0 <= i < n && events[i].Request? && events[i].message.replyTo;
    }
  }

  lemma RunPrefix(r: Run, k: nat)
    requires IsRun(r) && k < |r.states|
    ensures Accepts(r.states[0], r.events[..k]) && After(r.states[0], r.events[..k]) == r.states[k]
  {
    var prefix := Run(r.states[..k + 1], r.events[..k]);
    forall i | 0 <= i < k ensures StepAt(prefix, i) {
      assert StepAt(r, i);
    }
    RunIsAccepted(prefix, 0);
    assert r.events[..k][0..] == r.events[..k];
  }

  /** The same for a run, in terms of its states. */
  lemma RunReplies(r: Run, k: nat)
    requires IsRun(r) && k < |r.events| && r.events[k].Request? && r.events[k].message.replyTo
    ensures Accepts(r.states[0], r.events)
    ensures var e := r.events[k];
            var sent := AllReplies(r.states[0], r.events);
            var at := |set i | 0 <= i < k && r.events[i].Request? && r.events[i].message.replyTo|;
            && at < |sent| && e.peer in r.states[k].leases
            && sent[at] == Sent(e.peer, Answer(r.states[k], e.peer, e.message, e.faults))
  {
    RunIsAccepted(r, 0);
    assert r.events[0..] == r.events;
    RunPrefix(r, k);
    RepliesInOrder(r.states[0], r.events, k);
  }
}
