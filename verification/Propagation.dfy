/** A trace through a chain of services: the head decides, and every hop follows. */
module Propagation {
  import opened Spans
  import opened TraceContext
  import opened Tracing

  /** How a service passes the trace on: the header of an HTTP call, or the carrier of a queued job. */
  datatype Link = HttpCall | QueuedJob

  /** A service of the chain, with the link it uses for the next one and the ids it mints. */
  datatype Hop = Hop(cfg: Config, link: Link, freshTraceID: string, spanID: string)

  /** What the next service receives from RoundTrip or Enqueue; "" when nothing is sent. */
  function Sent(hop: Hop, head: Head): string {
    match hop.link
    case HttpCall =>
      (match Outbound(hop.cfg, head.traceID, head.sampled, hop.spanID)
       case Some(header) => header
       case None => "")
    case QueuedJob => Carrier(head.traceID, head.sampled, hop.spanID)
  }

  /** What a service makes of its predecessor's decision. */
  type Reception = (Hop, Hop, Head) -> Head

  /** startRoot on what was sent. */
  function Receive(): Reception {
    (sender: Hop, receiver: Hop, head: Head) => Decide(receiver.cfg, Sent(sender, head), receiver.freshTraceID)
  }

  /** The head decision of the n-th service of a chain whose first service decided `first`. */
  function HeadAt(receive: Reception, hops: seq<Hop>, first: Head, n: nat): Head
    requires n < |hops|
  {
    if n == 0 then first else receive(hops[n - 1], hops[n], HeadAt(receive, hops, first, n - 1))
  }

  predicate Minted(hops: seq<Hop>) {
    forall i :: 0 <= i < |hops| ==> ValidID(hops[i].freshTraceID, 32) && ValidID(hops[i].spanID, 16)
  }

  /** Every HTTP call of the chain is made by an enabled service. */
  predicate Unbroken(hops: seq<Hop>) {
    forall i :: 0 <= i < |hops| - 1 ==> hops[i].link.QueuedJob? || hops[i].cfg.enabled
  }

  /** The services after the first, up to n, are enabled. */
  predicate EnabledUpTo(hops: seq<Hop>, n: nat)
    requires n < |hops|
  {
    forall i :: 1 <= i <= n ==> hops[i].cfg.enabled
  }

  /** A link that carries the trace: the receiver has the sender's trace id, the id in the header as its
      root's parent, and the sender's decision as far as it is enabled itself; its own rate plays no part. */
  predicate Carries(receive: Reception, sender: Hop, receiver: Hop, head: Head) {
    receive(sender, receiver, head) == Head(head.traceID, sender.spanID, receiver.cfg.enabled && head.sampled)
  }

  predicate Sends(sender: Hop, head: Head) {
    ValidID(head.traceID, 32) && ValidID(sender.spanID, 16) && (sender.link.QueuedJob? || sender.cfg.enabled)
  }

  lemma LinkCarries(sender: Hop, receiver: Hop, head: Head)
    requires Sends(sender, head)
    ensures Carries(Receive(), sender, receiver, head)
  {
    ParseFormat(head.traceID, sender.spanID, head.sampled);
  }

  lemma {:induction false} CarriedAlong(receive: Reception, hops: seq<Hop>, first: Head, n: nat)
    requires forall s, r, h :: Sends(s, h) ==> Carries(receive, s, r, h)
    requires Minted(hops) && Unbroken(hops) && ValidID(first.traceID, 32) && n < |hops|
    ensures HeadAt(receive, hops, first, n).traceID == first.traceID
    ensures HeadAt(receive, hops, first, n).sampled <==> first.sampled && EnabledUpTo(hops, n)
    ensures n > 0 ==> HeadAt(receive, hops, first, n).parentSpanID == hops[n - 1].spanID
  {
    if n == 0 {
    } else {
      CarriedAlong(receive, hops, first, n - 1);
      var h := HeadAt(receive, hops, first, n - 1);
      assert Sends(hops[n - 1], h);
      assert Carries(receive, hops[n - 1], hops[n], h);
    }
  }

  /** Along an unbroken chain of any length, every service has the head's trace id, its root's parent is the
      span id its caller sent, and it is sampled exactly when the head is and no service up to it is disabled. */
  lemma ChainFollowsHead(hops: seq<Hop>, first: Head, n: nat)
    requires Minted(hops) && Unbroken(hops) && ValidID(first.traceID, 32) && n < |hops|
    ensures HeadAt(Receive(), hops, first, n).traceID == first.traceID
    ensures HeadAt(Receive(), hops, first, n).sampled <==> first.sampled && EnabledUpTo(hops, n)
    ensures n > 0 ==> HeadAt(Receive(), hops, first, n).parentSpanID == hops[n - 1].spanID
  {
    forall s, r, h | Sends(s, h) ensures Carries(Receive(), s, r, h) { LinkCarries(s, r, h); }
    CarriedAlong(Receive(), hops, first, n);
  }

  /** Among enabled services the head's decision is everybody's, whatever their own rates. */
  lemma EnabledChainSharesDecision(hops: seq<Hop>, first: Head, n: nat)
    requires Minted(hops) && ValidID(first.traceID, 32) && n < |hops|
    requires forall i :: 0 <= i < |hops| ==> hops[i].cfg.enabled
    ensures HeadAt(Receive(), hops, first, n).traceID == first.traceID
    ensures HeadAt(Receive(), hops, first, n).sampled == first.sampled
  {
    ChainFollowsHead(hops, first, n);
  }

  /** A disabled service that enqueues a job ends the sampling of a trace its caller kept: exactly then
      does a chain of queued jobs lose the decision. */
  lemma QueueChainKeepsDecisionIff(hops: seq<Hop>, first: Head, n: nat)
    requires Minted(hops) && ValidID(first.traceID, 32) && n < |hops| && first.sampled
    requires forall i :: 0 <= i < |hops| ==> hops[i].link.QueuedJob?
    ensures HeadAt(Receive(), hops, first, n).sampled <==> EnabledUpTo(hops, n)
  {
    ChainFollowsHead(hops, first, n);
  }

  const TRACE := "4bf92f3577b34da6a3ce929d0e0e4736"
  const SPAN := "00f067aa0ba902b7"

  /** A service that queues a job for the next one and keeps every trace that it starts. */
  function Queueing(enabled: bool): Hop {
    Hop(Config(enabled, 1.0, 1000), QueuedJob, TRACE, SPAN)
  }

  lemma IdsAreValid()
    ensures ValidID(TRACE, 32) && ValidID(SPAN, 16)
  {
    assert TRACE[0] == '4' && SPAN[2] == 'f';
  }

  /** One disabled service between two enabled ones: the last one continues the trace and does not sample it. */
  lemma DisabledServiceBetween()
    ensures var hops := [Queueing(true), Queueing(false), Queueing(true)];
            HeadAt(Receive(), hops, Head(TRACE, "", true), 2) == Head(TRACE, SPAN, false)
  {
    var hops, first := [Queueing(true), Queueing(false), Queueing(true)], Head(TRACE, "", true);
    IdsAreValid();
    assert !hops[1].cfg.enabled;
    hide ValidID, Receive, HeadAt;
    ChainFollowsHead(hops, first, 2);
  }

  // ---------- one link, with the spans ----------

  /** The state of a request is that of a service with this head decision. */
  ghost predicate Follows(st: RequestState, head: Head)
    reads st, st.rootSpan, st.rawSpans
  {
    && st.Valid() && st.traceID == head.traceID && st.sampled == head.sampled
    && (st.rootSpan != null ==> st.rootSpan.parentSpanID == head.parentSpanID)
  }

  /** The last child that a service recorded. */
  ghost function LastSpan(st: RequestState): string
    reads st, st.rawSpans
    requires st.rawSpans != []
  {
    st.rawSpans[|st.rawSpans| - 1].spanID
  }

  ghost predicate Recording(st: RequestState)
    reads st
  {
    st.sampled && |st.rawSpans| < st.cfg.maxSpans
  }

  /** What RoundTrip or Enqueue gives to the next service. */
  method Send(caller: RequestState, sender: Hop, ghost head: Head, name: string, startNs: int, endNs: int, now: int)
    returns (sent: string)
    requires Follows(caller, head) && caller.cfg == sender.cfg && Sends(sender, head)
    modifies caller`rawSpans
    ensures Follows(caller, head) && sent == Sent(sender, head)
    ensures old(Recording(caller)) ==>
              |caller.rawSpans| == |old(caller.rawSpans)| + 1 && LastSpan(caller) == sender.spanID
  {
    sent := "";
    if sender.link.HttpCall? {
      var header := caller.RoundTrip(name, sender.spanID, startNs, endNs);
      if header.Some? { sent := header.value; }
    } else {
      sent := caller.Enqueue(name, sender.spanID, now);
    }
  }

  /** A call from one service to the next: what RoundTrip or Enqueue sends is what startRoot gets. The
      receiver follows the decision that the chain gives it, and the parent of its root is the child span
      that the caller recorded for the call, if it records any. */
  method Call(caller: RequestState, sender: Hop, receiver: Hop, ghost head: Head, policy: Policy, name: string,
              kind: int, category: string, startNs: int, endNs: int, now: int) returns (callee: RequestState)
    requires Follows(caller, head) && caller.cfg == sender.cfg && Sends(sender, head)
    modifies caller`rawSpans
    ensures Follows(caller, head) && fresh(callee) && callee.cfg == receiver.cfg
    ensures Follows(callee, Receive()(sender, receiver, head))
    ensures old(Recording(caller)) ==>
              |caller.rawSpans| == |old(caller.rawSpans)| + 1 && LastSpan(caller) == sender.spanID
    ensures old(Recording(caller)) && callee.rootSpan != null ==> callee.rootSpan.parentSpanID == LastSpan(caller)
  {
    LinkCarries(sender, receiver, head);
    var sent := Send(caller, sender, head, name, startNs, endNs, now);
    hide Sent, IsHeader, Decide;
    callee := StartRoot(receiver.cfg, policy, name, sent, kind, category, sender.link.QueuedJob?,
      receiver.freshTraceID, receiver.spanID, now);
  }
}
