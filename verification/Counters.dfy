/**
 * Vector clocks across the whole network, when nobody forges: callers preset
 * neither field of a message, and no outside peer injects anything.
 */
module Counters {
  import opened Messages
  import opened Receiving
  import opened Delivery
  import opened Network

  predicate Benign(step: Step) {
    !step.Inject? && !step.InjectOffer? && (step.Send? ==> step.draft.clock.None?)
  }

  // How many messages a peer has sent.
  function Sends(sent: SendLog, p: PeerId): nat {
    if p in sent then |sent[p]| else 0
  }

  ghost predicate Bounded(clock: Clock, sent: SendLog) {
    forall p :: p in clock ==> clock[p] <= Sends(sent, p)
  }

  ghost predicate Clean(m: Message, sent: SendLog) {
    && m.sequence.Some? && 1 <= m.sequence.value <= Sends(sent, m.sender)
    && m.clock.Some? && Bounded(m.clock.value, sent)
  }

  ghost predicate AllClean(messages: set<Message>, sent: SendLog) {
    forall m :: m in messages ==> Clean(m, sent)
  }

  ghost predicate BufferClean(n: Node, sent: SendLog) {
    forall peer, s :: HasSlot(n, peer, s) ==> Clean(n.buffer[peer][s], sent)
  }

  ghost predicate NodeClean(n: Node, p: PeerId, sent: SendLog) {
    Bounded(n.clocks, sent) && LookupOr0(n.clocks, p) == Sends(sent, p) && BufferClean(n, sent)
  }

  // The i-th message of a log carries sequence number i + 1.
  ghost predicate Numbered(log: seq<Message>, sent: SendLog) {
    forall i :: 0 <= i < |log| ==> log[i].sequence == Some(i + 1) && Clean(log[i], sent)
  }

  ghost predicate LogsNumbered(sent: SendLog) {
    forall p :: p in sent ==> Numbered(sent[p], sent) && forall m :: m in sent[p] ==> m.sender == p
  }

  ghost predicate NodesClean(w: World) {
    forall p :: p in w.nodes ==> NodeClean(w.nodes[p], p, w.sent)
  }

  ghost predicate PendingClean(w: World) {
    forall p :: p in w.pending ==> AllClean(w.pending[p].Values, w.sent)
  }

  ghost predicate OffersClean(w: World) {
    forall offer :: offer in w.offers ==> Bounded(offer.clock, w.sent) && AllClean(OfferMessages(offer), w.sent)
  }

  ghost predicate CountersOk(w: World) {
    && w.nodes.Keys == w.pending.Keys == w.sent.Keys
    && NodesClean(w)
    && LogsNumbered(w.sent)
    && AllClean(w.wire, w.sent)
    && PendingClean(w)
    && OffersClean(w)
  }

  // ---------------------------------------------------- steps of one node

  lemma ProcessClean(n: Node, m: Message, now: int, p: PeerId, sent: SendLog)
    requires NodeClean(n, p, sent) && Clean(m, sent)
    ensures NodeClean(Process(n, m, now), p, sent)
  {
    var n' := Process(n, m, now);
    assert forall peer, s :: HasSlot(n', peer, s) ==> HasSlot(n, peer, s);
    assert Bounded(ClocksAfter(n.clocks, m), sent);
  }

  lemma StashClean(n: Node, m: Message, p: PeerId, sent: SendLog)
    requires NodeClean(n, p, sent) && Clean(m, sent)
    ensures NodeClean(Stash(n, m), p, sent)
  {
    var n' := Stash(n, m);
    forall peer, s | HasSlot(n', peer, s) ensures Clean(n'.buffer[peer][s], sent) {
      if peer != m.sender || s != m.sequence.value {
        assert HasSlot(n, peer, s);
      }
    }
  }

  lemma SlotTakenClean(n: Node, peer: PeerId, s: int, p: PeerId, sent: SendLog)
    requires NodeClean(n, p, sent) && HasSlot(n, peer, s)
    ensures NodeClean(n.(buffer := n.buffer[peer := n.buffer[peer] - {s}]), p, sent)
    ensures Clean(n.buffer[peer][s], sent)
  {
    hide Bounded, Clean;
    var n' := n.(buffer := n.buffer[peer := n.buffer[peer] - {s}]);
    forall q, t | HasSlot(n', q, t) ensures Clean(n'.buffer[q][t], sent) {
      assert HasSlot(n, q, t);
    }
  }

  lemma FlushOneClean(n: Node, peer: PeerId, now: int, p: PeerId, sent: SendLog)
    requires NodeClean(n, p, sent) && CanFlush(n, peer)
    ensures NodeClean(FlushOne(n, peer, now), p, sent)
  {
    hide NodeClean, Clean, Process;
    var expected := LookupOr0(n.lastSequence, peer) + 1;
    SlotTakenClean(n, peer, expected, p, sent);
    ProcessClean(n.(buffer := n.buffer[peer := n.buffer[peer] - {expected}]), n.buffer[peer][expected], now, p, sent);
  }

  lemma MergeClean(n: Node, clock: Clock, p: PeerId, sent: SendLog)
    requires NodeClean(n, p, sent) && Bounded(clock, sent)
    ensures NodeClean(n.(clocks := Merge(n.clocks, clock)), p, sent)
  {
    var n' := n.(clocks := Merge(n.clocks, clock));
    assert forall q, s :: HasSlot(n', q, s) ==> HasSlot(n, q, s);
  }

  lemma NodeStepClean(n: Node, now: int, step: Step, p: PeerId, sent: SendLog)
    requires NodeClean(n, p, sent)
    requires step.Arrive? ==> Clean(step.m, sent)
    requires step.ApplyDelta? ==> Bounded(step.offer.clock, sent)
    requires step.FlushStep? ==> CanFlush(n, step.peer)
    requires step.CallBackStep? || step.LoseStep? ==> step.i < |n.waiting|
    ensures NodeClean(NodeAfter(n, now, step), p, sent)
  {
    var n' := NodeAfter(n, now, step);
    match step
    case Arrive(_, m) =>
      if Judge(n, m, now).Accepted? {
        ProcessClean(n, m, now, p, sent);
      } else if Judge(n, m, now).Buffered? {
        StashClean(n, m, p, sent);
      }
    case FlushStep(_, peer) => FlushOneClean(n, peer, now, p, sent);
    case ApplyDelta(_, offer) => MergeClean(n, offer.clock, p, sent);
    case _ =>
      assert forall q, s :: HasSlot(n', q, s) ==> HasSlot(n, q, s);
  }

  lemma StampClean(n: Node, p: PeerId, draft: Message, sent: SendLog)
    requires NodeClean(n, p, sent) && p in sent
    requires draft.sender == p && draft.sequence.None? && draft.clock.None?
    ensures var (n', m) := Stamp(n, p, draft);
            var sent' := sent[p := sent[p] + [m]];
            NodeClean(n', p, sent') && Clean(m, sent') && m.sequence == Some(|sent'[p]|)
  {
    var (n', m) := Stamp(n, p, draft);
    var sent' := sent[p := sent[p] + [m]];
    forall q, s | HasSlot(n', q, s) ensures Clean(n'.buffer[q][s], sent') {
      assert HasSlot(n, q, s);
      CleanGrows(n.buffer[q][s], sent, p, m);
    }
  }

  lemma CleanGrows(x: Message, sent: SendLog, p: PeerId, m: Message)
    requires Clean(x, sent) && p in sent
    ensures Clean(x, sent[p := sent[p] + [m]])
  {
  }

  // -------------------------------------------------- steps of the network

  lemma PutClean(w: World, p: PeerId, n: Node)
    requires CountersOk(w) && p in w.nodes && NodeClean(n, p, w.sent)
    ensures CountersOk(Put(w, p, n))
  {
    hide NodeClean, Numbered, AllClean, Bounded;
  }

  lemma StoreClean(w: World, p: PeerId, pending: map<MessageId, Message>)
    requires CountersOk(w) && p in w.nodes && AllClean(pending.Values, w.sent)
    ensures CountersOk(w.(pending := w.pending[p := pending]))
  {
    hide NodeClean, Numbered, AllClean, Bounded;
  }

  lemma QueueClean(pending: map<MessageId, Message>, m: Message, sent: SendLog)
    requires AllClean(pending.Values, sent) && Clean(m, sent)
    ensures AllClean(pending[m.id := m].Values, sent)
  {
    hide Clean;
    forall x | x in pending[m.id := m].Values ensures Clean(x, sent) {
      assert x == m || x in pending.Values;
    }
  }

  lemma {:induction false} QueueAllClean(
    pending: map<MessageId, Message>, processed: map<MessageId, int>, messages: seq<Message>, sent: SendLog)
    requires AllClean(pending.Values, sent)
    requires forall m :: m in messages ==> Clean(m, sent)
    ensures AllClean(QueueAll(pending, processed, messages).Values, sent)
  {
    hide Clean;
    if messages != [] {
      var front, m := messages[..|messages| - 1], messages[|messages| - 1];
      QueueAllClean(pending, processed, front, sent);
      QueueClean(QueueAll(pending, processed, front), m, sent);
    }
  }

  lemma SetGrows(messages: set<Message>, sent: SendLog, p: PeerId, m: Message)
    requires AllClean(messages, sent) && p in sent
    ensures AllClean(messages, sent[p := sent[p] + [m]])
  {
    forall x | x in messages ensures Clean(x, sent[p := sent[p] + [m]]) {
      CleanGrows(x, sent, p, m);
    }
  }

  lemma NodeGrows(n: Node, q: PeerId, sent: SendLog, p: PeerId, m: Message)
    requires NodeClean(n, q, sent) && p in sent && q != p
    ensures NodeClean(n, q, sent[p := sent[p] + [m]])
  {
    forall peer, s | HasSlot(n, peer, s) ensures Clean(n.buffer[peer][s], sent[p := sent[p] + [m]]) {
      CleanGrows(n.buffer[peer][s], sent, p, m);
    }
  }

  lemma LogsGrow(sent: SendLog, p: PeerId, m: Message)
    requires LogsNumbered(sent) && p in sent && m.sender == p
    requires Clean(m, sent[p := sent[p] + [m]]) && m.sequence == Some(|sent[p]| + 1)
    ensures LogsNumbered(sent[p := sent[p] + [m]])
  {
    var sent' := sent[p := sent[p] + [m]];
    hide Clean;
    forall q | q in sent' ensures Numbered(sent'[q], sent') {
      assert Numbered(sent[q], sent);
      forall i | 0 <= i < |sent[q]| ensures Clean(sent[q][i], sent') {
        CleanGrows(sent[q][i], sent, p, m);
      }
    }
  }

  lemma SendClean(w: World, step: Step)
    requires CountersOk(w) && step.Send? && Benign(step) && Enabled(w, step)
    ensures CountersOk(Do(w, step))
  {
    hide NodeClean, Numbered, AllClean, Bounded, Clean, LogsNumbered, Stamp;
    var p, w' := step.node, Do(w, step);
    var (n', m) := Stamp(w.nodes[p], p, step.draft);
    StampClean(w.nodes[p], p, step.draft, w.sent);
    StampKeepsSender(w.nodes[p], p, step.draft);
    LogsGrow(w.sent, p, m);
    SetGrows(w.wire, w.sent, p, m);
    forall q | q in w'.nodes ensures NodeClean(w'.nodes[q], q, w'.sent) {
      if q != p {
        NodeGrows(w.nodes[q], q, w.sent, p, m);
      }
    }
    forall q | q in w'.pending ensures AllClean(w'.pending[q].Values, w'.sent) {
      SetGrows(w.pending[q].Values, w.sent, p, m);
      QueueClean(w.pending[q], m, w'.sent);
    }
    forall offer | offer in w'.offers
      ensures Bounded(offer.clock, w'.sent) && AllClean(OfferMessages(offer), w'.sent)
    {
      SetGrows(OfferMessages(offer), w.sent, p, m);
      BoundGrows(offer.clock, w.sent, p, m);
    }
  }

  lemma StampKeepsSender(n: Node, p: PeerId, draft: Message)
    ensures Stamp(n, p, draft).1.sender == draft.sender
  {
  }

  lemma BoundGrows(clock: Clock, sent: SendLog, p: PeerId, m: Message)
    requires Bounded(clock, sent) && p in sent
    ensures Bounded(clock, sent[p := sent[p] + [m]])
  {
  }

  // What the invariant says about one node and its stores.
  lemma CleanAt(w: World, p: PeerId)
    requires CountersOk(w) && p in w.nodes
    ensures p in w.pending && p in w.sent && NodeClean(w.nodes[p], p, w.sent)
    ensures forall m :: m in w.sent[p] ==> Clean(m, w.sent) && m.sender == p
    ensures AllClean(w.pending[p].Values, w.sent)
    ensures forall m :: m in w.wire ==> Clean(m, w.sent)
    ensures forall m :: m in w.pending[p].Values ==> Clean(m, w.sent)
    ensures forall offer :: offer in w.offers ==> Bounded(offer.clock, w.sent) && AllClean(OfferMessages(offer), w.sent)
  {
    hide NodeClean, Clean;
    assert Numbered(w.sent[p], w.sent);
  }

  lemma OffersAdd(w: World, offer: Offer)
    requires CountersOk(w) && Bounded(offer.clock, w.sent) && AllClean(OfferMessages(offer), w.sent)
    ensures CountersOk(w.(offers := w.offers + {offer}))
  {
    hide NodeClean, Numbered, AllClean, Bounded;
  }

  lemma WireAdd(w: World, m: Message)
    requires CountersOk(w) && Clean(m, w.sent)
    ensures CountersOk(w.(wire := w.wire + {m}))
  {
    hide NodeClean, Numbered, Clean, Bounded, LogsNumbered;
    assert AllClean(w.wire + {m}, w.sent);
  }

  lemma AnyPayloadClean(m: Message, payload: string, sent: SendLog)
    requires Clean(m, sent)
    ensures Clean(m.(payload := payload), sent)
  {
  }

  lemma StepClean(w: World, step: Step)
    requires CountersOk(w) && Benign(step) && Enabled(w, step)
    ensures CountersOk(Do(w, step))
  {
    hide CountersOk, NodeClean, Bounded, Clean, Gate, FlushOne;
    if step.Send? {
      SendClean(w, step);
      return;
    }
    var p := step.node;
    CleanAt(w, p);
    var n := w.nodes[p];
    NodeStepClean(n, w.time[p], step, p, w.sent);
    var w1 := Put(w, p, NodeAfter(n, w.time[p], step));
    PutClean(w, p, NodeAfter(n, w.time[p], step));
    match step
    case Transmit(_, m, payload) =>
      AnyPayloadClean(m, payload, w.sent);
      WireAdd(w, m.(payload := payload));
    case Relay(_, m) =>
      QueueClean(w.pending[p], m, w.sent);
      StoreClean(w, p, w.pending[p][m.id := m]);
    case OfferDelta(_, messages) =>
      assert AllClean(OfferMessages(Offer(n.clocks, messages)), w.sent);
      ClockOf(n, p, w.sent);
      OffersAdd(w, Offer(n.clocks, messages));
    case ApplyDelta(_, offer) =>
      assert forall m :: m in offer.messages ==> m in OfferMessages(offer);
      QueueAllClean(w.pending[p], n.processed, offer.messages, w.sent);
      StoreClean(w1, p, QueueAll(w.pending[p], n.processed, offer.messages));
    case Cleanup(_, gone) =>
      assert (w.pending[p] - gone).Values <= w.pending[p].Values;
      StoreClean(w1, p, w.pending[p] - gone);
    case Tick(_, later) => TimeIsIrrelevant(w, w.time[p := later]);
    case _ =>
  }

  lemma TimeIsIrrelevant(w: World, time: map<PeerId, int>)
    requires CountersOk(w)
    ensures CountersOk(w.(time := time))
  {
    hide NodeClean, Bounded, AllClean, LogsNumbered;
  }

  lemma ClockOf(n: Node, p: PeerId, sent: SendLog)
    requires NodeClean(n, p, sent)
    ensures Bounded(n.clocks, sent)
  {
  }

  lemma {:induction false} RunClean(w: World, steps: seq<Step>)
    requires CountersOk(w) && Legal(w, steps)
    requires forall i :: 0 <= i < |steps| ==> Benign(steps[i])
    ensures CountersOk(Exec(w, steps))
    decreases |steps|
  {
    hide CountersOk;
    if steps != [] {
      StepClean(w, steps[0]);
      RunClean(Do(w, steps[0]), steps[1..]);
    }
  }

  // -------------------------------------------------------------- theorem

  // In every benign run, relayed clocks and delta syncs included, no node's
  // counter for a peer runs ahead of that peer's own counter, and a peer's own
  // counter numbers its messages 1, 2, 3, ... without gap or repetition.
  lemma CountersNeverAhead(time: map<PeerId, int>, steps: seq<Step>, p: PeerId, q: PeerId)
    requires Legal(Start(time), steps) && p in time && q in time
    requires forall i :: 0 <= i < |steps| ==> Benign(steps[i])
    ensures var w := Exec(Start(time), steps);
            && p in w.nodes && q in w.nodes && p in w.sent
            && LookupOr0(w.nodes[q].clocks, p) <= LookupOr0(w.nodes[p].clocks, p)
            && LookupOr0(w.nodes[p].clocks, p) == |w.sent[p]|
            && (forall i :: 0 <= i < |w.sent[p]| ==> w.sent[p][i].sequence == Some(i + 1))
  {
    var w0 := Start(time);
    assert CountersOk(w0) by {
      assert forall r :: r in w0.nodes ==> NodeClean(w0.nodes[r], r, w0.sent);
    }
    RunClean(w0, steps);
    NodesStay(w0, steps);
    CountersAt(Exec(w0, steps), p, q);
  }

  lemma CountersAt(w: World, p: PeerId, q: PeerId)
    requires CountersOk(w) && p in w.nodes && q in w.nodes
    ensures p in w.sent && LookupOr0(w.nodes[q].clocks, p) <= LookupOr0(w.nodes[p].clocks, p) == |w.sent[p]|
    ensures forall i :: 0 <= i < |w.sent[p]| ==> w.sent[p][i].sequence == Some(i + 1)
  {
    hide Clean, AllClean, BufferClean;
    assert NodeClean(w.nodes[p], p, w.sent) && NodeClean(w.nodes[q], q, w.sent);
    assert Numbered(w.sent[p], w.sent);
  }
}
