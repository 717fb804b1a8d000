/**
 * What the clock gate costs: when a node has learned a peer's counter before the
 * messages that it counts, by a delta sync or another peer's clock, it never
 * accepts these messages, nor anything else from that peer.
 */
module StaleClocks {
  import opened Messages
  import opened Receiving
  import opened Delivery
  import opened Network
  import CallBackOrder
  import Clocks
  import Gates
  import Overtaking

  // The clock of a message counts the message itself and nothing after it.
  predicate OwnClock(m: Message) {
    m.sequence.Some? && m.clock.Some? && m.sender in m.clock.value && m.clock.value[m.sender] == m.sequence.value
  }

  ghost predicate LogsOwn(sent: SendLog) {
    forall p, i :: p in sent && 0 <= i < |sent[p]| ==> OwnClock(sent[p][i])
  }

  // No caller presets a clock.
  ghost predicate NoPresets(steps: seq<Step>) {
    forall k :: 0 <= k < |steps| && steps[k].Send? ==> steps[k].draft.clock.None?
  }

  lemma StepOwn(w: World, step: Step)
    requires Enabled(w, step) && LogsOwn(w.sent) && (step.Send? ==> step.draft.clock.None?)
    ensures LogsOwn(Do(w, step).sent)
  {
    hide NodeAfter, Gate, FlushOne, QueueAll;
    if step.Send? {
      Clocks.StampDominates(w.nodes[step.node], step.node, step.draft);
      assert Do(w, step).sent[step.node] == w.sent[step.node] + [Stamp(w.nodes[step.node], step.node, step.draft).1];
    } else {
      assert Do(w, step).sent == w.sent;
    }
  }

  lemma {:induction false} RunOwn(w: World, steps: seq<Step>)
    requires Legal(w, steps) && LogsOwn(w.sent) && NoPresets(steps)
    ensures LogsOwn(Exec(w, steps).sent)
    decreases |steps|
  {
    hide Do, LogsOwn, Enabled;
    if steps != [] {
      StepOwn(w, steps[0]);
      RunOwn(Do(w, steps[0]), steps[1..]);
    }
  }

  // The counter for p is beyond the next message of p, which is not in the buffer.
  predicate Ahead(n: Node, p: PeerId) {
    LookupOr0(n.clocks, p) > LookupOr0(n.lastSequence, p) + 1 && !HasSlot(n, p, LookupOr0(n.lastSequence, p) + 1)
  }

  lemma LaterIsAhead(n: Node, n': Node, p: PeerId)
    requires Ahead(n, p) && LookupOr0(n'.clocks, p) >= LookupOr0(n.clocks, p)
    requires LookupOr0(n'.lastSequence, p) == LookupOr0(n.lastSequence, p)
    requires HasSlot(n', p, LookupOr0(n.lastSequence, p) + 1) ==> HasSlot(n, p, LookupOr0(n.lastSequence, p) + 1)
    ensures Ahead(n', p)
  {
  }

  // The next message of p is stale.
  lemma NextIsStale(n: Node, m: Message, now: int, p: PeerId, sent: SendLog)
    requires NodeOk(n, now, sent) && AllStamped(sent) && LogsOwn(sent) && p in sent && Ahead(n, p)
    requires Authentic(m, sent) && m.sender == p
    ensures !Judge(n, m, now).Accepted?
  {
    var j :| 0 <= j < |sent[p]| && SameEnvelope(sent[p][j], m);
    assert OwnClock(sent[p][j]) && OwnClock(m);
    assert PrefixOf(n, p, sent[p]);
  }

  lemma ProcessOther(n: Node, m: Message, now: int, p: PeerId)
    requires m.sender != p && Ahead(n, p)
    ensures Ahead(Process(n, m, now), p) && From(Process(n, m, now).accepted, p) == From(n.accepted, p)
  {
    FromSnoc(n.accepted, m, p);
    if m.id !in n.processed {
      Clocks.AcceptingLearns(n, m, now, p);
    }
  }

  lemma StashAhead(n: Node, m: Message, p: PeerId)
    requires Ahead(n, p) && m.sequence.Some? && m.sequence.value > LookupOr0(n.lastSequence, m.sender) + 1
    ensures Ahead(Stash(n, m), p) && Stash(n, m).accepted == n.accepted
  {
  }

  lemma NodeStepAhead(n: Node, now: int, step: Step, p: PeerId, sent: SendLog)
    requires NodeOk(n, now, sent) && AllStamped(sent) && LogsOwn(sent) && p in sent && Ahead(n, p)
    requires step.Arrive? ==> Authentic(step.m, sent)
    requires step.FlushStep? ==> CanFlush(n, step.peer)
    requires step.CallBackStep? || step.LoseStep? ==> step.i < |n.waiting|
    ensures Ahead(NodeAfter(n, now, step), p) && From(NodeAfter(n, now, step).accepted, p) == From(n.accepted, p)
  {
    hide Process, Stash, From, NodeOk, AllStamped, LogsOwn, Ahead, FlushOne, CanFlush;
    match step
    case Arrive(_, m) =>
      GateAhead(n, m, now, p, sent);
    case FlushStep(_, peer) =>
      FlushOneAhead(n, peer, now, p, sent);
    case _ =>
      OtherStepAhead(n, now, step, p);
  }

  lemma GateAhead(n: Node, m: Message, now: int, p: PeerId, sent: SendLog)
    requires NodeOk(n, now, sent) && AllStamped(sent) && LogsOwn(sent) && p in sent && Ahead(n, p) && Authentic(m, sent)
    ensures Ahead(Gate(n, m, now), p) && From(Gate(n, m, now).accepted, p) == From(n.accepted, p)
  {
    hide Process, Stash, From, NodeOk, AllStamped, LogsOwn, Ahead;
    if Judge(n, m, now).Accepted? {
      if m.sender == p {
        NextIsStale(n, m, now, p, sent);
      }
      ProcessOther(n, m, now, p);
    } else if Judge(n, m, now).Buffered? {
      StashAhead(n, m, p);
    }
  }

  lemma FlushOneAhead(n: Node, peer: PeerId, now: int, p: PeerId, sent: SendLog)
    requires NodeOk(n, now, sent) && p in sent && Ahead(n, p) && CanFlush(n, peer)
    ensures Ahead(FlushOne(n, peer, now), p) && From(FlushOne(n, peer, now).accepted, p) == From(n.accepted, p)
  {
    hide Process, From, PrefixOk, OnceOk, TicketsOk;
    var expected := LookupOr0(n.lastSequence, peer) + 1;
    assert HasSlot(n, peer, expected) && SlotOk(n.buffer[peer][expected], peer, expected, sent);
    var n1 := n.(buffer := n.buffer[peer := n.buffer[peer] - {expected}]);
    LaterIsAhead(n, n1, p);
    ProcessOther(n1, n.buffer[peer][expected], now, p);
  }

  lemma OtherStepAhead(n: Node, now: int, step: Step, p: PeerId)
    requires Ahead(n, p) && !step.Arrive? && !step.FlushStep?
    requires step.CallBackStep? || step.LoseStep? ==> step.i < |n.waiting|
    ensures Ahead(NodeAfter(n, now, step), p) && NodeAfter(n, now, step).accepted == n.accepted
  {
    LaterIsAhead(n, NodeAfter(n, now, step), p);
  }

  lemma StepAhead(w: World, step: Step, p: PeerId, q: PeerId)
    requires WorldOk(w) && Enabled(w, step) && LogsOwn(w.sent) && p in w.sent && q in w.nodes && p != q
    requires Ahead(w.nodes[q], p)
    ensures q in Do(w, step).nodes && Ahead(Do(w, step).nodes[q], p)
    ensures From(Do(w, step).nodes[q].accepted, p) == From(w.nodes[q].accepted, p)
  {
    hide WorldOk, NodeOk, AllStamped, LogsOwn, NodeAfter, From, AllAuthentic, Ahead, Do;
    CallBackOrder.NodeOfStep(w, step, q);
    At(w, q);
    WireAuthentic(w, step);
    if step.node == q && step.Send? {
      SendAhead(w, step, p);
    } else if step.node == q {
      NodeStepAhead(w.nodes[q], w.time[q], step, p, w.sent);
    }
  }

  lemma SendAhead(w: World, step: Step, p: PeerId)
    requires Enabled(w, step) && step.Send? && step.node != p && Ahead(w.nodes[step.node], p)
    ensures step.node in Do(w, step).nodes && Ahead(Do(w, step).nodes[step.node], p)
    ensures Do(w, step).nodes[step.node].accepted == w.nodes[step.node].accepted
  {
    var n := w.nodes[step.node];
    Clocks.StampDominates(n, step.node, step.draft);
    hide Stamp;
    LaterIsAhead(n, Stamp(n, step.node, step.draft).0, p);
  }

  lemma WireAuthentic(w: World, step: Step)
    requires AllAuthentic(w.wire, w.sent) && Enabled(w, step)
    ensures step.Arrive? ==> Authentic(step.m, w.sent)
  {
  }

  lemma {:induction false} RunAhead(w: World, steps: seq<Step>, p: PeerId, q: PeerId)
    requires WorldOk(w) && Legal(w, steps) && LogsOwn(w.sent) && NoPresets(steps)
    requires p in w.sent && q in w.nodes && p != q && Ahead(w.nodes[q], p)
    ensures q in Exec(w, steps).nodes && From(Exec(w, steps).nodes[q].accepted, p) == From(w.nodes[q].accepted, p)
    decreases |steps|
  {
    hide WorldOk, Do, LogsOwn, Enabled, Ahead, From;
    if steps != [] {
      StepKeeps(w, steps[0]);
      StepOwn(w, steps[0]);
      StepAhead(w, steps[0], p, q);
      NodesStay(w, [steps[0]] + []);
      SentStays(w, steps[0], p);
      RunAhead(Do(w, steps[0]), steps[1..], p, q);
    }
  }

  lemma SentStays(w: World, step: Step, p: PeerId)
    requires Enabled(w, step) && p in w.sent
    ensures p in Do(w, step).sent
  {
    hide NodeAfter, Gate, FlushOne, QueueAll, Stamp;
  }

  // In every run without presets: once q's counter for p is beyond the next message
  // of p, which q has not in its buffer, q accepts nothing more from p, whatever
  // happens from then on.
  lemma CounterAheadBlocks(time: map<PeerId, int>, steps: seq<Step>, more: seq<Step>, p: PeerId, q: PeerId)
    requires Legal(Start(time), steps) && Legal(Exec(Start(time), steps), more) && NoPresets(steps) && NoPresets(more)
    requires p in time && q in time && p != q && q in Exec(Start(time), steps).nodes
    requires var w := Exec(Start(time), steps);
             var k := |Delivered(w, q, p)|;
             LookupOr0(w.nodes[q].clocks, p) > k + 1 && !HasSlot(w.nodes[q], p, k + 1)
    ensures var w, w' := Exec(Start(time), steps), Exec(Exec(Start(time), steps), more);
            q in w'.nodes && Delivered(w', q, p) == Delivered(w, q, p)
  {
    hide WorldOk, Legal, Exec, NoPresets, LogsOwn, From;
    var w := Exec(Start(time), steps);
    FifoDelivery(time, steps, p, q);
    StartOk(time);
    RunKeeps(Start(time), steps);
    assert LogsOwn(Start(time).sent) by { NothingLogged(time); }
    RunOwn(Start(time), steps);
    NodesStay(Start(time), steps);
    RunAhead(w, more, p, q);
  }

  lemma NothingLogged(time: map<PeerId, int>)
    ensures LogsOwn(Start(time).sent)
  {
  }

  // And only then: in every run without presets, a timely copy of p's next message
  // with an id that q does not know is accepted if and only if q's counter for p is
  // not beyond that message.
  lemma NextIsAcceptedIff(time: map<PeerId, int>, steps: seq<Step>, p: PeerId, q: PeerId, m: Message, now: int)
    requires Legal(Start(time), steps) && NoPresets(steps) && p in time && q in time
    requires q in Exec(Start(time), steps).nodes && p in Exec(Start(time), steps).sent
    requires var w := Exec(Start(time), steps);
             |Delivered(w, q, p)| < |w.sent[p]| && SameEnvelope(w.sent[p][|Delivered(w, q, p)|], m)
             && m.sequence == Some(|Delivered(w, q, p)| + 1) && Gates.NewAndTimely(w.nodes[q], m, now)
    ensures var w := Exec(Start(time), steps);
            Gate(w.nodes[q], m, now).accepted == w.nodes[q].accepted + [m] <==>
            LookupOr0(w.nodes[q].clocks, p) <= |Delivered(w, q, p)| + 1
  {
    var w := Exec(Start(time), steps);
    FifoDelivery(time, steps, p, q);
    StartOk(time);
    RunKeeps(Start(time), steps);
    NothingLogged(time);
    RunOwn(Start(time), steps);
    At(w, q);
    SenderAt(w, p);
    hide Legal, Exec, WorldOk, NoPresets, Gate, From;
    Gates.AcceptedIff(w.nodes[q], m, now);
    assert OwnClock(w.sent[p][|Delivered(w, q, p)|]);
    assert Gates.ComesNext(w.nodes[q], m) by { NumberAt(w.nodes[q], w.time[q], w.sent, p); }
  }

  lemma SenderAt(w: World, p: PeerId)
    requires WorldOk(w) && p in w.sent
    ensures forall i :: 0 <= i < |w.sent[p]| ==> w.sent[p][i].sender == p
  {
    assert Stamped(w.sent[p], p);
  }

  lemma NumberAt(n: Node, now: int, sent: SendLog, p: PeerId)
    requires NodeOk(n, now, sent) && p in sent
    ensures var k := |From(n.accepted, p)|;
            if p in n.lastSequence then n.lastSequence[p] == k else k == 0
  {
    assert PrefixOf(n, p, sent[p]);
  }

  // ---------------------------------------------------------------- a run

  lemma TwoSent(p: PeerId, q: PeerId)
    ensures var (n1, m1) := Stamp(EmptyNode, p, Overtaking.Draft("1", p, q));
            Stamp(n1, p, Overtaking.Draft("2", p, q)).0.clocks == map[p := 2]
  {
    var (n1, m1) := Stamp(EmptyNode, p, Overtaking.Draft("1", p, q));
    assert n1.clocks == map[p := 1];
  }

  lemma TakesClock(q: PeerId, p: PeerId)
    ensures Merge(EmptyNode.clocks, map[p := 2]) == map[p := 2]
  {
  }

  // A delta sync between the sending of two messages and their arrival is enough:
  // from then on no run makes q accept anything from p.
  lemma SyncBlocks(p: PeerId, q: PeerId) returns (steps: seq<Step>)
    requires p != q
    ensures var w0 := Start(map[p := 0, q := 0]);
            && Legal(w0, steps) && |steps| == 4
            && var w := Exec(w0, steps);
               && p in w.sent && |w.sent[p]| == 2
               && forall more :: Legal(w, more) && NoPresets(more) ==>
                    q in Exec(w, more).nodes && Delivered(Exec(w, more), q, p) == []
  {
    hide Stamp;
    var time := map[p := 0, q := 0];
    var w0 := Start(time);
    var d1, d2 := Overtaking.Draft("1", p, q), Overtaking.Draft("2", p, q);
    TwoSent(p, q);
    TakesClock(q, p);
    var offer := Offer(map[p := 2], []);
    assert Legal(w0, []) && Exec(w0, []) == w0;
    Overtaking.AndThen(w0, [], Send(p, d1));
    Overtaking.AndThen(w0, [] + [Send(p, d1)], Send(p, d2));
    Overtaking.AndThen(w0, [] + [Send(p, d1)] + [Send(p, d2)], OfferDelta(p, []));
    Overtaking.AndThen(w0, [] + [Send(p, d1)] + [Send(p, d2)] + [OfferDelta(p, [])], ApplyDelta(q, offer));
    steps := [] + [Send(p, d1)] + [Send(p, d2)] + [OfferDelta(p, [])] + [ApplyDelta(q, offer)];
    var w := Exec(w0, steps);
    assert w.nodes[q].clocks == map[p := 2] && w.nodes[q].accepted == [] && w.nodes[q].buffer == map[];
    assert NoPresets(steps);
    hide Legal, Exec, NoPresets;
    forall more | Legal(w, more) && NoPresets(more)
      ensures q in Exec(w, more).nodes && Delivered(Exec(w, more), q, p) == []
    {
      CounterAheadBlocks(time, steps, more, p, q);
    }
  }
}
