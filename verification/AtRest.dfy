/**
 * Receives that run to their end one after another: what the out-of-order
 * buffer looks like between them, and that they are runs of the atomic steps.
 */
module AtRest {
  import opened Messages
  import opened Receiving
  import opened Delivery
  import opened Network
  import CallBackOrder

  predicate SlotAhead(n: Node, peer: PeerId, s: int, last: int)
    requires HasSlot(n, peer, s)
  {
    n.buffer[peer][s].sequence == Some(s) && n.buffer[peer][s].sender == peer && s > last + 1
  }

  // Between receives every buffered message sits under its own number, still
  // has a gap before it, and no peer holds more than 512 of them.
  ghost predicate Settled(n: Node) {
    && (forall peer, s :: HasSlot(n, peer, s) ==> SlotAhead(n, peer, s, LookupOr0(n.lastSequence, peer)))
    && (forall peer :: peer in n.buffer ==> |n.buffer[peer]| <= MAX_BUFFERED_OUT_OF_ORDER)
  }

  // The same, while the messages of one peer are being flushed.
  ghost predicate Flushing(n: Node, active: PeerId) {
    && (forall peer, s :: HasSlot(n, peer, s) ==>
          SlotAhead(n, peer, s, LookupOr0(n.lastSequence, peer) - if peer == active then 1 else 0))
    && (forall peer :: peer in n.buffer ==> |n.buffer[peer]| <= MAX_BUFFERED_OUT_OF_ORDER)
  }

  lemma PutBounded(slots: map<int, Message>, s: int, m: Message)
    requires |slots| <= MAX_BUFFERED_OUT_OF_ORDER
    ensures |BufferPut(slots, s, m)| <= MAX_BUFFERED_OUT_OF_ORDER
  {
    var grown := slots[s := m];
    assert grown.Keys == slots.Keys + {s};
    assert |grown.Keys| <= |slots.Keys| + 1;
    if |grown| > MAX_BUFFERED_OUT_OF_ORDER {
      SlotRemoved(grown, Least(grown.Keys));
    }
  }

  lemma StashSettled(n: Node, m: Message)
    requires Settled(n) && m.sequence.Some? && m.sequence.value > LookupOr0(n.lastSequence, m.sender) + 1
    ensures Settled(Stash(n, m))
  {
    var n', s := Stash(n, m), m.sequence.value;
    forall peer, t | HasSlot(n', peer, t) ensures SlotAhead(n', peer, t, LookupOr0(n'.lastSequence, peer)) {
      if peer != m.sender || t != s {
        assert HasSlot(n, peer, t);
      }
    }
    PutBounded(SlotsOf(n, m.sender), s, m);
  }

  // Accepting the next message of a peer moves that peer's gap by at most one.
  lemma ProcessFlushing(n: Node, m: Message, now: int)
    requires Settled(n) && Acceptable(n, m, now)
    ensures Flushing(Process(n, m, now), m.sender)
  {
    var n' := Process(n, m, now);
    forall peer, s | HasSlot(n', peer, s)
      ensures SlotAhead(n', peer, s, LookupOr0(n'.lastSequence, peer) - if peer == m.sender then 1 else 0)
    {
      assert HasSlot(n, peer, s);
    }
  }

  function WithoutSlot(n: Node, peer: PeerId, s: int): Node
    requires peer in n.buffer
  {
    n.(buffer := n.buffer[peer := n.buffer[peer] - {s}])
  }

  lemma SlotsLeft(n: Node, peer: PeerId, s: int)
    requires peer in n.buffer
    ensures forall q, t :: HasSlot(WithoutSlot(n, peer, s), q, t) ==>
      HasSlot(n, q, t) && WithoutSlot(n, peer, s).buffer[q][t] == n.buffer[q][t] && (q != peer || t != s)
  {
  }

  lemma TakeSlot(n: Node, peer: PeerId)
    requires Flushing(n, peer) && CanFlush(n, peer)
    ensures Settled(WithoutSlot(n, peer, LookupOr0(n.lastSequence, peer) + 1))
  {
    var s := LookupOr0(n.lastSequence, peer) + 1;
    var n' := WithoutSlot(n, peer, s);
    SlotsLeft(n, peer, s);
    SlotRemoved(n.buffer[peer], s);
    hide WithoutSlot, HasSlot;
    forall q, t | HasSlot(n', q, t) ensures SlotAhead(n', q, t, LookupOr0(n'.lastSequence, q)) {
      assert HasSlot(n, q, t);
    }
    assert forall q :: q in n'.buffer ==> |n'.buffer[q]| <= MAX_BUFFERED_OUT_OF_ORDER by { SizesLeft(n, peer, s); }
  }

  lemma SizesLeft(n: Node, peer: PeerId, s: int)
    requires peer in n.buffer && s in n.buffer[peer]
    requires forall q :: q in n.buffer ==> |n.buffer[q]| <= MAX_BUFFERED_OUT_OF_ORDER
    ensures forall q :: q in WithoutSlot(n, peer, s).buffer ==>
      |WithoutSlot(n, peer, s).buffer[q]| <= MAX_BUFFERED_OUT_OF_ORDER
  {
    SlotRemoved(n.buffer[peer], s);
  }

  lemma DropSettles(n: Node, peer: PeerId)
    requires Flushing(n, peer) && !CanFlush(n, peer)
    ensures Settled(DropIfEmpty(n, peer))
  {
    var n' := DropIfEmpty(n, peer);
    forall q, t | HasSlot(n', q, t) ensures SlotAhead(n', q, t, LookupOr0(n'.lastSequence, q)) {
      assert HasSlot(n, q, t);
    }
  }

  // A loop that stops anywhere leaves a settled buffer exactly when it stops at
  // a gap.
  lemma SettledIff(n: Node, peer: PeerId)
    requires Flushing(n, peer)
    ensures Settled(n) <==> !CanFlush(n, peer)
  {
    if CanFlush(n, peer) {
      assert HasSlot(n, peer, LookupOr0(n.lastSequence, peer) + 1);
    }
  }

  lemma SameSlots(n: Node, n': Node, peer: PeerId)
    requires n' == n.(waiting := n'.waiting, handled := n'.handled, lost := n'.lost)
    ensures Flushing(n, peer) == Flushing(n', peer) && CanFlush(n, peer) == CanFlush(n', peer)
  {
    assert forall q, s :: HasSlot(n, q, s) == HasSlot(n', q, s);
  }

  lemma AcceptFlushing(n: Node, m: Message, now: int, outcome: Outcome)
    requires Settled(n) && Acceptable(n, m, now)
    ensures Flushing(Accept(n, m, now, outcome), m.sender)
    ensures CanFlush(Accept(n, m, now, outcome), m.sender) <==> CanFlush(Process(n, m, now), m.sender)
  {
    ProcessFlushing(n, m, now);
    OutcomeIsHistory(n, m, now, outcome);
    SameSlots(Process(n, m, now), Accept(n, m, now, outcome), m.sender);
  }

  lemma NextSlot(n: Node, peer: PeerId, now: int)
    requires Flushing(n, peer) && CanFlush(n, peer)
    ensures var s := LookupOr0(n.lastSequence, peer) + 1;
            && n.buffer[peer][s].sender == peer
            && Settled(WithoutSlot(n, peer, s)) && Acceptable(WithoutSlot(n, peer, s), n.buffer[peer][s], now)
  {
    var s := LookupOr0(n.lastSequence, peer) + 1;
    assert HasSlot(n, peer, s);
    assert SlotAhead(n, peer, s, s - 2);
    TakeSlot(n, peer);
    hide Settled, Flushing;
  }

  lemma NextFlushing(n: Node, peer: PeerId, now: int, outcome: Outcome)
    requires Flushing(n, peer) && CanFlush(n, peer)
    ensures Flushing(FlushNext(n, peer, now, outcome), peer)
    ensures CanFlush(FlushNext(n, peer, now, outcome), peer) <==> CanFlush(FlushNext(n, peer, now, Succeeds), peer)
  {
    hide Accept, Process, Settled, Flushing, Acceptable, FlushNext;
    NextSlot(n, peer, now);
    var s := LookupOr0(n.lastSequence, peer) + 1;
    var m, n1 := n.buffer[peer][s], WithoutSlot(n, peer, s);
    NextIs(n, n1, peer, now, outcome);
    NextIs(n, n1, peer, now, Succeeds);
    hide *;
    AcceptFlushing(n1, m, now, outcome);
    AcceptFlushing(n1, m, now, Succeeds);
  }

  lemma {:induction false} FlushLoopSettles(n: Node, peer: PeerId, now: int, out: Outcomes, k: nat)
    requires Flushing(n, peer)
    ensures Settled(FlushLoop(n, peer, now, out, k)) <==> AllSucceed(out, k, k + Iterations(n, peer, now) - 1)
    decreases |SlotsOf(n, peer)|
  {
    hide FlushNext, Settled, Flushing;
    if CanFlush(n, peer) {
      var n' := FlushNext(n, peer, now, out(k));
      NextFlushing(n, peer, now, out(k));
      NextShrinks(n, peer, now, out(k));
      if out(k).Succeeds? {
        FlushLoopSettles(n', peer, now, out, k + 1);
      } else {
        SettledIff(n', peer);
      }
    } else {
      DropSettles(n, peer);
    }
  }

  // The flush loop leaves the buffer settled exactly when no message fails in it
  // before the last one that can be flushed.
  lemma FlushSettles(n: Node, peer: PeerId, now: int, out: Outcomes, k: nat)
    requires Flushing(n, peer)
    ensures Settled(Flush(n, peer, now, out, k)) <==> AllSucceed(out, k, k + Iterations(n, peer, now) - 1)
  {
    if SlotsOf(n, peer) == map[] {
      assert forall s :: !HasSlot(n, peer, s);
    } else {
      FlushLoopSettles(n, peer, now, out, k);
    }
  }

  // Some message fails while the one after it lies in the buffer: the message
  // that arrives, or one that its acceptance lets out of the buffer.
  ghost predicate CutShort(n: Node, m: Message, now: int, out: Outcomes) {
    Judge(n, m, now).Accepted? &&
    !AllSucceed(out, 0, Iterations(Accept(n, m, now, Succeeds), m.sender, now))
  }

  lemma GatesChecked(n: Node, m: Message, now: int)
    ensures Judge(n, m, now).Accepted? ==> Acceptable(n, m, now)
    ensures Judge(n, m, now).Buffered? ==>
      m.sequence.Some? && m.sequence.value > LookupOr0(n.lastSequence, m.sender) + 1
  {
  }

  // Every receive, of any message at any time, keeps the buffer settled if and
  // only if it is not cut short.
  lemma ReceiveSettlesIff(n: Node, m: Message, now: int, out: Outcomes)
    requires Settled(n)
    ensures Settled(Receiving.Receive(n, m, now, out)) <==> !CutShort(n, m, now, out)
  {
    GatesChecked(n, m, now);
    hide Judge, Accept, Process, Stash, Flush, Settled, Flushing;
    if Judge(n, m, now).Accepted? {
      var n' := Accept(n, m, now, out(0));
      AcceptFlushing(n, m, now, out(0));
      AcceptFlushing(n, m, now, Succeeds);
      if out(0).Succeeds? {
        FlushSettles(n', m.sender, now, out, 1);
      } else {
        SettledIff(n', m.sender);
      }
    } else if Judge(n, m, now).Buffered? {
      StashSettled(n, m);
    }
  }

  // When the message that arrives fails, the buffer is settled exactly if that
  // message is not followed by one in the buffer.
  lemma OwnFailureIff(n: Node, m: Message, now: int, out: Outcomes)
    requires Settled(n) && Judge(n, m, now).Accepted? && !out(0).Succeeds?
    ensures Settled(Receiving.Receive(n, m, now, out)) <==> !CanFlush(Gate(n, m, now), m.sender)
  {
    GatesChecked(n, m, now);
    hide Judge, Accept, Process, Settled, Flushing;
    AcceptFlushing(n, m, now, out(0));
    SettledIff(Accept(n, m, now, out(0)), m.sender);
  }

  // ------------------------------------------------------------------ runs

  datatype Event = Arrival(m: Message, now: int, out: Outcomes) | Reset

  ghost function OneEvent(n: Node, event: Event): Node {
    match event
    case Arrival(m, now, out) => Receiving.Receive(n, m, now, out)
    case Reset => Restart(n)
  }

  ghost function After(n: Node, events: seq<Event>): Node {
    if |events| == 0 then n else OneEvent(After(n, events[..|events| - 1]), events[|events| - 1])
  }

  ghost predicate EventCutShort(n: Node, event: Event) {
    event.Arrival? && CutShort(n, event.m, event.now, event.out)
  }

  // After every prefix of the run.
  ghost predicate AlwaysSettled(events: seq<Event>) {
    forall k :: 0 <= k <= |events| ==> Settled(After(EmptyNode, events[..k]))
  }

  ghost predicate NoneCutShort(events: seq<Event>) {
    forall k :: 0 <= k < |events| ==> !EventCutShort(After(EmptyNode, events[..k]), events[k])
  }

  lemma PrefixOfFront(events: seq<Event>, k: nat)
    requires k < |events|
    ensures events[..|events| - 1][..k] == events[..k]
  {
  }

  // In every run of whole receives and restarts the buffers are settled all
  // along if and only if no receive is cut short.
  lemma {:induction false} AlwaysSettledIff(events: seq<Event>)
    ensures AlwaysSettled(events) <==> NoneCutShort(events)
  {
    hide Settled, OneEvent, EventCutShort;
    if |events| == 0 {
      assert Settled(EmptyNode) by { EmptyIsSettled(); }
      assert forall k :: 0 <= k <= |events| ==> events[..k] == events;
    } else {
      var front, last := events[..|events| - 1], events[|events| - 1];
      AlwaysSettledIff(front);
      assert events[..|events|] == events;
      forall k: nat | k < |events| ensures front[..k] == events[..k] {
        PrefixOfFront(events, k);
      }
      assert AlwaysSettled(events) <==> AlwaysSettled(front) && Settled(After(EmptyNode, events)) by {
        assert forall k :: 0 <= k <= |front| ==> front[..k] == events[..k];
      }
      assert NoneCutShort(events) <==> NoneCutShort(front) && !EventCutShort(After(EmptyNode, front), last) by {
        assert forall k :: 0 <= k < |front| ==> front[k] == events[k];
      }
      if AlwaysSettled(front) {
        assert front[..|front|] == front;
        assert Settled(After(EmptyNode, front));
        EventSettlesIff(After(EmptyNode, front), last);
      }
    }
  }

  lemma EmptyIsSettled()
    ensures Settled(EmptyNode)
  {
  }

  lemma EventSettlesIff(n: Node, event: Event)
    requires Settled(n)
    ensures Settled(OneEvent(n, event)) <==> !EventCutShort(n, event)
  {
    match event
    case Arrival(m, now, out) => ReceiveSettlesIff(n, m, now, out);
    case Reset =>
  }

  // ------------------------------------------------- with interleaving

  // The part that holds at every await as well.
  ghost predicate Bounded(n: Node) {
    forall peer :: peer in n.buffer ==> |n.buffer[peer]| <= MAX_BUFFERED_OUT_OF_ORDER
  }

  lemma StashBounded(n: Node, m: Message)
    requires Bounded(n) && m.sequence.Some?
    ensures Bounded(Stash(n, m))
  {
    PutBounded(SlotsOf(n, m.sender), m.sequence.value, m);
    hide BufferPut;
  }

  lemma FlushOneBounded(n: Node, peer: PeerId, now: int)
    requires Bounded(n) && CanFlush(n, peer)
    ensures Bounded(FlushOne(n, peer, now))
  {
    SlotRemoved(n.buffer[peer], LookupOr0(n.lastSequence, peer) + 1);
  }

  lemma NodeStepBounded(n: Node, now: int, step: Step)
    requires Bounded(n) && (step.FlushStep? ==> CanFlush(n, step.peer))
    requires step.CallBackStep? || step.LoseStep? ==> step.i < |n.waiting|
    ensures Bounded(NodeAfter(n, now, step))
  {
    hide FlushOne, Stash;
    match step
    case Arrive(_, m) =>
      if Judge(n, m, now).Buffered? {
        StashBounded(n, m);
      }
    case FlushStep(_, peer) => FlushOneBounded(n, peer, now);
    case _ =>
  }

  lemma {:induction false} RunBounded(w: World, steps: seq<Step>, q: PeerId)
    requires Legal(w, steps) && q in w.nodes && Bounded(w.nodes[q])
    ensures q in Exec(w, steps).nodes && Bounded(Exec(w, steps).nodes[q])
    decreases |steps|
  {
    if steps != [] {
      CallBackOrder.NodeOfStep(w, steps[0], q);
      if steps[0].node == q && !steps[0].Send? {
        NodeStepBounded(w.nodes[q], w.time[q], steps[0]);
      }
      assert Bounded(Do(w, steps[0]).nodes[q]);
      hide Do, Bounded;
      RunBounded(Do(w, steps[0]), steps[1..], q);
    }
  }

  // In every interleaved run: no peer has more than 512 messages in the buffer,
  // and each of them lies under its own sequence number and sender.
  lemma BuffersBounded(time: map<PeerId, int>, steps: seq<Step>, q: PeerId, peer: PeerId)
    requires Legal(Start(time), steps) && q in time
    ensures var w := Exec(Start(time), steps);
            q in w.nodes && (peer in w.nodes[q].buffer ==>
              var slots := w.nodes[q].buffer[peer];
              && |slots| <= MAX_BUFFERED_OUT_OF_ORDER
              && forall s :: s in slots ==> slots[s].sequence == Some(s) && slots[s].sender == peer)
  {
    RunBounded(Start(time), steps, q);
    StartOk(time);
    RunKeeps(Start(time), steps);
    hide WorldOk, Exec, Legal, NodeOk;
    var w := Exec(Start(time), steps);
    At(w, q);
    if peer in w.nodes[q].buffer {
      SlotsAt(w.nodes[q], w.time[q], w.sent, peer);
    }
  }

  lemma SlotsAt(n: Node, now: int, sent: SendLog, peer: PeerId)
    requires NodeOk(n, now, sent) && peer in n.buffer
    ensures forall s :: s in n.buffer[peer] ==> n.buffer[peer][s].sequence == Some(s) && n.buffer[peer][s].sender == peer
  {
    assert forall s :: s in n.buffer[peer] ==> HasSlot(n, peer, s);
  }

  // ---------------------------------------------- whole receives are runs

  ghost predicate Present(w: World, p: PeerId) {
    p in w.nodes && p in w.time && p in w.pending && p in w.sent
  }

  // The rest of an acceptance is at most one step: the callback, or its loss.
  lemma FinishIsRun(w: World, p: PeerId, n: Node, outcome: Outcome) returns (steps: seq<Step>)
    requires Present(w, p)
    ensures Legal(w, steps) && Exec(w, steps) == Put(w, p, Finish(n, w.nodes[p], outcome))
  {
    hide CallBack, LoseCallBack;
    if |w.nodes[p].waiting| <= |n.waiting| {
      Nothing(w);
      assert w.nodes[p := w.nodes[p]] == w.nodes;
      return [];
    }
    var step := if outcome.AckFails? then LoseStep(p, |n.waiting|) else CallBackStep(p, |n.waiting|);
    Nothing(Do(w, step));
    Prepend(w, step, []);
    steps := [step] + [];
  }

  lemma StepThenFinish(w: World, p: PeerId, step: Step, n: Node, accepted: Node, outcome: Outcome)
    returns (steps: seq<Step>)
    requires Present(w, p) && Enabled(w, step) && Do(w, step) == Put(w, p, accepted)
    ensures Legal(w, steps) && Exec(w, steps) == Put(w, p, Finish(n, accepted, outcome))
  {
    hide Do, Finish, Enabled, Legal, Exec;
    var rest := FinishIsRun(Do(w, step), p, n, outcome);
    Prepend(w, step, rest);
    steps := [step] + rest;
    assert Put(Put(w, p, accepted), p, Finish(n, accepted, outcome)) == Put(w, p, Finish(n, accepted, outcome)) by {
      PutTwice(w, p, accepted, Finish(n, accepted, outcome));
    }
  }

  lemma PutTwice(w: World, p: PeerId, n: Node, n': Node)
    ensures Put(Put(w, p, n), p, n') == Put(w, p, n')
  {
    assert w.nodes[p := n][p := n'] == w.nodes[p := n'];
  }

  lemma OneIterationIsRun(w: World, p: PeerId, peer: PeerId, outcome: Outcome) returns (steps: seq<Step>)
    requires Present(w, p) && CanFlush(w.nodes[p], peer)
    ensures Legal(w, steps)
    ensures Exec(w, steps) == Put(w, p, FlushNext(w.nodes[p], peer, w.time[p], outcome))
    ensures |SlotsOf(FlushNext(w.nodes[p], peer, w.time[p], outcome), peer)| < |SlotsOf(w.nodes[p], peer)|
  {
    NextShrinks(w.nodes[p], peer, w.time[p], outcome);
    hide Process, Finish, Legal, Exec, SlotsOf;
    var n, now := w.nodes[p], w.time[p];
    var expected := LookupOr0(n.lastSequence, peer) + 1;
    var n1 := n.(buffer := n.buffer[peer := n.buffer[peer] - {expected}]);
    steps := StepThenFinish(w, p, FlushStep(p, peer), n1, FlushOne(n, peer, now), outcome);
  }

  lemma LastIsStep(w: World, p: PeerId, peer: PeerId) returns (steps: seq<Step>)
    requires Present(w, p)
    ensures Legal(w, steps) && Exec(w, steps) == Put(w, p, DropIfEmpty(w.nodes[p], peer))
  {
    if peer in w.nodes[p].buffer && w.nodes[p].buffer[peer] == map[] {
      steps := [DropBuffer(p, peer)];
      assert Legal(Do(w, steps[0]), steps[1..]);
    } else {
      steps := [];
      assert w.nodes[p := w.nodes[p]] == w.nodes;
    }
  }

  // A run of the flush loop as steps of the network, failures included.
  lemma {:induction false} FlushLoopIsRun(w: World, p: PeerId, peer: PeerId, out: Outcomes, k: nat)
    returns (steps: seq<Step>)
    requires Present(w, p)
    ensures Legal(w, steps)
    ensures Exec(w, steps) == Put(w, p, FlushLoop(w.nodes[p], peer, w.time[p], out, k))
    decreases |SlotsOf(w.nodes[p], peer)|
  {
    hide FlushNext, CanFlush, DropIfEmpty, Legal, Exec;
    var n, now := w.nodes[p], w.time[p];
    if CanFlush(n, peer) {
      var first := OneIterationIsRun(w, p, peer, out(k));
      if !out(k).Succeeds? {
        return first;
      }
      var w1 := Exec(w, first);
      var rest := FlushLoopIsRun(w1, p, peer, out, k + 1);
      ExecInTwo(w, first, rest);
      steps := first + rest;
      PutTwice(w, p, w1.nodes[p], FlushLoop(w1.nodes[p], peer, now, out, k + 1));
    } else {
      steps := LastIsStep(w, p, peer);
    }
  }

  lemma FlushIsRun(w: World, p: PeerId, peer: PeerId, out: Outcomes, k: nat) returns (steps: seq<Step>)
    requires Present(w, p)
    ensures Legal(w, steps)
    ensures Exec(w, steps) == Put(w, p, Flush(w.nodes[p], peer, w.time[p], out, k))
  {
    if SlotsOf(w.nodes[p], peer) == map[] {
      steps := [];
      assert w.nodes[p := w.nodes[p]] == w.nodes;
    } else {
      steps := FlushLoopIsRun(w, p, peer, out, k);
    }
  }

  // A receive without interleaving, its callbacks and failing ACKs included, is a
  // run of the atomic steps, so every property of all runs holds of whole receives
  // as well.
  lemma ReceiveIsRun(w: World, p: PeerId, m: Message, out: Outcomes) returns (steps: seq<Step>)
    requires Present(w, p) && m in w.wire
    ensures Legal(w, steps)
    ensures Exec(w, steps) == Put(w, p, Receiving.Receive(w.nodes[p], m, w.time[p], out))
  {
    hide Process, Finish, Legal, Exec, Judge, Stash;
    var n, now := w.nodes[p], w.time[p];
    var arrive := Arrive(p, m);
    assert Do(w, arrive) == Put(w, p, Gate(n, m, now));
    if Judge(n, m, now).Accepted? {
      var first := StepThenFinish(w, p, arrive, n, Process(n, m, now), out(0));
      if !out(0).Succeeds? {
        return first;
      }
      var w1 := Exec(w, first);
      var rest := FlushIsRun(w1, p, m.sender, out, 1);
      ExecInTwo(w, first, rest);
      steps := first + rest;
      PutTwice(w, p, w1.nodes[p], Flush(w1.nodes[p], m.sender, now, out, 1));
    } else {
      Nothing(Do(w, arrive));
      Prepend(w, arrive, []);
      steps := [arrive] + [];
    }
  }
}
