/**
 * What nodes learn about vector clocks, and what the clocks of their messages
 * then say: the lower half of `Counters`, for every run.
 */
module Clocks {
  import opened Messages
  import opened Receiving
  import opened Delivery
  import opened Network
  import CallBackOrder

  // ------------------------------------------------------- one transaction

  // Where a counter can come from.
  predicate FromOneOf(clocks: Clock, m: Message, peer: PeerId, counter: int) {
    || (peer in clocks && counter == clocks[peer])
    || (m.clock.Some? && peer in m.clock.value && m.clock.value[peer] >= 0 && counter == m.clock.value[peer])
    || (m.sequence.Some? && peer == m.sender && counter == m.sequence.value &&
        !(m.clock.Some? && m.sender in m.clock.value && m.clock.value[m.sender] >= 0))
  }

  // Accepting a message learns its whole clock and no more: no counter goes back,
  // every non-negative entry of the clock is reached, the sequence number counts
  // when the clock does not name the sender, and no counter is made up.
  lemma AcceptingLearns(n: Node, m: Message, now: int, peer: PeerId)
    requires m.id !in n.processed
    ensures var after := Process(n, m, now).clocks;
            && (peer in n.clocks ==> peer in after && after[peer] >= n.clocks[peer])
            && (m.clock.Some? && peer in m.clock.value && m.clock.value[peer] >= 0 ==>
                  peer in after && after[peer] >= m.clock.value[peer])
            && (m.sequence.Some? && peer == m.sender &&
                !(m.clock.Some? && peer in m.clock.value && m.clock.value[peer] >= 0) ==>
                  peer in after && after[peer] >= m.sequence.value)
            && (peer in after ==> FromOneOf(n.clocks, m, peer, after[peer]))
  {
    hide Remember;
  }

  // --------------------------------------------------------------- stamping

  ghost predicate NotBelow(clocks: Clock, clocks': Clock) {
    forall peer :: peer in clocks ==> peer in clocks' && clocks'[peer] >= clocks[peer]
  }

  // Every non-negative entry of the clock of a message has been reached.
  ghost predicate Covers(clocks: Clock, m: Message) {
    m.clock.Some? ==>
      forall peer :: peer in m.clock.value && m.clock.value[peer] >= 0 ==>
        peer in clocks && clocks[peer] >= m.clock.value[peer]
  }

  // A stamped message carries a clock that is nowhere below what the node knows
  // and that counts the message itself, and its caller's entries too; the node
  // counts the message and changes no other counter.
  lemma StampDominates(n: Node, self: PeerId, draft: Message)
    ensures var (n', m) := Stamp(n, self, draft);
            var own := 1 + if self in n.clocks then n.clocks[self] else 0;
            && m.clock.Some? && NotBelow(n.clocks, m.clock.value) && Covers(m.clock.value, draft)
            && self in m.clock.value && m.clock.value[self] >= own
            && m.sequence == (if draft.sequence.Some? then draft.sequence else Some(own))
            && m == draft.(sequence := m.sequence, clock := m.clock)
            && n' == n.(clocks := n.clocks[self := own])
            && (draft.clock.None? ==> m.clock.value == n'.clocks)
  {
    var (n', m) := Stamp(n, self, draft);
    assert draft.clock.None? ==> m.clock.value == n'.clocks;
  }

  // ------------------------------------------------------------------ runs

  ghost predicate Learned(n: Node) {
    forall m :: m in n.accepted ==> Covers(n.clocks, m)
  }

  lemma StaysCovered(clocks: Clock, clocks': Clock, m: Message)
    requires Covers(clocks, m) && NotBelow(clocks, clocks')
    ensures Covers(clocks', m)
  {
  }

  lemma ProcessLearns(n: Node, m: Message, now: int)
    requires Learned(n)
    ensures Learned(Process(n, m, now)) && NotBelow(n.clocks, Process(n, m, now).clocks)
  {
    var n' := Process(n, m, now);
    assert m.id in n.processed ==> n'.clocks == n.clocks && n'.accepted == n.accepted;
    assert m.id !in n.processed ==> n'.accepted == n.accepted + [m];
    if m.id !in n.processed {
      forall peer { AcceptingLearns(n, m, now, peer); }
    }
    hide Process, FromOneOf;
    forall a | a in n.accepted ensures Covers(n'.clocks, a) {
      StaysCovered(n.clocks, n'.clocks, a);
    }
  }

  lemma SameAccepted(n: Node, n': Node)
    requires Learned(n) && n'.accepted == n.accepted && NotBelow(n.clocks, n'.clocks)
    ensures Learned(n')
  {
    forall a | a in n'.accepted ensures Covers(n'.clocks, a) {
      StaysCovered(n.clocks, n'.clocks, a);
    }
  }

  lemma NodeStepLearns(n: Node, now: int, step: Step)
    requires Learned(n) && (step.FlushStep? ==> CanFlush(n, step.peer))
    requires step.CallBackStep? || step.LoseStep? ==> step.i < |n.waiting|
    ensures Learned(NodeAfter(n, now, step)) && NotBelow(n.clocks, NodeAfter(n, now, step).clocks)
  {
    hide Learned, Process, Stash;
    match step
    case Arrive(_, m) =>
      if Judge(n, m, now).Accepted? {
        ProcessLearns(n, m, now);
      } else {
        assert Judge(n, m, now).Buffered? ==> Stash(n, m) == n.(buffer := Stash(n, m).buffer) by { StashIs(n, m); }
        SameAccepted(n, Gate(n, m, now));
      }
    case FlushStep(_, peer) =>
      var expected := LookupOr0(n.lastSequence, peer) + 1;
      var n1 := n.(buffer := n.buffer[peer := n.buffer[peer] - {expected}]);
      SameAccepted(n, n1);
      ProcessLearns(n1, n.buffer[peer][expected], now);
    case _ =>
      SameAccepted(n, NodeAfter(n, now, step));
  }

  lemma StashIs(n: Node, m: Message)
    ensures m.sequence.Some? ==> Stash(n, m) == n.(buffer := Stash(n, m).buffer)
  {
  }

  lemma StepLearns(w: World, step: Step, q: PeerId)
    requires Enabled(w, step) && q in w.nodes && Learned(w.nodes[q])
    ensures q in Do(w, step).nodes && Learned(Do(w, step).nodes[q])
    ensures NotBelow(w.nodes[q].clocks, Do(w, step).nodes[q].clocks)
  {
    CallBackOrder.NodeOfStep(w, step, q);
    if step.node == q && step.Send? {
      StampDominates(w.nodes[q], q, step.draft);
      assert Do(w, step).nodes[q] == Stamp(w.nodes[q], q, step.draft).0 by { hide Stamp; }
      hide Do, Stamp, Learned;
      SameAccepted(w.nodes[q], Do(w, step).nodes[q]);
    } else if step.node == q {
      hide Do, NodeAfter, Learned;
      NodeStepLearns(w.nodes[q], w.time[q], step);
    }
  }

  lemma {:induction false} RunLearns(w: World, steps: seq<Step>, q: PeerId)
    requires Legal(w, steps) && q in w.nodes && Learned(w.nodes[q])
    ensures q in Exec(w, steps).nodes && Learned(Exec(w, steps).nodes[q])
    ensures NotBelow(w.nodes[q].clocks, Exec(w, steps).nodes[q].clocks)
    decreases |steps|
  {
    hide Do, Learned, Enabled;
    if steps != [] {
      StepLearns(w, steps[0], q);
      RunLearns(Do(w, steps[0]), steps[1..], q);
    }
  }

  // In every run, a node's counters are nowhere below the clock of any message
  // that it has accepted, and never go back.
  lemma AcceptedIsLearned(time: map<PeerId, int>, steps: seq<Step>, more: seq<Step>, q: PeerId)
    requires Legal(Start(time), steps) && Legal(Exec(Start(time), steps), more) && q in time
    ensures var w, w' := Exec(Start(time), steps), Exec(Exec(Start(time), steps), more);
            && q in w.nodes && q in w'.nodes
            && (forall m :: m in w.nodes[q].accepted ==> Covers(w.nodes[q].clocks, m))
            && NotBelow(w.nodes[q].clocks, w'.nodes[q].clocks)
  {
    assert Learned(EmptyNode);
    RunLearns(Start(time), steps, q);
    RunLearns(Exec(Start(time), steps), more, q);
  }

  // What a message says of its own number.
  predicate CountsItself(m: Message) {
    m.sequence.Some? && m.clock.Some? && m.sender in m.clock.value && m.clock.value[m.sender] >= m.sequence.value
  }

  ghost predicate LogsCount(sent: SendLog) {
    forall p, i :: p in sent && 0 <= i < |sent[p]| ==> CountsItself(sent[p][i])
  }

  lemma {:induction false} RunCounts(w: World, steps: seq<Step>)
    requires Legal(w, steps) && LogsCount(w.sent)
    ensures LogsCount(Exec(w, steps).sent)
    decreases |steps|
  {
    if steps != [] {
      var step := steps[0];
      hide NodeAfter, Gate, FlushOne, QueueAll;
      if step.Send? {
        StampDominates(w.nodes[step.node], step.node, step.draft);
        assert Do(w, step).sent[step.node] == w.sent[step.node] + [Stamp(w.nodes[step.node], step.node, step.draft).1];
      } else {
        assert Do(w, step).sent == w.sent;
      }
      hide Do, Stamp;
      RunCounts(Do(w, step), steps[1..]);
    }
  }

  // In every run node q's counter for p is at least the number of messages of p
  // that q has accepted, once there is one.
  lemma CounterCoversDelivered(time: map<PeerId, int>, steps: seq<Step>, p: PeerId, q: PeerId)
    requires Legal(Start(time), steps) && p in time && q in time
    ensures var w := Exec(Start(time), steps);
            && q in w.nodes
            && (Delivered(w, q, p) != [] ==> |Delivered(w, q, p)| <= LookupOr0(w.nodes[q].clocks, p))
  {
    var w := Exec(Start(time), steps);
    FifoDelivery(time, steps, p, q);
    AcceptedIsLearned(time, steps, [], q);
    assert LogsCount(Start(time).sent);
    RunCounts(Start(time), steps);
    hide Legal, Exec, Covers;
    var got := Delivered(w, q, p);
    if got != [] {
      var last := |got| - 1;
      assert CountsItself(w.sent[p][last]) && SameEnvelope(w.sent[p][last], got[last]);
      CallBackOrder.FromIs(w.nodes[q].accepted, p);
      assert got[last] in w.nodes[q].accepted && got[last].sender == p;
      CoversEntry(w.nodes[q].clocks, got[last], p);
    }
  }

  lemma CoversEntry(clocks: Clock, m: Message, peer: PeerId)
    requires Covers(clocks, m) && m.clock.Some? && peer in m.clock.value && m.clock.value[peer] >= 0
    ensures LookupOr0(clocks, peer) >= m.clock.value[peer]
  {
  }

  // Happening before shows in the clocks: in every run, what a node sends has a
  // clock that is nowhere below that of any message it has accepted, and above it
  // at the sender's own entry.
  lemma CausalOrder(time: map<PeerId, int>, steps: seq<Step>, p: PeerId, draft: Message, a: Message)
    requires Legal(Start(time), steps) && p in time && Enabled(Exec(Start(time), steps), Send(p, draft))
    requires a in Exec(Start(time), steps).nodes[p].accepted
    ensures var w' := Do(Exec(Start(time), steps), Send(p, draft));
            && p in w'.sent && w'.sent[p] != []
            && var m := w'.sent[p][|w'.sent[p]| - 1];
               && m.clock.Some? && Covers(m.clock.value, a) && p in m.clock.value
               && (a.clock.Some? && p in a.clock.value && a.clock.value[p] >= 0 ==>
                     a.clock.value[p] < m.clock.value[p])
  {
    AcceptedIsLearned(time, steps, [], p);
    hide Legal, Exec, Learned;
    var w := Exec(Start(time), steps);
    var n := w.nodes[p];
    StampDominates(n, p, draft);
    hide Stamp;
    var m := Stamp(n, p, draft).1;
    StaysCovered(n.clocks, m.clock.value, a);
  }
}
