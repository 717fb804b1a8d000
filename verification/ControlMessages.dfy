/**
 * ACKs and NAKs take numbers from the same counter as all other messages, but
 * no receiver ever accepts one: whatever a node sends after its first ACK or NAK
 * stays behind a gap at every other node for good.
 */
module ControlMessages {
  import opened Messages
  import opened Receiving
  import opened Delivery
  import opened Network
  import CallBackOrder

  predicate IsControl(m: Message) {
    m.kind.Ack? || m.kind.Nak?
  }

  ghost predicate NoControl(n: Node) {
    && (forall m :: m in n.accepted ==> !IsControl(m))
    && (forall peer, s :: HasSlot(n, peer, s) ==> !IsControl(n.buffer[peer][s]))
  }

  lemma ProcessNoControl(n: Node, m: Message, now: int)
    requires NoControl(n) && !IsControl(m)
    ensures NoControl(Process(n, m, now))
  {
    var n' := Process(n, m, now);
    assert forall peer, s :: HasSlot(n', peer, s) ==> HasSlot(n, peer, s);
  }

  lemma GateNoControl(n: Node, m: Message, now: int)
    requires NoControl(n)
    ensures NoControl(Gate(n, m, now))
  {
    match Judge(n, m, now)
    case Accepted => ProcessNoControl(n, m, now);
    case Buffered =>
      var n' := Stash(n, m);
      forall peer, s | HasSlot(n', peer, s) ensures !IsControl(n'.buffer[peer][s]) {
        if peer != m.sender || s != m.sequence.value {
          assert HasSlot(n, peer, s);
        }
      }
    case _ =>
  }

  lemma FewerNoControl(n: Node, n': Node)
    requires NoControl(n) && n'.accepted == n.accepted
    requires forall peer, s :: HasSlot(n', peer, s) ==>
      HasSlot(n, peer, s) && n'.buffer[peer][s] == n.buffer[peer][s]
    ensures NoControl(n')
  {
  }

  lemma FlushOneNoControl(n: Node, peer: PeerId, now: int)
    requires NoControl(n) && CanFlush(n, peer)
    ensures NoControl(FlushOne(n, peer, now))
  {
    var expected := LookupOr0(n.lastSequence, peer) + 1;
    var n' := n.(buffer := n.buffer[peer := n.buffer[peer] - {expected}]);
    assert HasSlot(n, peer, expected);
    FewerNoControl(n, n');
    ProcessNoControl(n', n.buffer[peer][expected], now);
  }

  lemma NodeStepNoControl(n: Node, now: int, step: Step)
    requires NoControl(n) && (step.FlushStep? ==> CanFlush(n, step.peer))
    requires step.CallBackStep? || step.LoseStep? ==> step.i < |n.waiting|
    ensures NoControl(NodeAfter(n, now, step))
  {
    hide Gate, FlushOne;
    match step
    case Arrive(_, m) => GateNoControl(n, m, now);
    case FlushStep(_, peer) => FlushOneNoControl(n, peer, now);
    case _ =>
      FewerNoControl(n, NodeAfter(n, now, step));
  }

  lemma {:induction false} RunNoControl(w: World, steps: seq<Step>, q: PeerId)
    requires Legal(w, steps) && q in w.nodes && NoControl(w.nodes[q])
    ensures q in Exec(w, steps).nodes && NoControl(Exec(w, steps).nodes[q])
    decreases |steps|
  {
    if steps != [] {
      var n := w.nodes[q];
      CallBackOrder.NodeOfStep(w, steps[0], q);
      if steps[0].node == q && !steps[0].Send? {
        NodeStepNoControl(n, w.time[q], steps[0]);
      } else {
        FewerNoControl(n, Do(w, steps[0]).nodes[q]);
      }
      hide Do, NoControl;
      RunNoControl(Do(w, steps[0]), steps[1..], q);
    }
  }

  // The numbers of a log are distinct, so a prefix without control messages has
  // none of the messages from the first one on.
  lemma PrefixStops(accepted: seq<Message>, log: seq<Message>, p: PeerId, i: nat)
    requires Stamped(log, p) && CopiesOfFirst(From(accepted, p), log) && i < |log| && IsControl(log[i])
    requires forall m :: m in accepted ==> !IsControl(m)
    ensures |From(accepted, p)| <= i
    ensures forall k, m :: i <= k < |log| && m in accepted ==> !SameEnvelope(log[k], m)
  {
    var got := From(accepted, p);
    CallBackOrder.FromIs(accepted, p);
    assert forall l :: 0 <= l < |got| ==> SameEnvelope(log[l], got[l]) && !IsControl(got[l]);
    forall k, l | i <= k < |log| && 0 <= l < |got| ensures !SameEnvelope(log[k], got[l]) {
      assert log[l].sequence.value < log[k].sequence.value;
    }
  }

  lemma StampedAt(w: World, p: PeerId)
    requires WorldOk(w) && p in w.sent
    ensures Stamped(w.sent[p], p)
  {
  }

  // In every run: no node has an ACK or NAK among its accepted messages, and if
  // p's i-th message is one, nobody has accepted that message or any later one.
  lemma NothingAfterControl(time: map<PeerId, int>, steps: seq<Step>, p: PeerId, q: PeerId, i: nat)
    requires Legal(Start(time), steps) && p in time && q in time
    requires p in Exec(Start(time), steps).sent && i < |Exec(Start(time), steps).sent[p]|
    requires IsControl(Exec(Start(time), steps).sent[p][i])
    ensures var w := Exec(Start(time), steps);
            && q in w.nodes && |Delivered(w, q, p)| <= i
            && (forall m :: m in w.nodes[q].accepted ==> !IsControl(m))
            && (forall k, m :: i <= k < |w.sent[p]| && m in w.nodes[q].accepted ==> !SameEnvelope(w.sent[p][k], m))
  {
    assert NoControl(EmptyNode);
    hide WorldOk, Exec, Legal, From, Stamped;
    var w := Exec(Start(time), steps);
    RunNoControl(Start(time), steps, q);
    FifoDelivery(time, steps, p, q);
    StartOk(time);
    RunKeeps(Start(time), steps);
    StampedAt(w, p);
    PrefixStops(w.nodes[q].accepted, w.sent[p], p, i);
  }
}
