/**
 * Two runs of a network with two nodes and two messages. The application may see
 * the two in the wrong order: the transaction of the second message can run while
 * the callback of the first is still suspended, and its callback can then come
 * first. And it may never see the first one: the ACK before its callback can fail.
 */
module Overtaking {
  import opened Messages
  import opened Receiving
  import opened Delivery
  import opened Network
  import opened CallBackOrder

  lemma AndThen(w: World, steps: seq<Step>, step: Step)
    requires Legal(w, steps) && Enabled(Exec(w, steps), step)
    ensures Legal(w, steps + [step])
    ensures Exec(w, steps + [step]) == Do(Exec(w, steps), step)
  {
    assert [step][1..] == [];
    ExecInTwo(w, steps, [step]);
  }

  // The first two messages of a sender, as a node that knows nothing sees them.
  ghost predicate FirstTwo(m1: Message, m2: Message, now: int) {
    && m1.kind.Data? && m2.kind.Data? && m1.id != m2.id
    && m1.sender == m2.sender && m1.sequence == Some(1) && m2.sequence == Some(2)
    && TimestampValid(m1.timestamp, now) && TimestampValid(m2.timestamp, now)
    && m1.clock == Some(map[m1.sender := 1]) && m2.clock == Some(map[m1.sender := 2])
  }

  lemma BothAccepted(n: Node, m1: Message, m2: Message, now: int)
    requires n == EmptyNode && FirstTwo(m1, m2, now)
    ensures var n2 := Gate(Gate(n, m1, now), m2, now);
            n2.accepted == [m1, m2] && n2.waiting == [0, 1] && n2.handled == n2.lost == []
  {
    var n1 := Gate(n, m1, now);
    assert n1.accepted == [m1] && n1.waiting == [0] && n1.processed == map[m1.id := now];
    assert n1.cache == [m1.id] && n1.lastSequence == map[m1.sender := 1];
    assert n1.clocks == map[m1.sender := 1];
  }

  lemma TwoCallBacks(n: Node, m1: Message, m2: Message)
    requires n.accepted == [m1, m2] && n.waiting == [0, 1] && n.handled == [] && n.lost == []
    ensures |CallBack(n, 1).waiting| == 1
    ensures var n' := CallBack(CallBack(n, 1), 0); TicketsOk(n') && HandedOver(n') == [m2, m1]
  {
    var n1 := CallBack(n, 1);
    assert n1.waiting == [0] && n1.handled == [1];
    var n' := CallBack(n1, 0);
    assert n'.handled == [1, 0] && n'.waiting == [] && [] + [1, 0] + [] == [1, 0];
  }

  lemma CallBacksMayOvertake(w: World, q: PeerId, m1: Message, m2: Message) returns (steps: seq<Step>)
    requires q in w.nodes && q in w.time && q in w.pending && q in w.sent && w.nodes[q] == EmptyNode
    requires m1 in w.wire && m2 in w.wire && FirstTwo(m1, m2, w.time[q])
    ensures Legal(w, steps) && q in Exec(w, steps).nodes && Exec(w, steps).sent == w.sent
    ensures var n := Exec(w, steps).nodes[q]; TicketsOk(n) && HandedOver(n) == [m2, m1]
  {
    BothAccepted(w.nodes[q], m1, m2, w.time[q]);
    hide Gate, FirstTwo, CallBack, HandedOver, TicketsOk, Legal, Exec;
    var w1 := Do(w, Arrive(q, m1));
    var w2 := Do(w1, Arrive(q, m2));
    TwoCallBacks(w2.nodes[q], m1, m2);
    var rest := SecondThenFirst(w2, q);
    Prepend(w1, Arrive(q, m2), rest);
    Prepend(w, Arrive(q, m1), [Arrive(q, m2)] + rest);
    steps := [Arrive(q, m1)] + ([Arrive(q, m2)] + rest);
  }

  lemma SecondThenFirst(w: World, q: PeerId) returns (steps: seq<Step>)
    requires q in w.nodes && q in w.time && q in w.pending && q in w.sent
    requires |w.nodes[q].waiting| == 2 && |CallBack(w.nodes[q], 1).waiting| == 1
    ensures Legal(w, steps) && q in Exec(w, steps).nodes && Exec(w, steps).sent == w.sent
    ensures Exec(w, steps).nodes[q] == CallBack(CallBack(w.nodes[q], 1), 0)
  {
    hide CallBack, Legal, Exec;
    var w1 := Do(w, CallBackStep(q, 1));
    var w2 := Do(w1, CallBackStep(q, 0));
    Nothing(w2);
    Prepend(w1, CallBackStep(q, 0), []);
    steps := [CallBackStep(q, 1)] + ([CallBackStep(q, 0)] + []);
    Prepend(w, CallBackStep(q, 1), [CallBackStep(q, 0)] + []);
  }

  function Draft(id: MessageId, p: PeerId, q: PeerId): Message {
    Message(id, Data, p, q, "", 0, None, None)
  }

  lemma StampsAre(n: Node, p: PeerId, q: PeerId)
    requires n == EmptyNode
    ensures var (n1, m1) := Stamp(n, p, Draft("1", p, q));
            var (n2, m2) := Stamp(n1, p, Draft("2", p, q));
            FirstTwo(m1, m2, 0)
  {
    assert "1" != "2" by { assert "1"[0] != "2"[0]; }
    var (n1, m1) := Stamp(n, p, Draft("1", p, q));
    assert n1.clocks == map[p := 1] && m1.clock.value == map[p := 1];
    var (n2, m2) := Stamp(n1, p, Draft("2", p, q));
    assert n2.clocks == map[p := 2] && m2.clock.value == map[p := 2];
  }

  // Two messages sent and transmitted, in a fresh network of two nodes.
  lemma TwoOnTheWire(p: PeerId, q: PeerId) returns (steps: seq<Step>, m1: Message, m2: Message)
    requires p != q
    ensures FirstTwo(m1, m2, 0) && m1.sender == p
    ensures forall k :: 0 <= k < |steps| ==> !CallsBack(steps[k], q)
    ensures var w0 := Start(map[p := 0, q := 0]);
            && Legal(w0, steps)
            && var w := Exec(w0, steps);
               && p in w.sent && w.sent[p] == [m1, m2] && w.wire == {m1, m2}
               && q in w.nodes && q in w.time && q in w.pending && q in w.sent
               && w.nodes[q] == EmptyNode && w.time[q] == 0
  {
    hide Stamp, FirstTwo;
    var w0 := Start(map[p := 0, q := 0]);
    var d1, d2 := Draft("1", p, q), Draft("2", p, q);
    StampsAre(EmptyNode, p, q);
    m1 := Stamp(EmptyNode, p, d1).1;
    m2 := Stamp(Stamp(EmptyNode, p, d1).0, p, d2).1;
    assert m1.sender == p by { SenderStays(EmptyNode, p, d1); }
    assert Legal(w0, []) && Exec(w0, []) == w0;
    AndThen(w0, [], Send(p, d1));
    AndThen(w0, [] + [Send(p, d1)], Send(p, d2));
    AndThen(w0, [] + [Send(p, d1)] + [Send(p, d2)], Transmit(p, m1, m1.payload));
    AndThen(w0, [] + [Send(p, d1)] + [Send(p, d2)] + [Transmit(p, m1, m1.payload)], Transmit(p, m2, m2.payload));
    steps := [] + [Send(p, d1)] + [Send(p, d2)] + [Transmit(p, m1, m1.payload)] + [Transmit(p, m2, m2.payload)];
  }

  lemma SenderStays(n: Node, p: PeerId, draft: Message)
    ensures Stamp(n, p, draft).1.sender == draft.sender
  {
  }

  // Such a run exists from a fresh network of any two nodes on.
  lemma OvertakingRun(p: PeerId, q: PeerId) returns (steps: seq<Step>, m1: Message, m2: Message)
    requires p != q
    ensures var w0 := Start(map[p := 0, q := 0]);
            && Legal(w0, steps)
            && var w := Exec(w0, steps);
               && p in w.sent && w.sent[p] == [m1, m2]
               && q in w.nodes && TicketsOk(w.nodes[q]) && HandedOver(w.nodes[q]) == [m2, m1]
  {
    hide Legal, Exec, Enabled, FirstTwo, TicketsOk, HandedOver;
    var sending;
    sending, m1, m2 := TwoOnTheWire(p, q);
    var w0 := Start(map[p := 0, q := 0]);
    var rest := CallBacksMayOvertake(Exec(w0, sending), q, m1, m2);
    ExecInTwo(w0, sending, rest);
    steps := sending + rest;
  }

  // ------------------------------------------------------------- a lost ACK

  lemma {:induction false} OldestFirstInTwo(
    w: World, first: seq<Step>, second: seq<Step>, q: PeerId, among: nat -> bool)
    requires Legal(w, first) && Legal(Exec(w, first), second)
    requires forall k :: 0 <= k < |first| ==> !CallsBack(first[k], q)
    requires OldestFirst(Exec(w, first), second, q, among)
    ensures Legal(w, first + second) && OldestFirst(w, first + second, q, among)
    decreases |first|
  {
    hide Do, Enabled, TakesOldest, CallsBack;
    ExecInTwo(w, first, second);
    if first == [] {
      assert first + second == second;
    } else {
      assert (first + second)[1..] == first[1..] + second;
      OldestFirstInTwo(Do(w, first[0]), first[1..], second, q, among);
    }
  }

  lemma FirstIsLost(n: Node, m1: Message, m2: Message)
    requires n.accepted == [m1, m2] && n.waiting == [0, 1] && n.handled == [] && n.lost == []
    ensures var n' := LoseCallBack(n, 0); n'.waiting == [1] && TakesOldest(n', 0, Everything())
    ensures var n' := CallBack(LoseCallBack(n, 0), 0);
            n'.waiting == [] && n'.lost == [0] && TicketsOk(n') && HandedOver(n') == [m2]
  {
    var n1 := LoseCallBack(n, 0);
    assert n1.waiting == [1] && n1.handled == [] && n1.lost == [0] && [1] + [] + [0] == [1, 0];
    var n2 := CallBack(n1, 0);
    assert n2.handled == [1] && n2.waiting == [] && [] + [1] + [0] == [1, 0];
  }

  lemma LoseThenCallBack(w: World, q: PeerId, m1: Message, m2: Message) returns (steps: seq<Step>)
    requires q in w.nodes && q in w.time && q in w.pending && q in w.sent
    requires var n := w.nodes[q];
             n.accepted == [m1, m2] && n.waiting == [0, 1] && n.handled == [] && n.lost == []
    ensures Legal(w, steps) && OldestFirst(w, steps, q, Everything())
    ensures Exec(w, steps) == Put(w, q, CallBack(LoseCallBack(w.nodes[q], 0), 0))
  {
    FirstIsLost(w.nodes[q], m1, m2);
    hide CallBack, LoseCallBack, TakesOldest, TicketsOk, HandedOver;
    var w1 := Do(w, LoseStep(q, 0));
    var w2 := Do(w1, CallBackStep(q, 0));
    Nothing(w2);
    Prepend(w1, CallBackStep(q, 0), []);
    assert OldestFirst(w1, [CallBackStep(q, 0)] + [], q, Everything());
    Prepend(w, LoseStep(q, 0), [CallBackStep(q, 0)] + []);
    steps := [LoseStep(q, 0)] + ([CallBackStep(q, 0)] + []);
    assert steps[1..] == [CallBackStep(q, 0)] + [];
  }

  lemma BothArrive(w: World, q: PeerId, m1: Message, m2: Message) returns (steps: seq<Step>)
    requires q in w.nodes && q in w.time && q in w.pending && q in w.sent && w.nodes[q] == EmptyNode
    requires m1 in w.wire && m2 in w.wire && FirstTwo(m1, m2, w.time[q])
    ensures forall k :: 0 <= k < |steps| ==> !CallsBack(steps[k], q)
    ensures Legal(w, steps)
    ensures Exec(w, steps) == Put(w, q, Gate(Gate(EmptyNode, m1, w.time[q]), m2, w.time[q]))
  {
    hide Gate, FirstTwo;
    var w1 := Do(w, Arrive(q, m1));
    var w2 := Do(w1, Arrive(q, m2));
    Nothing(w2);
    Prepend(w1, Arrive(q, m2), []);
    Prepend(w, Arrive(q, m1), [Arrive(q, m2)] + []);
    steps := [Arrive(q, m1)] + ([Arrive(q, m2)] + []);
  }

  // One failing ACK, without a restart and with every callback the oldest one:
  // both messages of p are accepted, nothing stays suspended, and the application
  // has got the second one only.
  lemma LostCallBackRun(p: PeerId, q: PeerId) returns (steps: seq<Step>, m1: Message, m2: Message)
    requires p != q
    ensures var w0 := Start(map[p := 0, q := 0]);
            && Legal(w0, steps) && OldestFirst(w0, steps, q, Everything())
            && var w := Exec(w0, steps);
               && p in w.sent && w.sent[p] == [m1, m2]
               && q in w.nodes && TicketsOk(w.nodes[q]) && w.nodes[q].accepted == [m1, m2]
               && w.nodes[q].waiting == [] && |w.nodes[q].lost| == 1
               && HandedOver(w.nodes[q]) == [m2]
  {
    hide Legal, Exec, Enabled, FirstTwo, TicketsOk, HandedOver, Gate, CallBack, LoseCallBack, OldestFirst;
    var sending, arriving, rest;
    sending, m1, m2 := TwoOnTheWire(p, q);
    var w0 := Start(map[p := 0, q := 0]);
    var w1 := Exec(w0, sending);
    arriving := BothArrive(w1, q, m1, m2);
    BothAccepted(EmptyNode, m1, m2, 0);
    var w2 := Exec(w1, arriving);
    rest := LoseThenCallBack(w2, q, m1, m2);
    FirstIsLost(w2.nodes[q], m1, m2);
    OldestFirstInTwo(w1, arriving, rest, q, Everything());
    ExecInTwo(w1, arriving, rest);
    OldestFirstInTwo(w0, sending, arriving + rest, q, Everything());
    ExecInTwo(w0, sending, arriving + rest);
    AcceptedStays(w2.nodes[q]);
    steps := sending + (arriving + rest);
  }

  lemma AcceptedStays(n: Node)
    requires |n.waiting| == 2
    ensures |LoseCallBack(n, 0).waiting| == 1 && CallBack(LoseCallBack(n, 0), 0).accepted == n.accepted
  {
  }
}
