/**
 * When the application gets the messages of each sender in the order in which
 * they were sent, and when it gets all of them: for every run, with restarts and
 * with ACKs that fail.
 */
module CallBackOrder {
  import opened Messages
  import opened Receiving
  import opened Delivery
  import opened Network

  ghost predicate Orderly(n: Node, among: nat -> bool) {
    TicketsOk(n) && InOrder(n, among)
  }

  // After every prefix of the run, the callbacks at `q` have been in order.
  ghost predicate AlwaysInOrder(w: World, steps: seq<Step>, q: PeerId, among: nat -> bool)
    requires Legal(w, steps)
    decreases |steps|
  {
    && q in w.nodes && Orderly(w.nodes[q], among)
    && (steps == [] || AlwaysInOrder(Do(w, steps[0]), steps[1..], q, among))
  }

  predicate CallsBack(step: Step, q: PeerId) {
    step.CallBackStep? && step.node == q
  }

  ghost predicate TakesOldest(n: Node, i: nat, among: nat -> bool) {
    TicketsOk(n) && i < |n.waiting| && OldestOfSender(n, i, among)
  }

  // Every callback of the run at `q` is, among the given tickets, the oldest of
  // its sender when it runs.
  ghost predicate OldestFirst(w: World, steps: seq<Step>, q: PeerId, among: nat -> bool)
    requires Legal(w, steps)
    decreases |steps|
  {
    steps == [] ||
    ((CallsBack(steps[0], q) ==> TakesOldest(w.nodes[q], steps[0].i, among)) &&
     OldestFirst(Do(w, steps[0]), steps[1..], q, among))
  }

  function Everything(): nat -> bool {
    _ => true
  }

  // ------------------------------------------- steps other than callbacks

  predicate OldOrNew(t: nat, n: Node) {
    t in n.waiting || t >= |n.accepted|
  }

  // New tickets are younger than all that were handed over.
  lemma NewTicketsKeepOrder(n: Node, n': Node, among: nat -> bool)
    requires Orderly(n, among) && TicketsOk(n') && n'.handled == n.handled && n.accepted <= n'.accepted
    requires forall j :: 0 <= j < |n'.waiting| ==> OldOrNew(n'.waiting[j], n)
    ensures InOrder(n', among)
  {
    assert forall i :: 0 <= i < |n.handled| ==> Handled(n', i) == Handled(n, i);
    forall i, j | 0 <= i < j < |n'.handled| && Rivals(n', Handled(n', i), Handled(n', j), among)
      ensures Handled(n', i) < Handled(n', j)
    {
      assert Rivals(n, Handled(n, i), Handled(n, j), among);
    }
    forall i, j | 0 <= i < |n'.handled| && 0 <= j < |n'.waiting| && Rivals(n', Handled(n', i), Waiting(n', j), among)
      ensures Handled(n', i) < Waiting(n', j)
    {
      assert OldOrNew(n'.waiting[j], n);
      if n'.waiting[j] in n.waiting {
        var k :| 0 <= k < |n.waiting| && n.waiting[k] == n'.waiting[j];
        assert Waiting(n, k) == Waiting(n', j);
        assert Rivals(n, Handled(n, i), Waiting(n, k), among);
      }
    }
  }

  lemma NodeStepKeepsOrder(n: Node, now: int, step: Step, among: nat -> bool)
    requires !step.CallBackStep? && (step.FlushStep? ==> CanFlush(n, step.peer))
    requires step.LoseStep? ==> step.i < |n.waiting|
    requires Orderly(n, among) && TicketsOk(NodeAfter(n, now, step))
    ensures InOrder(NodeAfter(n, now, step), among)
  {
    var n' := NodeAfter(n, now, step);
    assert n'.handled == n.handled && n.accepted <= n'.accepted;
    forall j | 0 <= j < |n'.waiting| ensures OldOrNew(n'.waiting[j], n) {
      if step.LoseStep? {
        assert n'.waiting[j] == n.waiting[if j < step.i then j else j + 1];
      } else {
        assert n'.waiting == n.waiting + [|n.accepted|] || n'.waiting == n.waiting || n'.waiting == [];
      }
    }
    NewTicketsKeepOrder(n, n', among);
  }

  // A step of the network changes a node as NodeAfter says, or by stamping.
  lemma NodeOfStep(w: World, step: Step, q: PeerId)
    requires Enabled(w, step) && q in w.nodes
    ensures q in Do(w, step).nodes
    ensures step.node != q ==> Do(w, step).nodes[q] == w.nodes[q]
    ensures step.node == q && !step.Send? ==> Do(w, step).nodes[q] == NodeAfter(w.nodes[q], w.time[q], step)
    ensures step.node == q && step.Send? ==>
      Do(w, step).nodes[q] == w.nodes[q].(clocks := Do(w, step).nodes[q].clocks)
  {
    hide Gate, FlushOne, Purge, Restart, CallBack, LoseCallBack, QueueAll, Merge, Raise, LookupOr0, CanFlush, MaySay;
  }

  lemma OtherStepKeepsOrder(w: World, step: Step, q: PeerId, among: nat -> bool)
    requires WorldOk(w) && Enabled(w, step) && q in w.nodes && Orderly(w.nodes[q], among) && !CallsBack(step, q)
    ensures q in Do(w, step).nodes && Orderly(Do(w, step).nodes[q], among)
  {
    hide WorldOk, Do, NodeOk, InOrder, NodeAfter;
    StepKeeps(w, step);
    NodeOfStep(w, step, q);
    At(Do(w, step), q);
    TicketsOf(Do(w, step).nodes[q], Do(w, step).time[q], Do(w, step).sent);
    if step.node == q && !step.Send? {
      NodeStepKeepsOrder(w.nodes[q], w.time[q], step, among);
    } else {
      SameTickets(w.nodes[q], Do(w, step).nodes[q], among);
    }
  }

  lemma TicketsOf(n: Node, now: int, sent: SendLog)
    requires NodeOk(n, now, sent)
    ensures TicketsOk(n)
  {
  }

  lemma SameTickets(n: Node, n': Node, among: nat -> bool)
    requires Orderly(n, among) && n' == n.(clocks := n'.clocks)
    ensures Orderly(n', among)
  {
    assert forall j :: 0 <= j < |n'.waiting| ==> OldOrNew(n'.waiting[j], n);
    NewTicketsKeepOrder(n, n', among);
  }

  // ------------------------------------------------------------ whole runs

  lemma OneStepIff(w: World, step: Step, q: PeerId, among: nat -> bool)
    requires WorldOk(w) && Enabled(w, step) && q in w.nodes && Orderly(w.nodes[q], among)
    ensures q in Do(w, step).nodes
    ensures Orderly(Do(w, step).nodes[q], among) <==>
            (CallsBack(step, q) ==> TakesOldest(w.nodes[q], step.i, among))
  {
    hide WorldOk, NodeOk, InOrder, OldestOfSender, CallBack, Do;
    At(w, q);
    if CallsBack(step, q) {
      NodeOfStep(w, step, q);
      CallBackKeepsOrderIff(w.nodes[q], step.i, among, w.time[q], w.sent);
      TicketsOf(CallBack(w.nodes[q], step.i), w.time[q], w.sent);
    } else {
      OtherStepKeepsOrder(w, step, q, among);
    }
  }

  lemma {:induction false} RunIff(w: World, steps: seq<Step>, q: PeerId, among: nat -> bool)
    requires WorldOk(w) && Legal(w, steps) && q in w.nodes && Orderly(w.nodes[q], among)
    ensures AlwaysInOrder(w, steps, q, among) <==> OldestFirst(w, steps, q, among)
    decreases |steps|
  {
    hide WorldOk, Do, Orderly, InOrder, TakesOldest, Enabled;
    if steps != [] {
      var w' := Do(w, steps[0]);
      StepKeeps(w, steps[0]);
      TicketsAt(w, q);
      OneStepIff(w, steps[0], q, among);
      if Orderly(w'.nodes[q], among) {
        RunIff(w', steps[1..], q, among);
      } else {
        assert !AlwaysInOrder(w', steps[1..], q, among);
      }
    }
  }

  lemma TicketsAt(w: World, q: PeerId)
    requires WorldOk(w) && q in w.nodes
    ensures TicketsOk(w.nodes[q])
  {
    At(w, q);
  }

  // In every run from the start and for any tickets: after every prefix the
  // callbacks at a node have been in order of acceptance for every sender, and are
  // older than those still suspended, if and only if each callback that ran was the
  // oldest of its sender still suspended.
  lemma CallBacksInOrderIff(time: map<PeerId, int>, steps: seq<Step>, q: PeerId, among: nat -> bool)
    requires Legal(Start(time), steps) && q in time
    ensures AlwaysInOrder(Start(time), steps, q, among) <==> OldestFirst(Start(time), steps, q, among)
  {
    hide Legal, AlwaysInOrder, OldestFirst, WorldOk, Orderly;
    StartOk(time);
    StartOrderly(time, q, among);
    RunIff(Start(time), steps, q, among);
  }

  lemma StartOrderly(time: map<PeerId, int>, q: PeerId, among: nat -> bool)
    requires q in time
    ensures q in Start(time).nodes && Orderly(Start(time).nodes[q], among)
  {
    assert EmptyNode.waiting + EmptyNode.handled + EmptyNode.lost == [];
  }

  // ------------------------------------------------- where tickets end up

  predicate Accounted(n: Node, t: nat) {
    t in n.waiting || t in n.handled || t in n.lost
  }

  // Every accepted message is suspended, was handed over or has been lost; with
  // the numbers adding up, just one of the three.
  ghost predicate AllAccounted(n: Node) {
    && |n.waiting| + |n.handled| + |n.lost| == |n.accepted|
    && forall t: nat :: t < |n.accepted| ==> Accounted(n, t)
  }

  lemma TakenOut(waiting: seq<nat>, i: nat, t: nat)
    requires i < |waiting| && t in waiting
    ensures t == waiting[i] || t in waiting[..i] + waiting[i + 1..]
  {
  }

  lemma NodeStepAccounts(n: Node, now: int, step: Step)
    requires AllAccounted(n) && (step.FlushStep? ==> CanFlush(n, step.peer))
    requires step.CallBackStep? || step.LoseStep? ==> step.i < |n.waiting|
    ensures AllAccounted(NodeAfter(n, now, step))
  {
    var n' := NodeAfter(n, now, step);
    forall t: nat | t < |n'.accepted| ensures Accounted(n', t) {
      if t < |n.accepted| {
        assert Accounted(n, t);
        if (step.CallBackStep? || step.LoseStep?) && t in n.waiting {
          TakenOut(n.waiting, step.i, t);
        }
      }
    }
  }

  lemma {:induction false} RunAccounts(w: World, steps: seq<Step>, q: PeerId)
    requires Legal(w, steps) && q in w.nodes && AllAccounted(w.nodes[q])
    ensures q in Exec(w, steps).nodes && AllAccounted(Exec(w, steps).nodes[q])
    decreases |steps|
  {
    if steps != [] {
      var w' := Do(w, steps[0]);
      NodeOfStep(w, steps[0], q);
      hide Do, NodeAfter;
      if steps[0].node == q && !steps[0].Send? {
        NodeStepAccounts(w.nodes[q], w.time[q], steps[0]);
      } else {
        assert forall t :: Accounted(w.nodes[q], t) ==> Accounted(w'.nodes[q], t);
      }
      RunAccounts(w', steps[1..], q);
    }
  }

  ghost predicate InOnePlace(n: Node, t: nat) {
    && Accounted(n, t)
    && !(t in n.waiting && t in n.handled) && !(t in n.waiting && t in n.lost) && !(t in n.handled && t in n.lost)
  }

  lemma OnePlace(n: Node, t: nat)
    requires TicketsOk(n) && Accounted(n, t)
    ensures InOnePlace(n, t)
  {
    var all, w, h := n.waiting + n.handled + n.lost, |n.waiting|, |n.handled|;
    assert forall i :: 0 <= i < w ==> n.waiting[i] == all[i];
    assert forall i :: 0 <= i < h ==> n.handled[i] == all[w + i];
    assert forall i :: 0 <= i < |n.lost| ==> n.lost[i] == all[w + h + i];
  }

  // In every run, with restarts and failing ACKs: whatever q has accepted is
  // still suspended, was handed over, or has been lost, and only one of these.
  lemma AcceptedIsAccounted(time: map<PeerId, int>, steps: seq<Step>, q: PeerId)
    requires Legal(Start(time), steps) && q in time
    ensures q in Exec(Start(time), steps).nodes
    ensures var n := Exec(Start(time), steps).nodes[q];
            && |n.waiting| + |n.handled| + |n.lost| == |n.accepted|
            && forall t: nat :: t < |n.accepted| ==> InOnePlace(n, t)
  {
    assert AllAccounted(EmptyNode);
    RunAccounts(Start(time), steps, q);
    StartOk(time);
    RunKeeps(Start(time), steps);
    var w := Exec(Start(time), steps);
    TicketsAt(w, q);
    hide WorldOk, Legal, Exec, TicketsOk, InOnePlace;
    forall t: nat | t < |w.nodes[q].accepted| ensures InOnePlace(w.nodes[q], t) {
      OnePlace(w.nodes[q], t);
    }
  }

  // ------------------------------------------------ from the end of a run

  // What becomes of the suspended callbacks among the given tickets in a step
  // that loses none of them.
  ghost predicate KeepsTickets(n: Node, n': Node, among: nat -> bool) {
    && n.accepted <= n'.accepted && n.handled <= n'.handled
    && forall j :: 0 <= j < |n.waiting| && among(n.waiting[j]) ==>
         n.waiting[j] in n'.waiting || n.waiting[j] in n'.handled[|n.handled|..]
  }

  ghost predicate NoneLost(n: Node, among: nat -> bool) {
    forall j :: 0 <= j < |n.lost| ==> !among(n.lost[j])
  }

  lemma WhereTicketsGo(n: Node, now: int, step: Step, j: nat)
    requires step.FlushStep? ==> CanFlush(n, step.peer)
    requires step.CallBackStep? || step.LoseStep? ==> step.i < |n.waiting|
    requires j < |n.waiting|
    ensures var n' := NodeAfter(n, now, step);
            n.waiting[j] in n'.waiting || n.waiting[j] in n'.handled[|n.handled|..] || n.waiting[j] in n'.lost
  {
    var n' := NodeAfter(n, now, step);
    if step.CallBackStep? || step.LoseStep? {
      TakenOut(n.waiting, step.i, n.waiting[j]);
      assert step.LoseStep? ==> n.waiting[step.i] in n'.lost;
      assert step.CallBackStep? ==> n'.handled[|n.handled|..] == [n.waiting[step.i]];
    } else {
      assert step.Reboot? ==> n.waiting[j] in n'.lost;
    }
  }

  lemma NodeKeepsTickets(n: Node, now: int, step: Step, among: nat -> bool)
    requires step.FlushStep? ==> CanFlush(n, step.peer)
    requires step.CallBackStep? || step.LoseStep? ==> step.i < |n.waiting|
    ensures n.lost <= NodeAfter(n, now, step).lost
    ensures NoneLost(NodeAfter(n, now, step), among) ==> KeepsTickets(n, NodeAfter(n, now, step), among)
  {
    forall j | 0 <= j < |n.waiting|
      ensures var n' := NodeAfter(n, now, step);
              n.waiting[j] in n'.waiting || n.waiting[j] in n'.handled[|n.handled|..] || n.waiting[j] in n'.lost
    {
      WhereTicketsGo(n, now, step, j);
    }
  }

  lemma StepKeepsTickets(w: World, step: Step, q: PeerId, among: nat -> bool)
    requires Enabled(w, step) && q in w.nodes
    ensures q in Do(w, step).nodes && w.nodes[q].lost <= Do(w, step).nodes[q].lost
    ensures NoneLost(Do(w, step).nodes[q], among) ==> KeepsTickets(w.nodes[q], Do(w, step).nodes[q], among)
  {
    NodeOfStep(w, step, q);
    hide Do, NodeAfter, NoneLost;
    if step.node == q && !step.Send? {
      NodeKeepsTickets(w.nodes[q], w.time[q], step, among);
    }
  }

  lemma {:induction false} LostStays(w: World, steps: seq<Step>, q: PeerId)
    requires Legal(w, steps) && q in w.nodes
    ensures q in Exec(w, steps).nodes && w.nodes[q].lost <= Exec(w, steps).nodes[q].lost
    decreases |steps|
  {
    if steps != [] {
      StepKeepsTickets(w, steps[0], q, Everything());
      hide Do, Enabled, KeepsTickets, NoneLost;
      LostStays(Do(w, steps[0]), steps[1..], q);
    }
  }

  // Once out of order, a node stays so.
  lemma DisorderStays(n: Node, n': Node, among: nat -> bool)
    requires TicketsOk(n) && TicketsOk(n') && KeepsTickets(n, n', among) && InOrder(n', among)
    ensures InOrder(n, among)
  {
    assert forall k :: 0 <= k < |n.handled| ==> Handled(n', k) == Handled(n, k);
    forall a, b | 0 <= a < b < |n.handled| && Rivals(n, Handled(n, a), Handled(n, b), among)
      ensures Handled(n, a) < Handled(n, b)
    {
      assert Rivals(n', Handled(n', a), Handled(n', b), among);
    }
    forall a, j | 0 <= a < |n.handled| && 0 <= j < |n.waiting| && Rivals(n, Handled(n, a), Waiting(n, j), among)
      ensures Handled(n, a) < Waiting(n, j)
    {
      if n.waiting[j] in n'.waiting {
        var k :| 0 <= k < |n'.waiting| && n'.waiting[k] == n.waiting[j];
        assert Rivals(n', Handled(n', a), Waiting(n', k), among);
      } else {
        var k :| 0 <= k < |n'.handled[|n.handled|..]| && n'.handled[|n.handled|..][k] == n.waiting[j];
        assert Rivals(n', Handled(n', a), Handled(n', |n.handled| + k), among);
      }
    }
  }

  lemma StepBack(w: World, step: Step, q: PeerId, among: nat -> bool)
    requires WorldOk(w) && Enabled(w, step) && q in w.nodes
    requires q in Do(w, step).nodes && NoneLost(Do(w, step).nodes[q], among)
    ensures Orderly(Do(w, step).nodes[q], among) ==> Orderly(w.nodes[q], among)
  {
    StepKeepsTickets(w, step, q, among);
    TicketsAt(w, q);
    hide WorldOk, Do, Enabled, InOrder, TicketsOk, KeepsTickets, NoneLost;
    if Orderly(Do(w, step).nodes[q], among) {
      DisorderStays(w.nodes[q], Do(w, step).nodes[q], among);
    }
  }

  // So among tickets of which none is lost, the end decides.
  lemma {:induction false} EndDecides(w: World, steps: seq<Step>, q: PeerId, among: nat -> bool)
    requires WorldOk(w) && Legal(w, steps) && q in w.nodes
    requires q in Exec(w, steps).nodes && NoneLost(Exec(w, steps).nodes[q], among)
    ensures AlwaysInOrder(w, steps, q, among) <==> Orderly(Exec(w, steps).nodes[q], among)
    decreases |steps|
  {
    hide WorldOk, Do, Orderly, Enabled;
    if steps != [] {
      var w' := Do(w, steps[0]);
      StepKeeps(w, steps[0]);
      StepKeepsTickets(w, steps[0], q, among);
      LostStays(w', steps[1..], q);
      FewerLost(w'.nodes[q], Exec(w, steps).nodes[q], among);
      StepBack(w, steps[0], q, among);
      EndDecides(w', steps[1..], q, among);
    }
  }

  lemma FewerLost(n: Node, n': Node, among: nat -> bool)
    requires n.lost <= n'.lost && NoneLost(n', among)
    ensures NoneLost(n, among)
  {
    assert forall j :: 0 <= j < |n.lost| ==> n.lost[j] == n'.lost[j];
  }

  lemma OrderAtEndIff(time: map<PeerId, int>, steps: seq<Step>, q: PeerId, among: nat -> bool)
    requires Legal(Start(time), steps) && q in time
    requires q in Exec(Start(time), steps).nodes && NoneLost(Exec(Start(time), steps).nodes[q], among)
    ensures Orderly(Exec(Start(time), steps).nodes[q], among) <==> OldestFirst(Start(time), steps, q, among)
  {
    hide WorldOk, Exec, Legal, OldestFirst, AlwaysInOrder, Orderly, NoneLost;
    StartOk(time);
    CallBacksInOrderIff(time, steps, q, among);
    EndDecides(Start(time), steps, q, among);
  }

  // The order of what the application has got, and nothing else.
  ghost predicate HandedOverInOrder(n: Node)
    requires TicketsOk(n)
  {
    forall i, j :: 0 <= i < j < |n.handled| && SameSender(n, Handled(n, i), Handled(n, j)) ==>
      Handled(n, i) < Handled(n, j)
  }

  function HandedTickets(n: Node): nat -> bool {
    t => t in n.handled
  }

  lemma HandedOnce(n: Node)
    requires TicketsOk(n)
    ensures forall j :: 0 <= j < |n.lost| ==> n.lost[j] !in n.handled
    ensures forall j :: 0 <= j < |n.waiting| ==> n.waiting[j] !in n.handled
    ensures Distinct(n.handled)
  {
    forall j | 0 <= j < |n.lost| ensures n.lost[j] !in n.handled {
      OnePlace(n, n.lost[j]);
    }
    forall j | 0 <= j < |n.waiting| ensures n.waiting[j] !in n.handled {
      OnePlace(n, n.waiting[j]);
    }
    assert forall i :: 0 <= i < |n.handled| ==> n.handled[i] == (n.waiting + n.handled + n.lost)[|n.waiting| + i];
  }

  // Tickets handed over are neither suspended nor lost, so that only the order of
  // the callbacks that have run matters among them.
  lemma AmongHanded(n: Node)
    requires TicketsOk(n)
    ensures NoneLost(n, HandedTickets(n))
    ensures InOrder(n, HandedTickets(n)) <==> HandedOverInOrder(n)
  {
    HandedOnce(n);
    forall i, j | 0 <= i < j < |n.handled|
      ensures Rivals(n, Handled(n, i), Handled(n, j), HandedTickets(n)) <==> SameSender(n, Handled(n, i), Handled(n, j))
    {
    }
  }

  // In every run, with restarts and failing ACKs: the application got the messages
  // of every sender in the order of acceptance if and only if each callback, when
  // it ran, was the oldest of its sender among those suspended that have run by
  // the end.
  lemma HandedOverInOrderIff(time: map<PeerId, int>, steps: seq<Step>, q: PeerId)
    requires Legal(Start(time), steps) && q in time && q in Exec(Start(time), steps).nodes
    ensures var n := Exec(Start(time), steps).nodes[q];
            TicketsOk(n) && (HandedOverInOrder(n) <==> OldestFirst(Start(time), steps, q, HandedTickets(n)))
  {
    hide WorldOk, Exec, Legal, OldestFirst, TicketsOk, NoneLost, HandedTickets, InOrder, HandedOverInOrder;
    var n := Exec(Start(time), steps).nodes[q];
    StartOk(time);
    RunKeeps(Start(time), steps);
    TicketsAt(Exec(Start(time), steps), q);
    AmongHanded(n);
    OrderAtEndIff(time, steps, q, HandedTickets(n));
  }

  // When the run has lost no callback at q and nothing is suspended there at the
  // end: if and only if each callback was the oldest of its sender suspended.
  lemma NothingLostIff(time: map<PeerId, int>, steps: seq<Step>, q: PeerId)
    requires Legal(Start(time), steps) && q in time && q in Exec(Start(time), steps).nodes
    requires var n := Exec(Start(time), steps).nodes[q]; n.waiting == n.lost == []
    ensures TicketsOk(Exec(Start(time), steps).nodes[q])
    ensures HandedOverInOrder(Exec(Start(time), steps).nodes[q]) <==> OldestFirst(Start(time), steps, q, Everything())
  {
    hide WorldOk, Exec, Legal, OldestFirst, TicketsOk;
    var n := Exec(Start(time), steps).nodes[q];
    StartOk(time);
    RunKeeps(Start(time), steps);
    TicketsAt(Exec(Start(time), steps), q);
    OrderAtEndIff(time, steps, q, Everything());
    assert InOrder(n, Everything()) <==> HandedOverInOrder(n) by { AmongAll(n); }
  }

  lemma AmongAll(n: Node)
    requires TicketsOk(n) && n.waiting == []
    ensures InOrder(n, Everything()) <==> HandedOverInOrder(n)
  {
    forall i, j | 0 <= i < j < |n.handled|
      ensures Rivals(n, Handled(n, i), Handled(n, j), Everything()) <==> SameSender(n, Handled(n, i), Handled(n, j))
    {
    }
  }

  // ------------------------------------------------- order of the messages

  // Each is the message of the log that its number says, and the numbers grow:
  // the part is a subsequence of the log, in the order of the log.
  ghost predicate PartOfLog(part: seq<Message>, log: seq<Message>) {
    && (forall i :: 0 <= i < |part| ==> NumberedIn(part[i], log))
    && (forall i, j :: 0 <= i < j < |part| ==> LaterIfSequenced(part[i], part[j]) && part[i].sender == part[j].sender)
  }

  predicate NumberedIn(m: Message, log: seq<Message>) {
    m.sequence.Some? && 1 <= m.sequence.value <= |log| && SameEnvelope(log[m.sequence.value - 1], m)
  }

  lemma {:induction false} FromIs(s: seq<Message>, p: PeerId)
    ensures forall i :: 0 <= i < |From(s, p)| ==> From(s, p)[i] in s && From(s, p)[i].sender == p
    ensures forall m :: m in s && m.sender == p ==> m in From(s, p)
  {
    if s != [] {
      FromIs(s[..|s| - 1], p);
    }
  }

  lemma {:induction false} FromKeepsOrder(s: seq<Message>, p: PeerId)
    requires forall i, j :: 0 <= i < j < |s| && s[i].sender == s[j].sender == p ==> LaterIfSequenced(s[i], s[j])
    ensures forall i, j :: 0 <= i < j < |From(s, p)| ==> LaterIfSequenced(From(s, p)[i], From(s, p)[j])
  {
    if s != [] {
      var front, last := s[..|s| - 1], s[|s| - 1];
      FromKeepsOrder(front, p);
      FromIs(front, p);
      forall i | 0 <= i < |From(front, p)| && last.sender == p ensures LaterIfSequenced(From(front, p)[i], last) {
        var k :| 0 <= k < |front| && front[k] == From(front, p)[i];
        assert s[k] == front[k];
      }
    }
  }

  lemma {:induction false} FromPositions(s: seq<Message>, p: PeerId, i: nat) returns (a: nat)
    requires i < |s| && s[i].sender == p
    ensures a == |From(s[..i], p)| && a < |From(s, p)| && From(s, p)[a] == s[i]
  {
    var front := s[..|s| - 1];
    if i < |front| {
      assert front[..i] == s[..i];
      a := FromPositions(front, p, i);
    } else {
      assert front == s[..i];
      a := |From(s[..i], p)|;
    }
  }

  lemma {:induction false} FromGrows(s: seq<Message>, p: PeerId, i: nat, j: nat)
    requires i <= j <= |s|
    ensures |From(s[..i], p)| <= |From(s[..j], p)|
    decreases j - i
  {
    if i < j {
      assert s[..j][..j - 1] == s[..j - 1];
      FromGrows(s, p, i, j - 1);
    }
  }

  // The place of a message in the part of one sender follows its place in all.
  lemma PlacesFollow(s: seq<Message>, p: PeerId, i: nat, j: nat) returns (a: nat, b: nat)
    requires i < j < |s| && s[i].sender == s[j].sender == p
    ensures a < b < |From(s, p)| && From(s, p)[a] == s[i] && From(s, p)[b] == s[j]
  {
    a := FromPositions(s, p, i);
    b := FromPositions(s, p, j);
    FromGrows(s, p, i + 1, j);
    assert s[..i + 1][..i] == s[..i];
  }

  // The callbacks of p's messages have run in the order of acceptance.
  ghost predicate InOrderFor(n: Node, p: PeerId)
    requires TicketsOk(n)
  {
    forall i, j :: 0 <= i < j < |n.handled| && IsFrom(n, Handled(n, i), p) && IsFrom(n, Handled(n, j), p) ==>
      Handled(n, i) < Handled(n, j)
  }

  predicate IsFrom(n: Node, t: nat, p: PeerId)
    requires t < |n.accepted|
  {
    n.accepted[t].sender == p
  }

  function TicketsFrom(n: Node, p: PeerId): nat -> bool {
    t => t in n.handled && t < |n.accepted| && IsFrom(n, t, p)
  }

  lemma AmongThoseOf(n: Node, p: PeerId)
    requires TicketsOk(n)
    ensures NoneLost(n, TicketsFrom(n, p))
    ensures InOrder(n, TicketsFrom(n, p)) <==> InOrderFor(n, p)
  {
    HandedOnce(n);
    var among := TicketsFrom(n, p);
    forall i, j | 0 <= i < j < |n.handled|
      ensures Rivals(n, Handled(n, i), Handled(n, j), among)
         <==> IsFrom(n, Handled(n, i), p) && IsFrom(n, Handled(n, j), p)
    {
    }
  }

  lemma HandedLater(n: Node, now: int, p: PeerId)
    requires OnceOk(n, now) && TicketsOk(n) && InOrderFor(n, p)
    ensures var handed := HandedOver(n);
            forall i, j :: 0 <= i < j < |handed| && handed[i].sender == handed[j].sender == p ==>
              LaterIfSequenced(handed[i], handed[j])
  {
    var handed := HandedOver(n);
    forall i, j | 0 <= i < j < |handed| && handed[i].sender == handed[j].sender == p
      ensures LaterIfSequenced(handed[i], handed[j])
    {
      assert IsFrom(n, Handled(n, i), p) && IsFrom(n, Handled(n, j), p);
      assert Handled(n, i) < Handled(n, j);
    }
  }

  lemma AcceptedNumbered(n: Node, log: seq<Message>, p: PeerId, m: Message)
    requires PrefixOf(n, p, log) && m in n.accepted && m.sender == p
    ensures NumberedIn(m, log)
  {
    FromIs(n.accepted, p);
    var k :| 0 <= k < |From(n.accepted, p)| && From(n.accepted, p)[k] == m;
    assert SameEnvelope(log[k], From(n.accepted, p)[k]);
  }

  lemma HandedInOrder(n: Node, now: int, sent: SendLog, p: PeerId)
    requires NodeOk(n, now, sent) && p in sent && InOrderFor(n, p)
    ensures PartOfLog(From(HandedOver(n), p), sent[p])
  {
    assert PrefixOf(n, p, sent[p]);
    HandedLater(n, now, p);
    hide OnceOk, PrefixOk, PrefixOf, BufferOk, NumberedIn, InOrderFor;
    var handed, part := HandedOver(n), From(HandedOver(n), p);
    FromKeepsOrder(handed, p);
    FromIs(handed, p);
    forall i | 0 <= i < |part| ensures NumberedIn(part[i], sent[p]) {
      assert part[i] in n.accepted;
      AcceptedNumbered(n, sent[p], p, part[i]);
    }
  }

  // Growing numbers come from growing tickets.
  lemma GrowingTickets(n: Node, now: int, log: seq<Message>, p: PeerId)
    requires OnceOk(n, now) && TicketsOk(n) && PartOfLog(From(HandedOver(n), p), log)
    ensures InOrderFor(n, p)
  {
    var handed, part := HandedOver(n), From(HandedOver(n), p);
    HandedOnce(n);
    forall i, j | 0 <= i < j < |n.handled| && IsFrom(n, Handled(n, i), p) && IsFrom(n, Handled(n, j), p)
      ensures Handled(n, i) < Handled(n, j)
    {
      var a, b := PlacesFollow(handed, p, i, j);
      assert NumberedIn(part[a], log) && NumberedIn(part[b], log) && LaterIfSequenced(part[a], part[b]);
      var s, t := Handled(n, i), Handled(n, j);
      assert n.accepted[s].sequence.value < n.accepted[t].sequence.value;
    }
  }

  // In every run, with restarts and failing ACKs: what the application at q has
  // got from p is a subsequence of p's send log, in the order of that log, if and
  // only if each callback of a message of p, when it ran, was the oldest of p
  // among those suspended that have run by the end.
  lemma OrderedDeliveryIff(time: map<PeerId, int>, steps: seq<Step>, p: PeerId, q: PeerId)
    requires Legal(Start(time), steps) && p in time && q in time
    ensures var w := Exec(Start(time), steps);
            p in w.sent && q in w.nodes && TicketsOk(w.nodes[q]) &&
            var n := w.nodes[q];
            PartOfLog(From(HandedOver(n), p), w.sent[p]) <==> OldestFirst(Start(time), steps, q, TicketsFrom(n, p))
  {
    hide WorldOk, Exec, Legal, NodeOk, OldestFirst, InOrder, PartOfLog, TicketsFrom, NoneLost, TicketsOk;
    StartOk(time);
    RunKeeps(Start(time), steps);
    NodesStay(Start(time), steps);
    var w := Exec(Start(time), steps);
    At(w, q);
    TicketsAt(w, q);
    AmongThoseOf(w.nodes[q], p);
    OrderAtEndIff(time, steps, q, TicketsFrom(w.nodes[q], p));
    InLogOrderIff(w.nodes[q], w.time[q], w.sent, p);
  }

  lemma InLogOrderIff(n: Node, now: int, sent: SendLog, p: PeerId)
    requires NodeOk(n, now, sent) && TicketsOk(n) && p in sent
    ensures PartOfLog(From(HandedOver(n), p), sent[p]) <==> InOrderFor(n, p)
  {
    hide PartOfLog, InOrderFor, TicketsOk, OnceOk, PrefixOk, BufferOk;
    if InOrderFor(n, p) {
      HandedInOrder(n, now, sent, p);
    }
    if PartOfLog(From(HandedOver(n), p), sent[p]) {
      GrowingTickets(n, now, sent[p], p);
    }
  }

  // -------------------------------------------------- all of the messages

  // Growing numbers among 1 to k that leave none out are 1, 2, ..., k.
  lemma {:induction false} GrowingNumbers(nums: seq<int>, k: nat)
    requires forall i, j :: 0 <= i < j < |nums| ==> nums[i] < nums[j]
    requires forall i :: 0 <= i < |nums| ==> 1 <= nums[i] <= k
    requires forall v :: 1 <= v <= k ==> v in nums
    ensures |nums| == k && forall i :: 0 <= i < k ==> nums[i] == i + 1
  {
    if nums == [] {
      assert k > 0 ==> k in nums;
    } else {
      var n := |nums| - 1;
      assert 1 <= nums[n] <= k;
      assert k in nums;
      assert nums[n] == k;
      forall v | 1 <= v <= k - 1 ensures v in nums[..n] {
        assert v in nums;
      }
      GrowingNumbers(nums[..n], k - 1);
      assert forall i :: 0 <= i < n ==> nums[i] == nums[..n][i];
    }
  }

  lemma NumberedGot(n: Node, log: seq<Message>, p: PeerId)
    requires PrefixOf(n, p, log)
    ensures var got := From(n.accepted, p);
            forall l :: 0 <= l < |got| ==> got[l].sequence == Some(l + 1)
  {
  }

  // No message of p is suspended or lost.
  ghost predicate NoneMissing(n: Node, p: PeerId)
    requires TicketsOk(n)
  {
    && (forall j :: 0 <= j < |n.waiting| ==> n.accepted[n.waiting[j]].sender != p)
    && (forall j :: 0 <= j < |n.lost| ==> n.accepted[n.lost[j]].sender != p)
  }

  lemma AllHanded(n: Node, p: PeerId, m: Message)
    requires TicketsOk(n) && AllAccounted(n) && NoneMissing(n, p) && m in n.accepted && m.sender == p
    ensures m in HandedOver(n)
  {
    var t: nat :| t < |n.accepted| && n.accepted[t] == m;
    assert Accounted(n, t);
    assert t in n.handled;
    var i :| 0 <= i < |n.handled| && n.handled[i] == t;
    assert HandedOver(n)[i] == m;
  }

  // An accepted message occurs once, so that one not handed over is missing.
  lemma MissingIsMissed(n: Node, now: int, t: nat)
    requires TicketsOk(n) && OnceOk(n, now) && t < |n.accepted| && (t in n.waiting || t in n.lost)
    ensures n.accepted[t] !in HandedOver(n)
  {
    OnePlace(n, t);
    forall i | 0 <= i < |n.handled| ensures n.accepted[n.handled[i]] != n.accepted[t] {
      var h := n.handled[i];
      assert h != t;
      assert SameMessage(n.accepted[t], n.accepted[h]) <==> SameMessage(n.accepted[h], n.accepted[t]);
    }
  }

  function NumberOf(m: Message): int {
    if m.sequence.Some? then m.sequence.value else 0
  }

  lemma SameMembers(part: seq<Message>, got: seq<Message>)
    requires forall l :: 0 <= l < |got| ==> got[l].sequence == Some(l + 1) && got[l] in part
    requires forall i :: 0 <= i < |part| ==> part[i] in got
    requires forall i, j :: 0 <= i < j < |part| ==> LaterIfSequenced(part[i], part[j]) && part[i].sender == part[j].sender
    ensures part == got
  {
    var nums := seq(|part|, i requires 0 <= i < |part| => NumberOf(part[i]));
    forall i | 0 <= i < |part| ensures 1 <= nums[i] <= |got| && got[nums[i] - 1] == part[i] {
      assert part[i] in got;
      var l :| 0 <= l < |got| && got[l] == part[i];
    }
    forall v | 1 <= v <= |got| ensures v in nums {
      assert got[v - 1] in part;
      var i :| 0 <= i < |part| && part[i] == got[v - 1];
      assert nums[i] == v;
    }
    forall i, j | 0 <= i < j < |nums| ensures nums[i] < nums[j] {
      assert LaterIfSequenced(part[i], part[j]);
      assert got[nums[i] - 1] == part[i] && got[nums[j] - 1] == part[j];
    }
    GrowingNumbers(nums, |got|);
    forall i | 0 <= i < |part| ensures part[i] == got[i] {
      assert nums[i] == i + 1;
    }
  }

  lemma MembersOfHanded(n: Node, p: PeerId)
    requires TicketsOk(n) && AllAccounted(n) && NoneMissing(n, p)
    ensures forall m :: m in From(HandedOver(n), p) ==> m in From(n.accepted, p)
    ensures forall m :: m in From(n.accepted, p) ==> m in From(HandedOver(n), p)
  {
    FromIs(HandedOver(n), p);
    FromIs(n.accepted, p);
    hide AllAccounted, TicketsOk, NoneMissing;
    forall m | m in From(n.accepted, p) ensures m in From(HandedOver(n), p) {
      AllHanded(n, p, m);
    }
    forall m | m in From(HandedOver(n), p) ensures m in From(n.accepted, p) {
      HandedIsAccepted(n, m);
    }
  }

  lemma HandedIsAccepted(n: Node, m: Message)
    requires TicketsOk(n) && m in HandedOver(n)
    ensures m in n.accepted
  {
  }

  // The messages of p that were handed over are those accepted, one for one.
  lemma AllInOrder(n: Node, now: int, sent: SendLog, p: PeerId)
    requires NodeOk(n, now, sent) && p in sent && AllAccounted(n) && TicketsOk(n) && NoneMissing(n, p)
    requires PartOfLog(From(HandedOver(n), p), sent[p])
    ensures From(HandedOver(n), p) == From(n.accepted, p)
  {
    NumberedGot(n, sent[p], p);
    hide PrefixOf, BufferOk, OnceOk, AllAccounted, TicketsOk, NoneMissing;
    MembersOfHanded(n, p);
    SameMembers(From(HandedOver(n), p), From(n.accepted, p));
  }

  // One that is suspended or lost makes the difference.
  lemma NotAll(n: Node, now: int, sent: SendLog, p: PeerId)
    requires NodeOk(n, now, sent) && !NoneMissing(n, p)
    ensures From(HandedOver(n), p) != From(n.accepted, p)
  {
    var t: nat :| t < |n.accepted| && (t in n.waiting || t in n.lost) && n.accepted[t].sender == p;
    MissingIsMissed(n, now, t);
    FromIs(HandedOver(n), p);
    FromIs(n.accepted, p);
  }

  lemma AcceptedIsPartOfLog(n: Node, log: seq<Message>, p: PeerId)
    requires PrefixOf(n, p, log)
    ensures PartOfLog(From(n.accepted, p), log)
  {
    FromIs(n.accepted, p);
    var got := From(n.accepted, p);
    assert forall i :: 0 <= i < |got| ==> SameEnvelope(log[i], got[i]) && got[i].sequence == Some(i + 1);
  }

  lemma AllIff(n: Node, now: int, sent: SendLog, p: PeerId)
    requires NodeOk(n, now, sent) && p in sent && AllAccounted(n) && TicketsOk(n)
    ensures From(HandedOver(n), p) == From(n.accepted, p) <==>
            NoneMissing(n, p) && PartOfLog(From(HandedOver(n), p), sent[p])
  {
    AcceptedIsPartOfLog(n, sent[p], p);
    hide PrefixOf, BufferOk, OnceOk, AllAccounted, TicketsOk, NoneMissing, PartOfLog;
    if !NoneMissing(n, p) {
      NotAll(n, now, sent, p);
    } else if PartOfLog(From(HandedOver(n), p), sent[p]) {
      AllInOrder(n, now, sent, p);
    }
  }

  // In every run, with restarts and failing ACKs: the application at q has got of
  // p's messages exactly those accepted, the first k, each once, in send order, if
  // and only if no message of p is suspended at q or lost there, and each of their
  // callbacks was the oldest of p still suspended when it ran.
  lemma CompleteDeliveryIff(time: map<PeerId, int>, steps: seq<Step>, p: PeerId, q: PeerId)
    requires Legal(Start(time), steps) && p in time && q in time
    ensures var w := Exec(Start(time), steps);
            p in w.sent && q in w.nodes && TicketsOk(w.nodes[q]) &&
            var n, got := w.nodes[q], From(HandedOver(w.nodes[q]), p);
            && (got == Delivered(w, q, p) <==>
                  NoneMissing(n, p) && OldestFirst(Start(time), steps, q, TicketsFrom(n, p)))
            && (got == Delivered(w, q, p) ==>
                  CopiesOfFirst(got, w.sent[p]) && forall i :: 0 <= i < |got| ==> got[i].sequence == Some(i + 1))
  {
    hide WorldOk, Exec, Legal, OldestFirst, NodeOk, NoneMissing, PartOfLog, TicketsFrom, TicketsOk, AllAccounted;
    var w := Exec(Start(time), steps);
    FifoDelivery(time, steps, p, q);
    OrderedDeliveryIff(time, steps, p, q);
    assert AllAccounted(EmptyNode) by { NothingAccepted(); }
    RunAccounts(Start(time), steps, q);
    StartOk(time);
    RunKeeps(Start(time), steps);
    At(w, q);
    AllIff(w.nodes[q], w.time[q], w.sent, p);
  }

  lemma NothingAccepted()
    ensures AllAccounted(EmptyNode)
  {
  }
}
