/**
 * For which failures the out-of-order buffer stays settled: a failing ACK or
 * callback ends a receive before the buffer has been flushed, and what is left in
 * it may never be flushed at all.
 */
module FailingReceives {
  import opened Messages
  import opened Receiving
  import opened Delivery
  import opened AtRest

  // Every receive of the run goes as one of the allowed outcomes says.
  ghost predicate Within(events: seq<Event>, allowed: Outcomes -> bool) {
    forall k :: 0 <= k < |events| && events[k].Arrival? ==> allowed(events[k].out)
  }

  // A buffer holds at most 512 messages, so no later failure can be early.
  lemma {:induction false} FewIterations(n: Node, peer: PeerId, now: int)
    ensures Iterations(n, peer, now) <= |SlotsOf(n, peer)|
    decreases |SlotsOf(n, peer)|
  {
    if CanFlush(n, peer) {
      NextShrinks(n, peer, now, Succeeds);
      FewIterations(FlushNext(n, peer, now, Succeeds), peer, now);
    }
  }

  lemma NotCutShort(n: Node, event: Event)
    requires Settled(n) && (event.Arrival? ==> AllSucceed(event.out, 0, MAX_BUFFERED_OUT_OF_ORDER))
    ensures !EventCutShort(n, event)
  {
    if event.Arrival? {
      var n' := Accept(n, event.m, event.now, Succeeds);
      OutcomeIsHistory(n, event.m, event.now, Succeeds);
      FewIterations(n', event.m.sender, event.now);
    }
  }

  lemma {:induction false} SettledIfAllSucceed(events: seq<Event>)
    requires forall k :: 0 <= k < |events| && events[k].Arrival? ==>
      AllSucceed(events[k].out, 0, MAX_BUFFERED_OUT_OF_ORDER)
    ensures Settled(After(EmptyNode, events))
  {
    hide Settled, OneEvent, EventCutShort, AllSucceed;
    if |events| == 0 {
      EmptyIsSettled();
    } else {
      var before, last := After(EmptyNode, events[..|events| - 1]), events[|events| - 1];
      SettledIfAllSucceed(events[..|events| - 1]);
      NotCutShort(before, last);
      EventSettlesIff(before, last);
    }
  }

  // --------------------------------------------------------------- witnesses

  // The s-th message of a sender, with an id of its own.
  function Numbered(s: nat): (m: Message)
    ensures m.sender == "p" && m.sequence == Some(s)
  {
    Message(seq(s, _ => 'a'), Data, "p", "q", "", 0, Some(s), None)
  }

  lemma OwnIds(s: nat, t: nat)
    requires s != t
    ensures Numbered(s).id != Numbered(t).id
  {
    assert |Numbered(s).id| == s && |Numbered(t).id| == t;
  }

  // Messages `low` to `high` under their numbers.
  function Slots(low: nat, high: nat): map<int, Message> {
    map s: nat | low <= s <= high :: Numbered(s)
  }

  lemma {:induction false} SlotCount(low: nat, high: nat)
    requires low <= high + 1
    ensures |Slots(low, high)| == high + 1 - low
    decreases high + 1 - low
  {
    hide Numbered;
    if low <= high {
      SlotCount(low + 1, high);
      assert Slots(low, high) == Slots(low + 1, high)[low := Numbered(low)];
    } else {
      assert Slots(low, high) == map[];
    }
  }

  // Messages 2 to k + 1 arrive, the first one being late.
  function Filling(k: nat, out: Outcomes): (events: seq<Event>)
    ensures |events| == k && forall i :: 0 <= i < k ==> events[i].Arrival? && events[i].out == out
  {
    if k == 0 then [] else Filling(k - 1, out) + [Arrival(Numbered(k + 1), 0, out)]
  }

  function Filled(k: nat): Node {
    if k == 0 then EmptyNode else EmptyNode.(buffer := map["p" := Slots(2, k + 1)])
  }

  lemma {:induction false} FillingFills(k: nat, out: Outcomes)
    requires k <= MAX_BUFFERED_OUT_OF_ORDER
    ensures After(EmptyNode, Filling(k, out)) == Filled(k) && Settled(Filled(k))
  {
    hide Settled, Numbered, Receiving.Receive;
    if k == 0 {
      EmptyIsSettled();
    } else {
      FillingFills(k - 1, out);
      assert Filling(k, out)[..k - 1] == Filling(k - 1, out);
      OneMoreFilled(k, out);
    }
  }

  lemma OneMoreFilled(k: nat, out: Outcomes)
    requires 1 <= k <= MAX_BUFFERED_OUT_OF_ORDER && Settled(Filled(k - 1))
    ensures Receiving.Receive(Filled(k - 1), Numbered(k + 1), 0, out) == Filled(k) && Settled(Filled(k))
  {
    var n, m := Filled(k - 1), Numbered(k + 1);
    FreshMessage(n, m);
    PutFills(k);
    StashSettled(n, m);
    hide Settled, Numbered, Judge, Flush, Accept, Slots, BufferPut;
    assert Stash(n, m) == Filled(k);
  }

  lemma PutFills(k: nat)
    requires 1 <= k <= MAX_BUFFERED_OUT_OF_ORDER
    ensures BufferPut(SlotsOf(Filled(k - 1), "p"), k + 1, Numbered(k + 1)) == Slots(2, k + 1)
  {
    SlotCount(2, k + 1);
    hide Numbered;
    assert SlotsOf(Filled(k - 1), "p")[k + 1 := Numbered(k + 1)] == Slots(2, k + 1);
  }

  lemma FreshMessage(n: Node, m: Message)
    requires n.cache == [] && n.processed == map[] && n.lastSequence == map[] && n.clocks == map[]
    requires exists s: nat :: s >= 1 && m == Numbered(s)
    ensures Judge(n, m, 0) == if m.sequence.value == 1 then Accepted else Buffered
  {
  }

  // The loop can take out everything up to `top`.
  ghost predicate Chain(n: Node, last: nat, top: nat) {
    && "p" in n.lastSequence && n.lastSequence["p"] == last
    && "p" in n.buffer && n.buffer["p"] == Slots(last + 1, top)
    && forall s: nat :: s > last ==> Numbered(s).id !in n.processed
  }

  lemma ChainGoesOn(n: Node, last: nat, top: nat, now: int)
    requires Chain(n, last, top) && last < top
    ensures CanFlush(n, "p") && Chain(FlushNext(n, "p", now, Succeeds), last + 1, top)
  {
    NextIsOne(n, "p", now, Succeeds);
    hide FlushNext;
    var n' := FlushOne(n, "p", now);
    assert Slots(last + 1, top) - {last + 1} == Slots(last + 2, top);
    forall s: nat | s > last + 1 ensures Numbered(s).id !in n'.processed {
      OwnIds(s, last + 1);
    }
  }

  lemma {:induction false} ChainLength(n: Node, last: nat, top: nat, now: int)
    requires Chain(n, last, top) && last <= top
    ensures Iterations(n, "p", now) == top - last
    decreases top - last
  {
    hide Chain, FlushNext;
    if last < top {
      ChainGoesOn(n, last, top, now);
      ChainLength(FlushNext(n, "p", now, Succeeds), last + 1, top, now);
    } else {
      ChainEnds(n, last);
    }
  }

  lemma ChainEnds(n: Node, last: nat)
    requires Chain(n, last, last)
    ensures !CanFlush(n, "p")
  {
  }

  lemma FullChain(k: nat)
    requires 1 <= k <= MAX_BUFFERED_OUT_OF_ORDER
    ensures Judge(Filled(k), Numbered(1), 0).Accepted?
    ensures Chain(Accept(Filled(k), Numbered(1), 0, Succeeds), 1, k + 1)
  {
    var n := Process(Filled(k), Numbered(1), 0);
    FreshMessage(Filled(k), Numbered(1));
    OutcomeIsHistory(Filled(k), Numbered(1), 0, Succeeds);
    assert n.processed == map[Numbered(1).id := 0];
    forall s: nat | s > 1 ensures Numbered(s).id !in n.processed {
      OwnIds(s, 1);
    }
  }

  // 512 messages are waiting for the first one, whose receive fails at one of
  // them that is not the last.
  function FullThenFirst(out: Outcomes): (events: seq<Event>) {
    Filling(MAX_BUFFERED_OUT_OF_ORDER, out) + [Arrival(Numbered(1), 0, out)]
  }

  lemma EarlyFailureUnsettles(out: Outcomes)
    requires !AllSucceed(out, 0, MAX_BUFFERED_OUT_OF_ORDER)
    ensures !Settled(After(EmptyNode, FullThenFirst(out)))
  {
    hide AllSucceed, Settled, Chain, Filled;
    var n := Filled(MAX_BUFFERED_OUT_OF_ORDER);
    FillingFills(MAX_BUFFERED_OUT_OF_ORDER, out);
    assert FullThenFirst(out)[..MAX_BUFFERED_OUT_OF_ORDER] == Filling(MAX_BUFFERED_OUT_OF_ORDER, out);
    FullChain(MAX_BUFFERED_OUT_OF_ORDER);
    ChainLength(Accept(n, Numbered(1), 0, Succeeds), 1, MAX_BUFFERED_OUT_OF_ORDER + 1, 0);
    ReceiveSettlesIff(n, Numbered(1), 0, out);
  }

  // The buffers are settled after all runs of receives that go as a class of
  // outcomes allows, and restarts, if and only if in no outcome of the class one
  // of the first 512 messages of a receive fails.
  lemma SettledForAllIff(allowed: Outcomes -> bool)
    ensures (forall events :: Within(events, allowed) ==> Settled(After(EmptyNode, events)))
       <==> (forall out :: allowed(out) ==> AllSucceed(out, 0, MAX_BUFFERED_OUT_OF_ORDER))
  {
    hide Settled, After, AllSucceed;
    if forall out :: allowed(out) ==> AllSucceed(out, 0, MAX_BUFFERED_OUT_OF_ORDER) {
      forall events | Within(events, allowed) ensures Settled(After(EmptyNode, events)) {
        SettledIfAllSucceed(events);
      }
    } else {
      var out :| allowed(out) && !AllSucceed(out, 0, MAX_BUFFERED_OUT_OF_ORDER);
      EarlyFailureUnsettles(out);
      assert Within(FullThenFirst(out), allowed);
    }
  }

  // A slot that the flush loop has passed.
  predicate Behind(n: Node, peer: PeerId, s: int) {
    HasSlot(n, peer, s) && peer in n.lastSequence && s <= n.lastSequence[peer]
  }

  lemma AcceptLeavesBehind(n: Node, m: Message, now: int, outcome: Outcome, peer: PeerId, s: int)
    requires Behind(n, peer, s) && Acceptable(n, m, now)
    ensures Behind(Accept(n, m, now, outcome), peer, s)
  {
    OutcomeIsHistory(n, m, now, outcome);
    hide Accept;
  }

  lemma NextLeavesBehind(n: Node, active: PeerId, now: int, outcome: Outcome, peer: PeerId, s: int)
    requires Behind(n, peer, s) && CanFlush(n, active)
    ensures Behind(FlushNext(n, active, now, outcome), peer, s)
    ensures |SlotsOf(FlushNext(n, active, now, outcome), active)| < |SlotsOf(n, active)|
  {
    NextIsOne(n, active, now, outcome);
    NextShrinks(n, active, now, outcome);
    hide FlushNext;
  }

  lemma {:induction false} LoopLeavesBehind(
    n: Node, active: PeerId, now: int, out: Outcomes, k: nat, peer: PeerId, s: int)
    requires Behind(n, peer, s)
    ensures Behind(FlushLoop(n, active, now, out, k), peer, s)
    decreases |SlotsOf(n, active)|
  {
    hide FlushNext;
    if CanFlush(n, active) {
      NextLeavesBehind(n, active, now, out(k), peer, s);
      if out(k).Succeeds? {
        LoopLeavesBehind(FlushNext(n, active, now, out(k)), active, now, out, k + 1, peer, s);
      }
    }
  }

  // No receive ever takes such a message out of the buffer, except one that makes
  // room in a full buffer.
  lemma BehindStays(n: Node, m: Message, now: int, out: Outcomes, peer: PeerId, s: int)
    requires Behind(n, peer, s)
    requires m.sender != peer || |SlotsOf(n, peer)| < MAX_BUFFERED_OUT_OF_ORDER
    ensures Behind(Receiving.Receive(n, m, now, out), peer, s)
  {
    GatesChecked(n, m, now);
    hide Judge, FlushLoop, Accept, Process;
    match Judge(n, m, now)
    case Accepted =>
      AcceptLeavesBehind(n, m, now, out(0), peer, s);
      LoopLeavesBehind(Accept(n, m, now, out(0)), m.sender, now, out, 1, peer, s);
    case Buffered =>
      if m.sender == peer {
        NoEviction(SlotsOf(n, peer), m.sequence.value, m);
      }
    case _ =>
  }

  lemma NoEviction(slots: map<int, Message>, s: int, m: Message)
    requires |slots| < MAX_BUFFERED_OUT_OF_ORDER
    ensures BufferPut(slots, s, m) == slots[s := m]
  {
    assert slots[s := m].Keys == slots.Keys + {s};
    assert |slots[s := m].Keys| <= |slots.Keys| + 1;
  }

  function Smoothly(): Outcomes {
    _ => Succeeds
  }

  function AckFailing(): Outcomes {
    _ => AckFails
  }

  // Message 2 comes before message 1, and the ACK of message 1 fails.
  function StuckRun(): seq<Event> {
    [Arrival(Numbered(2), 0, Smoothly()), Arrival(Numbered(1), 0, AckFailing()), Arrival(Numbered(2), 0, Smoothly())]
  }

  lemma SecondEvent()
    ensures var n := Receiving.Receive(Filled(1), Numbered(1), 0, AckFailing());
            && HasSlot(n, "p", 2) && n.lastSequence == map["p" := 1] && n.buffer == Filled(1).buffer
            && n.processed == map[Numbered(1).id := 0] && n.cache == [Numbered(1).id] && n.clocks == map["p" := 1]
  {
    FreshMessage(Filled(1), Numbered(1));
    OutcomeIsHistory(Filled(1), Numbered(1), 0, AckFails);
    hide Judge, Accept;
  }

  lemma ThirdEvent(n: Node)
    requires HasSlot(n, "p", 2) && n.lastSequence == map["p" := 1] && n.buffer == Filled(1).buffer
    requires n.processed == map[Numbered(1).id := 0] && n.cache == [Numbered(1).id] && n.clocks == map["p" := 1]
    ensures var n' := Receiving.Receive(n, Numbered(2), 0, Smoothly());
            Behind(n', "p", 2)
  {
    OwnIds(1, 2);
    var m := Numbered(2);
    assert Judge(n, m, 0).Accepted?;
    OutcomeIsHistory(n, m, 0, Succeeds);
    hide Judge, Accept;
    var n1 := Accept(n, m, 0, Succeeds);
    assert n1.buffer["p"] == Slots(2, 2) && !CanFlush(n1, "p");
    assert FlushLoop(n1, "p", 0, Smoothly(), 1) == DropIfEmpty(n1, "p");
  }

  // Then message 2 lies in the buffer although it comes next; and when another
  // copy of it arrives and is accepted without a failure, the first copy stays in
  // the buffer, behind the last accepted number.
  lemma StuckBehindLast()
    ensures var n := After(EmptyNode, StuckRun()[..2]);
            HasSlot(n, "p", 2) && LookupOr0(n.lastSequence, "p") == 1 && !Settled(n)
    ensures var n := After(EmptyNode, StuckRun());
            Behind(n, "p", 2) && !Settled(n)
  {
    hide Receiving.Receive, Numbered;
    assert StuckRun()[..2][..1] == [StuckRun()[0]] && StuckRun()[..1][..0] == [];
    EmptyIsSettled();
    OneMoreFilled(1, Smoothly());
    assert After(EmptyNode, [StuckRun()[0]]) == Filled(1);
    SecondEvent();
    ThirdEvent(After(EmptyNode, StuckRun()[..2]));
  }
}
