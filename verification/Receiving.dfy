/**
 * What one atomic section of the receiving side does to a node: the tables of
 * the database (processed messages, peer sequences, vector clocks) and the
 * router's maps (dedup cache, out-of-order buffer).
 *
 * `accepted` is the history of messages whose processed row was inserted.
 * A position in it is the ticket of that message: `waiting` holds the tickets
 * whose application callback has not been called yet, `handled` the tickets in
 * the order in which the callback was called, and `lost` those whose callback
 * will never be called: the ACK before it failed, or the node restarted.
 */
module Receiving {
  import opened Messages

  const MAX_CLOCK_SKEW_MS := 300_000
  const PROCESSED_RETENTION_MS := 604_800_000
  const DEDUP_CACHE_LIMIT := 10_000
  const MAX_BUFFERED_OUT_OF_ORDER := 512

  datatype Node = Node(
    processed: map<MessageId, int>,
    lastSequence: map<PeerId, int>,
    clocks: Clock,
    cache: seq<MessageId>,
    buffer: map<PeerId, map<int, Message>>,
    accepted: seq<Message>,
    waiting: seq<nat>,
    handled: seq<nat>,
    lost: seq<nat>)

  const EmptyNode := Node(map[], map[], map[], [], map[], [], [], [], [])

  // --------------------------------------------------------------- tables

  function LookupOr0(table: map<PeerId, int>, peer: PeerId): int {
    if peer in table then table[peer] else 0
  }

  // The upsert shared by peer sequences and vector clocks: a row never goes back.
  function Raise(table: map<PeerId, int>, peer: PeerId, counter: int): map<PeerId, int> {
    table[peer := if peer in table && table[peer] >= counter then table[peer] else counter]
  }

  // All non-negative entries of `vc` raised into `clocks`.
  function Merge(clocks: Clock, vc: Clock): Clock {
    map peer | peer in clocks.Keys + vc.Keys && (peer in clocks || vc[peer] >= 0) ::
      if peer in vc && vc[peer] >= 0 && (peer !in clocks || vc[peer] > clocks[peer]) then vc[peer]
      else clocks[peer]
  }

  function Restrict(vc: Clock, peers: set<PeerId>): Clock {
    map peer | peer in vc && peer in peers :: vc[peer]
  }

  // Merging one entry more is one upsert, whatever was merged before it.
  lemma MergeOneMore(clocks: Clock, vc: Clock, done: set<PeerId>, peer: PeerId)
    requires peer in vc && peer !in done
    ensures Merge(clocks, Restrict(vc, done + {peer}))
         == if vc[peer] >= 0 then Raise(Merge(clocks, Restrict(vc, done)), peer, vc[peer])
            else Merge(clocks, Restrict(vc, done))
  {
    var less, more := Restrict(vc, done), Restrict(vc, done + {peer});
    assert forall p :: p in more <==> p == peer || p in less;
    var left := Merge(clocks, more);
    var right := if vc[peer] >= 0 then Raise(Merge(clocks, less), peer, vc[peer]) else Merge(clocks, less);
    assert forall p :: p in left <==> p in right;
    assert forall p :: p in left ==> left[p] == right[p];
  }

  lemma MergeNoneOrAll(clocks: Clock, vc: Clock)
    ensures Merge(clocks, Restrict(vc, {})) == clocks && Restrict(vc, vc.Keys) == vc
  {
    assert Restrict(vc, {}) == map[];
  }

  predicate ClockNamesSender(m: Message) {
    m.clock.Some? && m.sender in m.clock.value && m.clock.value[m.sender] >= 0
  }

  function ClocksAfter(clocks: Clock, m: Message): Clock {
    var merged := if m.clock.Some? then Merge(clocks, m.clock.value) else clocks;
    if m.sequence.Some? && !ClockNamesSender(m) then Raise(merged, m.sender, m.sequence.value) else merged
  }

  // The transaction: nothing at all changes when the id has a row already.
  function Persist(n: Node, m: Message, now: int): Node {
    if m.id in n.processed then n
    else
      n.(processed := n.processed[m.id := now],
         lastSequence := if m.sequence.Some? then Raise(n.lastSequence, m.sender, m.sequence.value)
                         else n.lastSequence,
         clocks := ClocksAfter(n.clocks, m),
         accepted := n.accepted + [m],
         waiting := n.waiting + [|n.accepted|])
  }

  function Remember(cache: seq<MessageId>, id: MessageId): seq<MessageId> {
    var grown := if id in cache then cache else cache + [id];
    if |grown| > DEDUP_CACHE_LIMIT && grown[0] != "" then grown[1..] else grown
  }

  function Process(n: Node, m: Message, now: int): Node {
    Persist(n, m, now).(cache := Remember(n.cache, m.id))
  }

  // -------------------------------------------------- callbacks and failures

  function CallBack(n: Node, i: nat): Node
    requires i < |n.waiting|
  {
    n.(waiting := n.waiting[..i] + n.waiting[i + 1..], handled := n.handled + [n.waiting[i]])
  }

  // The ACK before the callback throws, so that the callback never runs.
  function LoseCallBack(n: Node, i: nat): Node
    requires i < |n.waiting|
  {
    n.(waiting := n.waiting[..i] + n.waiting[i + 1..], lost := n.lost + [n.waiting[i]])
  }

  // How the part of the acceptance that comes after the transaction ends. The
  // second and the third throw, and end whatever receive it is part of.
  datatype Outcome = Succeeds | AckFails | CallBackFails

  // What becomes of each message that one receive accepts, by position.
  type Outcomes = nat -> Outcome

  // The rest of an acceptance without another task in between. There is no
  // callback for a duplicate.
  function Finish(n: Node, accepted: Node, outcome: Outcome): Node {
    if |accepted.waiting| <= |n.waiting| then accepted
    else if outcome.AckFails? then LoseCallBack(accepted, |n.waiting|)
    else CallBack(accepted, |n.waiting|)
  }

  function Accept(n: Node, m: Message, now: int, outcome: Outcome): Node {
    Finish(n, Process(n, m, now), outcome)
  }

  // Only the histories show how an acceptance ended.
  lemma OutcomeIsHistory(n: Node, m: Message, now: int, outcome: Outcome)
    ensures var n', done := Accept(n, m, now, outcome), Process(n, m, now);
            n' == done.(waiting := n'.waiting, handled := n'.handled, lost := n'.lost)
    ensures Accept(n, m, now, outcome).buffer == n.buffer
  {
  }

  // ----------------------------------------------------- out-of-order buffer

  lemma AnyKey(keys: set<int>) returns (k: int)
    requires keys != {}
    ensures k in keys
  {
    assert (forall x :: x !in keys) ==> keys == {};
    k :| k in keys;
  }

  lemma {:induction false} LeastExists(keys: set<int>)
    requires keys != {}
    ensures exists k :: k in keys && forall j :: j in keys ==> k <= j
  {
    var x := AnyKey(keys);
    if keys != {x} {
      LeastExists(keys - {x});
      var y :| y in keys - {x} && forall j :: j in keys - {x} ==> y <= j;
      var k := if x <= y then x else y;
      assert forall j :: j in keys ==> j == x || j in keys - {x};
      assert k in keys && forall j :: j in keys ==> k <= j;
    }
  }

  ghost function Least(keys: set<int>): (k: int)
    requires keys != {}
    ensures k in keys && forall j :: j in keys ==> k <= j
  {
    LeastExists(keys);
    var k :| k in keys && forall j :: j in keys ==> k <= j;
    k
  }

  ghost function BufferPut(slots: map<int, Message>, s: int, m: Message): map<int, Message> {
    var grown := slots[s := m];
    assert s in grown.Keys;
    if |grown| <= MAX_BUFFERED_OUT_OF_ORDER then grown else grown - {Least(grown.Keys)}
  }

  function SlotsOf(n: Node, peer: PeerId): map<int, Message> {
    if peer in n.buffer then n.buffer[peer] else map[]
  }

  ghost function Stash(n: Node, m: Message): Node
    requires m.sequence.Some?
  {
    n.(buffer := n.buffer[m.sender := BufferPut(SlotsOf(n, m.sender), m.sequence.value, m)])
  }

  predicate CanFlush(n: Node, peer: PeerId) {
    peer in n.buffer && LookupOr0(n.lastSequence, peer) + 1 in n.buffer[peer]
  }

  // One iteration of the flush loop.
  function FlushOne(n: Node, peer: PeerId, now: int): Node
    requires CanFlush(n, peer)
  {
    var expected := LookupOr0(n.lastSequence, peer) + 1;
    Process(n.(buffer := n.buffer[peer := n.buffer[peer] - {expected}]), n.buffer[peer][expected], now)
  }

  // The same with what follows the transaction.
  function FlushNext(n: Node, peer: PeerId, now: int, outcome: Outcome): Node
    requires CanFlush(n, peer)
  {
    var expected := LookupOr0(n.lastSequence, peer) + 1;
    Accept(n.(buffer := n.buffer[peer := n.buffer[peer] - {expected}]), n.buffer[peer][expected], now, outcome)
  }

  function DropIfEmpty(n: Node, peer: PeerId): Node {
    if peer in n.buffer && n.buffer[peer] == map[] then n.(buffer := n.buffer - {peer}) else n
  }

  // The loop itself; its first message is the k-th of the receive. Every
  // iteration takes one message out of the peer's buffer, so it ends even when a
  // message turns out to be a duplicate and the peer's sequence stays where it
  // was. A failure ends it at once.
  function FlushLoop(n: Node, peer: PeerId, now: int, out: Outcomes, k: nat): Node
    decreases |SlotsOf(n, peer)|
  {
    if !CanFlush(n, peer) then DropIfEmpty(n, peer)
    else
      var n' := FlushNext(n, peer, now, out(k));
      assert |n'.buffer[peer]| < |n.buffer[peer]| by {
        SlotRemoved(n.buffer[peer], LookupOr0(n.lastSequence, peer) + 1);
      }
      if out(k).Succeeds? then FlushLoop(n', peer, now, out, k + 1) else n'
  }

  function Flush(n: Node, peer: PeerId, now: int, out: Outcomes, k: nat): Node {
    if SlotsOf(n, peer) == map[] then n else FlushLoop(n, peer, now, out, k)
  }

  // How many messages the loop takes out of the buffer when none fails.
  function Iterations(n: Node, peer: PeerId, now: int): nat
    decreases |SlotsOf(n, peer)|
  {
    if !CanFlush(n, peer) then 0
    else
      var n' := FlushNext(n, peer, now, Succeeds);
      assert |n'.buffer[peer]| < |n.buffer[peer]| by {
        SlotRemoved(n.buffer[peer], LookupOr0(n.lastSequence, peer) + 1);
      }
      1 + Iterations(n', peer, now)
  }

  // Whether the flush loop that starts at `n` is ended by a failure.
  predicate FlushThrows(n: Node, peer: PeerId, now: int, out: Outcomes, k: nat) {
    !AllSucceed(out, k, k + Iterations(n, peer, now))
  }

  predicate AllSucceed(out: Outcomes, from: nat, to: int) {
    forall j :: from <= j < to ==> out(j).Succeeds?
  }

  lemma NextIs(n: Node, taken: Node, peer: PeerId, now: int, outcome: Outcome)
    requires CanFlush(n, peer)
    requires var s := LookupOr0(n.lastSequence, peer) + 1;
             taken == n.(buffer := n.buffer[peer := n.buffer[peer] - {s}])
    ensures var n' := Accept(taken, n.buffer[peer][LookupOr0(n.lastSequence, peer) + 1], now, outcome);
            n' == FlushNext(n, peer, now, outcome) && n'.buffer == taken.buffer
    ensures |taken.buffer[peer]| < |n.buffer[peer]|
  {
    var s := LookupOr0(n.lastSequence, peer) + 1;
    SlotRemoved(n.buffer[peer], s);
    OutcomeIsHistory(taken, n.buffer[peer][s], now, outcome);
    hide Accept;
  }

  lemma NextShrinks(n: Node, peer: PeerId, now: int, outcome: Outcome)
    requires CanFlush(n, peer)
    ensures |SlotsOf(FlushNext(n, peer, now, outcome), peer)| < |SlotsOf(n, peer)|
  {
    var s := LookupOr0(n.lastSequence, peer) + 1;
    NextIs(n, n.(buffer := n.buffer[peer := n.buffer[peer] - {s}]), peer, now, outcome);
    hide FlushNext, Accept;
  }

  // The loop that began at `start` has come to `n`, and next takes the i-th message.
  ghost predicate LoopAt(start: Node, n: Node, peer: PeerId, now: int, out: Outcomes, k: nat, i: nat) {
    && k <= i && AllSucceed(out, k, i)
    && FlushLoop(n, peer, now, out, i) == Flush(start, peer, now, out, k)
    && i + Iterations(n, peer, now) == k + Iterations(start, peer, now)
  }

  lemma LoopStarts(n: Node, peer: PeerId, now: int, out: Outcomes, k: nat)
    ensures if peer !in n.buffer || |n.buffer[peer]| == 0 then
              Flush(n, peer, now, out, k) == n && !FlushThrows(n, peer, now, out, k)
            else
              LoopAt(n, n, peer, now, out, k, k)
  {
    assert peer in n.buffer && |n.buffer[peer]| == 0 ==> n.buffer[peer] == map[];
  }

  lemma LoopGoesOn(start: Node, n: Node, peer: PeerId, now: int, out: Outcomes, k: nat, i: nat)
    requires LoopAt(start, n, peer, now, out, k, i) && CanFlush(n, peer)
    ensures var n' := FlushNext(n, peer, now, out(i));
            if out(i).Succeeds? then LoopAt(start, n', peer, now, out, k, i + 1)
            else n' == Flush(start, peer, now, out, k) && FlushThrows(start, peer, now, out, k)
  {
    hide FlushNext, CanFlush, Flush;
  }

  lemma LoopEnds(start: Node, n: Node, peer: PeerId, now: int, out: Outcomes, k: nat, i: nat)
    requires LoopAt(start, n, peer, now, out, k, i) && !CanFlush(n, peer)
    ensures Flush(start, peer, now, out, k)
         == if peer in n.buffer && |n.buffer[peer]| == 0 then n.(buffer := n.buffer - {peer}) else n
    ensures !FlushThrows(start, peer, now, out, k)
  {
    hide FlushNext, CanFlush, Flush;
    assert peer in n.buffer && |n.buffer[peer]| == 0 ==> n.buffer[peer] == map[];
  }

  lemma SlotRemoved(slots: map<int, Message>, s: int)
    requires s in slots
    ensures |slots - {s}| == |slots| - 1
  {
    assert (slots - {s}).Keys == slots.Keys - {s};
    assert |(slots - {s}).Keys| == |slots.Keys| - 1;
  }

  // The loop ends at a gap, leaves no empty buffer of the peer behind, and
  // touches no other peer's buffer or sequence.
  ghost predicate Flushed(n: Node, n': Node, peer: PeerId) {
    && !CanFlush(n', peer)
    && (peer in n'.buffer ==> n'.buffer[peer] != map[])
    && OthersKept(n, n', peer)
  }

  ghost predicate OthersKept(n: Node, n': Node, peer: PeerId) {
    forall q :: q != peer ==>
      SlotsOf(n', q) == SlotsOf(n, q) && LookupOr0(n'.lastSequence, q) == LookupOr0(n.lastSequence, q)
  }

  predicate OwnSlots(n: Node, peer: PeerId) {
    forall s :: s in SlotsOf(n, peer) ==> SlotsOf(n, peer)[s].sender == peer
  }

  lemma FlushOneIsLocal(n: Node, peer: PeerId, now: int)
    requires CanFlush(n, peer) && OwnSlots(n, peer)
    ensures var n' := FlushOne(n, peer, now);
            && |SlotsOf(n', peer)| == |SlotsOf(n, peer)| - 1
            && OwnSlots(n', peer) && OthersKept(n, n', peer)
  {
    var expected, n' := LookupOr0(n.lastSequence, peer) + 1, FlushOne(n, peer, now);
    SlotRemoved(n.buffer[peer], expected);
    assert SlotsOf(n', peer) == SlotsOf(n, peer) - {expected};
    assert expected in SlotsOf(n, peer);
  }

  lemma NextIsOne(n: Node, peer: PeerId, now: int, outcome: Outcome)
    requires CanFlush(n, peer)
    ensures var n', done := FlushNext(n, peer, now, outcome), FlushOne(n, peer, now);
            n' == done.(waiting := n'.waiting, handled := n'.handled, lost := n'.lost)
  {
    hide Accept, Process;
    var expected := LookupOr0(n.lastSequence, peer) + 1;
    OutcomeIsHistory(
      n.(buffer := n.buffer[peer := n.buffer[peer] - {expected}]), n.buffer[peer][expected], now, outcome);
  }

  lemma FlushNextIsLocal(n: Node, peer: PeerId, now: int, outcome: Outcome)
    requires CanFlush(n, peer) && OwnSlots(n, peer)
    ensures var n' := FlushNext(n, peer, now, outcome);
            && |SlotsOf(n', peer)| == |SlotsOf(n, peer)| - 1
            && OwnSlots(n', peer) && OthersKept(n, n', peer)
            && (CanFlush(n', peer) <==> CanFlush(FlushNext(n, peer, now, Succeeds), peer))
  {
    FlushOneIsLocal(n, peer, now);
    NextIsOne(n, peer, now, outcome);
    NextIsOne(n, peer, now, Succeeds);
    hide FlushOne, FlushNext;
  }

  lemma OthersKeptTwice(n: Node, n1: Node, n2: Node, peer: PeerId)
    requires OthersKept(n, n1, peer) && OthersKept(n1, n2, peer)
    ensures OthersKept(n, n2, peer)
  {
  }

  lemma DropFlushes(n: Node, peer: PeerId)
    requires !CanFlush(n, peer)
    ensures Flushed(n, DropIfEmpty(n, peer), peer)
  {
  }

  lemma {:induction false} FlushLoopEnds(n: Node, peer: PeerId, now: int, out: Outcomes, k: nat)
    requires OwnSlots(n, peer)
    ensures var n', last := FlushLoop(n, peer, now, out, k), k + Iterations(n, peer, now);
            && OthersKept(n, n', peer)
            && (!CanFlush(n', peer) <==> AllSucceed(out, k, last - 1))
            && (AllSucceed(out, k, last) ==> Flushed(n, n', peer))
    decreases |SlotsOf(n, peer)|
  {
    hide FlushNext, OwnSlots, OthersKept, CanFlush, SlotsOf, DropIfEmpty;
    if CanFlush(n, peer) {
      var n' := FlushNext(n, peer, now, out(k));
      FlushNextIsLocal(n, peer, now, out(k));
      if out(k).Succeeds? {
        FlushLoopEnds(n', peer, now, out, k + 1);
        OthersKeptTwice(n, n', FlushLoop(n', peer, now, out, k + 1), peer);
      }
    } else {
      DropFlushes(n, peer);
    }
  }

  lemma FlushEnds(n: Node, peer: PeerId, now: int, out: Outcomes, k: nat)
    requires OwnSlots(n, peer)
    ensures var n', last := Flush(n, peer, now, out, k), k + Iterations(n, peer, now);
            && OthersKept(n, n', peer)
            && (!CanFlush(n', peer) <==> AllSucceed(out, k, last - 1))
            && (if SlotsOf(n, peer) == map[] then n' == n else AllSucceed(out, k, last) ==> Flushed(n, n', peer))
  {
    FlushLoopEnds(n, peer, now, out, k);
  }

  // ------------------------------------------------------------- the gates

  datatype Verdict = Control | OutsideWindow | Duplicate | OldSequence | Buffered | StaleClock | Accepted

  predicate TimestampValid(timestamp: int, now: int) {
    (if now - timestamp >= 0 then now - timestamp else timestamp - now) <= MAX_CLOCK_SKEW_MS
  }

  function Judge(n: Node, m: Message, now: int): Verdict {
    if m.kind.Ack? || m.kind.Nak? then Control
    else if !TimestampValid(m.timestamp, now) then OutsideWindow
    else if m.id in n.cache || m.id in n.processed then Duplicate
    else if m.sequence.Some? && m.sender in n.lastSequence && m.sequence.value <= n.lastSequence[m.sender] then
      OldSequence
    else if m.sequence.Some? && m.sequence.value > LookupOr0(n.lastSequence, m.sender) + 1 then Buffered
    else if m.clock.Some? && m.sender in m.clock.value && m.clock.value[m.sender] < LookupOr0(n.clocks, m.sender) then
      StaleClock
    else Accepted
  }

  // From the timestamp check to the end of the transaction: no await in between.
  ghost function Gate(n: Node, m: Message, now: int): Node {
    match Judge(n, m, now)
    case Accepted => Process(n, m, now)
    case Buffered => Stash(n, m)
    case _ => n
  }

  // A receive without another task running in between. When the message itself
  // fails, the buffer is not looked at.
  ghost function Receive(n: Node, m: Message, now: int, out: Outcomes): Node {
    if !Judge(n, m, now).Accepted? then Gate(n, m, now)
    else if out(0).Succeeds? then Flush(Accept(n, m, now, out(0)), m.sender, now, out, 1)
    else Accept(n, m, now, out(0))
  }

  // Whether a message that it accepts ends the receive by a failure.
  ghost predicate ReceiveThrows(n: Node, m: Message, now: int, out: Outcomes) {
    Judge(n, m, now).Accepted? &&
    (!out(0).Succeeds? || FlushThrows(Accept(n, m, now, out(0)), m.sender, now, out, 1))
  }

  // --------------------------------------------------------------- sending

  function Stamp(n: Node, self: PeerId, draft: Message): (Node, Message) {
    var next := LookupOr0(n.clocks, self) + 1;
    var clocks := Raise(n.clocks, self, next);
    var preset := if draft.clock.Some? then draft.clock.value else map[];
    (n.(clocks := clocks),
     draft.(sequence := if draft.sequence.Some? then draft.sequence else Some(next),
            clock := Some(Raise(Merge(clocks, preset), self, next))))
  }

  // Queueing the pending messages of a delta-sync payload, skipping processed ids.
  function QueueAll(pending: map<MessageId, Message>, processed: map<MessageId, int>, messages: seq<Message>)
    : map<MessageId, Message>
  {
    if messages == [] then pending
    else
      var m := messages[|messages| - 1];
      var queued := QueueAll(pending, processed, messages[..|messages| - 1]);
      if m.id in processed then queued else queued[m.id := m]
  }

  function Purge(n: Node, now: int): Node {
    n.(processed := map id | id in n.processed && !(n.processed[id] < now - PROCESSED_RETENTION_MS) :: n.processed[id])
  }

  // A restart keeps the tables and loses the maps and the suspended callbacks.
  function Restart(n: Node): Node {
    n.(cache := [], buffer := map[], waiting := [], lost := n.lost + n.waiting)
  }
}
