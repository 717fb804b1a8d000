/**
 * The receiving and stamping methods of the message router, on mutable fields,
 * each proved to make exactly the step that `Receiving` defines.
 */
module Router {
  import opened Messages
  import opened Receiving

  class MessageRouter {
    const self: PeerId
    // database tables
    var processed: map<MessageId, int>
    var lastSequence: map<PeerId, int>
    var clocks: Clock
    var pending: map<MessageId, Message>
    // in-memory maps
    var processedIdsCache: seq<MessageId>
    var outOfOrderBuffer: map<PeerId, map<int, Message>>
    // history of accepted messages and of application callbacks
    ghost var accepted: seq<Message>
    ghost var waiting: seq<nat>
    ghost var handled: seq<nat>
    ghost var lost: seq<nat>

    ghost function View(): Node
      reads this
    {
      Node(processed, lastSequence, clocks, processedIdsCache, outOfOrderBuffer, accepted, waiting, handled, lost)
    }

    constructor (self: PeerId)
      ensures this.self == self && View() == EmptyNode && pending == map[]
    {
      this.self := self;
      processed, lastSequence, clocks, processedIdsCache, outOfOrderBuffer := map[], map[], map[], [], map[];
      pending, accepted, waiting, handled, lost := map[], [], [], [], [];
    }

    method UpdateVectorClock(peer: PeerId, counter: int)
      modifies this`clocks
      ensures clocks == Raise(old(clocks), peer, counter)
    {
      if peer !in clocks || counter > clocks[peer] {
        clocks := clocks[peer := counter];
      } else {
        clocks := clocks[peer := clocks[peer]];
      }
    }

    method MergeVectorClock(vc: Clock)
      modifies this`clocks
      ensures clocks == Merge(old(clocks), vc)
    {
      hide Merge, Restrict;
      MergeNoneOrAll(clocks, vc);
      var todo := vc.Keys;
      assert vc.Keys - todo == {};
      while todo != {}
        invariant todo <= vc.Keys
        invariant clocks == Merge(old(clocks), Restrict(vc, vc.Keys - todo))
        decreases |todo|
      {
        var peer :| peer in todo;
        MergeOneMore(old(clocks), vc, vc.Keys - todo, peer);
        assert vc.Keys - (todo - {peer}) == vc.Keys - todo + {peer};
        todo := todo - {peer};
        if vc[peer] >= 0 {
          UpdateVectorClock(peer, vc[peer]);
        }
      }
      assert vc.Keys - todo == vc.Keys;
    }

    method PersistIncoming(m: Message, now: int) returns (applied: bool)
      modifies this
      ensures pending == old(pending)
      ensures View() == Persist(old(View()), m, now)
      ensures applied <==> m.id !in old(processed)
    {
      hide Merge;
      if m.id in processed {
        return false;
      }
      processed := processed[m.id := now];
      if m.sequence.Some? {
        var s := m.sequence.value;
        lastSequence := lastSequence[m.sender :=
          if m.sender !in lastSequence || s > lastSequence[m.sender] then s else lastSequence[m.sender]];
      }
      var updated := false;
      if m.clock.Some? {
        MergeVectorClock(m.clock.value);
        updated := m.sender in m.clock.value && m.clock.value[m.sender] >= 0;
      }
      if m.sequence.Some? && !updated {
        UpdateVectorClock(m.sender, m.sequence.value);
      }
      waiting := waiting + [|accepted|];
      accepted := accepted + [m];
      applied := true;
    }

    method RememberProcessed(id: MessageId)
      modifies this`processedIdsCache
      ensures processedIdsCache == Remember(old(processedIdsCache), id)
    {
      if id !in processedIdsCache {
        processedIdsCache := processedIdsCache + [id];
      }
      if |processedIdsCache| <= DEDUP_CACHE_LIMIT {
        return;
      }
      var oldest := processedIdsCache[0];
      if oldest != "" {
        processedIdsCache := processedIdsCache[1..];
      }
    }

    // `outcome` says how the ACK and the callback go; either may throw.
    method ProcessAccepted(m: Message, now: int, outcome: Outcome) returns (threw: bool)
      modifies this
      ensures View() == Accept(old(View()), m, now, outcome)
      ensures threw <==> !outcome.Succeeds?
    {
      var applied := PersistIncoming(m, now);
      RememberProcessed(m.id);
      if !applied {
        return !outcome.Succeeds?;
      }
      var ticket := waiting[|waiting| - 1];
      waiting := waiting[..|waiting| - 1];
      if outcome.AckFails? {
        lost := lost + [ticket];
        return true;
      }
      handled := handled + [ticket];
      return outcome.CallBackFails?;
    }

    static method OldestKey(slots: map<int, Message>) returns (oldest: int)
      requires slots.Keys != {}
      ensures oldest in slots && forall k :: k in slots ==> oldest <= k
    {
      var todo := slots.Keys;
      ghost var any := AnyKey(todo);
      oldest :| oldest in todo;
      while todo != {}
        invariant todo <= slots.Keys && oldest in slots
        invariant forall k :: k in slots && k !in todo ==> oldest <= k
        decreases |todo|
      {
        any := AnyKey(todo);
        var k :| k in todo;
        todo := todo - {k};
        if k < oldest {
          oldest := k;
        }
      }
    }

    method BufferOutOfOrder(m: Message)
      requires m.sequence.Some?
      modifies this`outOfOrderBuffer
      ensures View() == Stash(old(View()), m)
    {
      var s := m.sequence.value;
      var slots := (if m.sender in outOfOrderBuffer then outOfOrderBuffer[m.sender] else map[])[s := m];
      outOfOrderBuffer := outOfOrderBuffer[m.sender := slots];
      if |slots| <= MAX_BUFFERED_OUT_OF_ORDER {
        return;
      }
      var oldest := OldestKey(slots);
      outOfOrderBuffer := outOfOrderBuffer[m.sender := slots - {oldest}];
    }

    // The first message of the loop is the k-th that the receive accepts.
    method FlushBuffered(peer: PeerId, now: int, out: Outcomes, k: nat) returns (threw: bool)
      modifies this
      ensures View() == Flush(old(View()), peer, now, out, k)
      ensures threw <==> FlushThrows(old(View()), peer, now, out, k)
    {
      hide Accept, FlushNext, LoopAt, Flush, FlushThrows, SlotsOf, DropIfEmpty;
      ghost var start := View();
      LoopStarts(start, peer, now, out, k);
      if peer !in outOfOrderBuffer || |outOfOrderBuffer[peer]| == 0 {
        return false;
      }
      var i := k;
      ghost var at := start;
      while true
        invariant at == View() && peer in at.buffer && LoopAt(start, at, peer, now, out, k, i)
        decreases |at.buffer[peer]|
      {
        var expected := (if peer in lastSequence then lastSequence[peer] else 0) + 1;
        if expected !in outOfOrderBuffer[peer] {
          LoopEnds(start, at, peer, now, out, k, i);
          break;
        }
        LoopGoesOn(start, at, peer, now, out, k, i);
        NextIs(at, at.(buffer := at.buffer[peer := at.buffer[peer] - {expected}]), peer, now, out(i));
        var next := outOfOrderBuffer[peer][expected];
        outOfOrderBuffer := outOfOrderBuffer[peer := outOfOrderBuffer[peer] - {expected}];
        threw := ProcessAccepted(next, now, out(i));
        at := FlushNext(at, peer, now, out(i));
        if threw {
          return;
        }
        i := i + 1;
      }
      if |outOfOrderBuffer[peer]| == 0 {
        outOfOrderBuffer := outOfOrderBuffer - {peer};
      }
      threw := false;
    }

    // `relayed` says whether a store-and-forward envelope has been dealt with: as a
    // delta sync, as a relay, or by receiving what it holds. Then nothing happens
    // after that. `threw` says whether an accepted message ended it by a failure.
    method Receive(m: Message, now: int, relayed: bool, out: Outcomes)
      returns (dealtWith: bool, verdict: Verdict, threw: bool)
      modifies this
      ensures dealtWith <==> m.kind.StoreAndForward? && TimestampValid(m.timestamp, now) && relayed
      ensures dealtWith ==> View() == old(View())
      ensures !dealtWith ==> verdict == Judge(old(View()), m, now)
      ensures !dealtWith ==> View() == Receiving.Receive(old(View()), m, now, out)
      ensures threw <==> !dealtWith && ReceiveThrows(old(View()), m, now, out)
    {
      dealtWith, threw := false, false;
      if m.kind.Ack? || m.kind.Nak? {
        return false, Control, false;
      }
      if !TimestampValid(m.timestamp, now) {
        return false, OutsideWindow, false;
      }
      if m.kind.StoreAndForward? && relayed {
        return true, Accepted, false;
      }
      if m.id in processedIdsCache || m.id in processed {
        return false, Duplicate, false;
      }
      if m.sequence.Some? {
        var known := m.sender in lastSequence;
        var last := if known then lastSequence[m.sender] else 0;
        if known && m.sequence.value <= last {
          return false, OldSequence, false;
        }
        if m.sequence.value > last + 1 {
          BufferOutOfOrder(m);
          return false, Buffered, false;
        }
      }
      if m.clock.Some? && m.sender in m.clock.value {
        var local := if m.sender in clocks then clocks[m.sender] else 0;
        if m.clock.value[m.sender] < local {
          return false, StaleClock, false;
        }
      }
      verdict := Accepted;
      threw := ProcessAccepted(m, now, out(0));
      if !threw {
        threw := FlushBuffered(m.sender, now, out, 1);
      }
    }

    method ApplyOutgoingVectorClock(draft: Message) returns (m: Message)
      modifies this`clocks
      ensures (View(), m) == Stamp(old(View()), self, draft)
    {
      var next := (if self in clocks then clocks[self] else 0) + 1;
      UpdateVectorClock(self, next);
      m := draft;
      if m.sequence.None? {
        m := m.(sequence := Some(next));
      }
      var existing := if draft.clock.Some? then draft.clock.value else map[];
      var merged := MergeEntries(clocks, existing);
      merged := merged[self := if self in merged && merged[self] >= next then merged[self] else next];
      m := m.(clock := Some(merged));
    }

    static method MergeEntries(clocks: Clock, existing: Clock) returns (merged: Clock)
      ensures merged == Merge(clocks, existing)
    {
      hide Merge, Restrict;
      MergeNoneOrAll(clocks, existing);
      merged := clocks;
      var todo := existing.Keys;
      assert existing.Keys - todo == {};
      while todo != {}
        invariant todo <= existing.Keys
        invariant merged == Merge(clocks, Restrict(existing, existing.Keys - todo))
        decreases |todo|
      {
        var peer :| peer in todo;
        MergeOneMore(clocks, existing, existing.Keys - todo, peer);
        assert existing.Keys - (todo - {peer}) == existing.Keys - todo + {peer};
        todo := todo - {peer};
        if existing[peer] >= 0 {
          merged := merged[peer := if peer in merged && merged[peer] >= existing[peer] then merged[peer] else existing[peer]];
        }
      }
      assert existing.Keys - todo == existing.Keys;
    }

    method ApplyDeltaSync(clock: Clock, messages: seq<Message>)
      modifies this`clocks, this`pending
      ensures View() == old(View()).(clocks := Merge(old(clocks), clock))
      ensures pending == QueueAll(old(pending), processed, messages)
    {
      MergeVectorClock(clock);
      for i := 0 to |messages|
        invariant pending == QueueAll(old(pending), processed, messages[..i])
        invariant View() == old(View()).(clocks := Merge(old(clocks), clock))
      {
        assert messages[..i + 1][..i] == messages[..i];
        if messages[i].id in processed {
          continue;
        }
        pending := pending[messages[i].id := messages[i]];
      }
      assert messages[..|messages|] == messages;
    }

    method DeleteOldProcessed(now: int)
      modifies this`processed
      ensures View() == Purge(old(View()), now)
    {
      var cutoff := now - PROCESSED_RETENTION_MS;
      processed := map id | id in processed && !(processed[id] < cutoff) :: processed[id];
    }
  }
}
