/**
 * What exactly gets through the gates of a node, and what a message that does
 * not come next does to the buffer.
 */
module Gates {
  import opened Messages
  import opened Receiving
  import opened Delivery

  // Not an ACK or NAK, no more than five minutes off, and not seen before.
  predicate NewAndTimely(n: Node, m: Message, now: int) {
    && !m.kind.Ack? && !m.kind.Nak?
    && -300_000 <= now - m.timestamp <= 300_000
    && m.id !in n.cache && m.id !in n.processed
  }

  // The number after the last one; from an unknown sender, none above 1.
  predicate ComesNext(n: Node, m: Message) {
    m.sequence.Some? ==>
      if m.sender in n.lastSequence then m.sequence.value == n.lastSequence[m.sender] + 1 else m.sequence.value <= 1
  }

  predicate LeavesGap(n: Node, m: Message) {
    m.sequence.Some? &&
    m.sequence.value > 1 + if m.sender in n.lastSequence then n.lastSequence[m.sender] else 0
  }

  // The sender's own entry of the clock, if any, is no less than what is known.
  predicate NotStale(n: Node, m: Message) {
    m.clock.Some? && m.sender in m.clock.value ==>
      m.clock.value[m.sender] >= if m.sender in n.clocks then n.clocks[m.sender] else 0
  }

  // A message is accepted if and only if it is new, timely, next and not stale;
  // otherwise nothing is.
  lemma AcceptedIff(n: Node, m: Message, now: int)
    ensures Gate(n, m, now).accepted == n.accepted + [m] <==>
            NewAndTimely(n, m, now) && ComesNext(n, m) && NotStale(n, m)
    ensures Gate(n, m, now).accepted == n.accepted + [m] || Gate(n, m, now).accepted == n.accepted
  {
    hide Process, Stash;
    ProcessAccepts(n, m, now);
    assert |n.accepted + [m]| != |n.accepted|;
  }

  lemma ProcessAccepts(n: Node, m: Message, now: int)
    ensures Process(n, m, now).accepted == if m.id in n.processed then n.accepted else n.accepted + [m]
    ensures m.sequence.Some? ==> Stash(n, m).accepted == n.accepted
  {
    hide BufferPut, ClocksAfter, Raise;
  }

  predicate InBuffer(n: Node, m: Message) {
    m.sequence.Some? && HasSlot(n, m.sender, m.sequence.value) && n.buffer[m.sender][m.sequence.value] == m
  }

  // The buffer of the peer with one more message in it.
  function WithSlot(n: Node, m: Message): map<int, Message>
    requires m.sequence.Some?
  {
    (if m.sender in n.buffer then n.buffer[m.sender] else map[])[m.sequence.value := m]
  }

  // A message lies in the buffer after its arrival if and only if it is new and
  // timely and leaves a gap, or lay there before; but the 513th is put there only
  // if it is not the one with the least number.
  lemma BufferedIff(n: Node, m: Message, now: int)
    requires m.sequence.Some?
    ensures InBuffer(Gate(n, m, now), m) <==>
            if NewAndTimely(n, m, now) && LeavesGap(n, m) then
              |WithSlot(n, m)| <= 512 || exists s :: s in WithSlot(n, m) && s < m.sequence.value
            else InBuffer(n, m)
  {
    hide Process, BufferPut;
    ProcessKeepsBuffer(n, m, now);
    PutIs(SlotsOf(n, m.sender), m.sequence.value, m);
  }

  lemma ProcessKeepsBuffer(n: Node, m: Message, now: int)
    ensures Process(n, m, now).buffer == n.buffer
  {
  }

  // Up to 512 messages all stay; beyond, the one with the least number goes, and
  // no other one.
  lemma PutIs(slots: map<int, Message>, s: int, m: Message)
    ensures var grown, put := slots[s := m], BufferPut(slots, s, m);
            if |grown| <= 512 then put == grown
            else exists least :: least in grown && (forall t :: t in grown ==> least <= t) && put == grown - {least}
  {
    var grown := slots[s := m];
    assert s in grown.Keys;
    if |grown| > 512 {
      var least := Least(grown.Keys);
      assert least in grown && (forall t :: t in grown ==> least <= t);
    }
  }

  // What a message that leaves a gap changes at its arrival, and what any other
  // message does to the buffer.
  lemma OnlyTheBuffer(n: Node, m: Message, now: int)
    ensures NewAndTimely(n, m, now) && LeavesGap(n, m) ==>
            Gate(n, m, now) == n.(buffer := n.buffer[m.sender := BufferPut(SlotsOf(n, m.sender), m.sequence.value, m)])
    ensures !(NewAndTimely(n, m, now) && LeavesGap(n, m)) ==> Gate(n, m, now).buffer == n.buffer
    ensures Gate(n, m, now).accepted == n.accepted && !(NewAndTimely(n, m, now) && LeavesGap(n, m)) ==>
            Gate(n, m, now) == n
  {
    hide Process;
    ProcessKeepsBuffer(n, m, now);
    ProcessAccepts(n, m, now);
    assert |n.accepted + [m]| != |n.accepted|;
  }

  // A row of a processed message goes once it is older than seven days.
  lemma PurgedIff(n: Node, now: int, id: MessageId)
    requires id in n.processed
    ensures id !in Purge(n, now).processed <==> now - n.processed[id] > 7 * 24 * 3600 * 1000
    ensures id in Purge(n, now).processed ==> Purge(n, now).processed[id] == n.processed[id]
  {
  }

  // The cache gets the newest id and forgets the oldest beyond 10 000, so that it
  // stays at 10 000, unless the oldest is the empty string.
  lemma RememberIs(cache: seq<MessageId>, id: MessageId)
    ensures |cache| <= 10_000 ==> id in Remember(cache, id)
    ensures |cache| <= 10_000 && |Remember(cache, id)| > 10_000 ==> cache[0] == ""
    ensures forall other :: other in cache && other != id ==>
      other in Remember(cache, id) || (other == cache[0] && |cache| >= 10_000)
    ensures forall other :: other in Remember(cache, id) ==> other in cache || other == id
  {
    var grown := if id in cache then cache else cache + [id];
    assert id !in cache ==> grown[|cache|] == id;
    assert |cache| > 0 && id !in cache ==> grown[1..][|cache| - 1] == id;
    forall other | other in cache && other != id
      ensures other in Remember(cache, id) || (other == cache[0] && |cache| >= 10_000)
    {
      var k :| 0 <= k < |cache| && cache[k] == other;
      assert k > 0 ==> grown[1..][k - 1] == other;
    }
  }
}
