/**
 * What a delta sync brings over: which messages are queued by the receiver, and
 * that what a node offers arrives in the queue of every node that takes it up.
 */
module DeltaSync {
  import opened Messages
  import opened Receiving
  import opened Delivery
  import opened Network

  predicate Offered(messages: seq<Message>, id: MessageId) {
    exists i :: 0 <= i < |messages| && messages[i].id == id
  }

  // The last of the messages with that id.
  predicate LastWith(messages: seq<Message>, id: MessageId, m: Message) {
    exists i :: 0 <= i < |messages| && messages[i] == m && m.id == id &&
      forall j :: i < j < |messages| ==> messages[j].id != id
  }

  // Every offered message that has not been processed is queued, the last one of
  // each id; nothing else in the queue changes, in particular no processed id.
  lemma {:induction false} QueuesUnprocessed(
      pending: map<MessageId, Message>, processed: map<MessageId, int>, messages: seq<Message>, id: MessageId)
    ensures var queued := QueueAll(pending, processed, messages);
            if id !in processed && Offered(messages, id) then
              id in queued && LastWith(messages, id, queued[id])
            else
              (id in queued <==> id in pending) && (id in pending ==> queued[id] == pending[id])
  {
    if messages != [] {
      var front, m := messages[..|messages| - 1], messages[|messages| - 1];
      QueuesUnprocessed(pending, processed, front, id);
      if m.id == id {
        assert Offered(messages, id);
        assert LastWith(messages, id, m) by { assert messages[|messages| - 1] == m; }
      } else {
        OneMoreOffered(front, m, id);
        assert messages == front + [m];
      }
    }
  }

  lemma OneMoreOffered(front: seq<Message>, m: Message, id: MessageId)
    requires m.id != id
    ensures Offered(front + [m], id) <==> Offered(front, id)
    ensures forall x :: LastWith(front, id, x) ==> LastWith(front + [m], id, x)
  {
    var all := front + [m];
    assert forall i :: 0 <= i < |front| ==> all[i] == front[i];
    forall x | LastWith(front, id, x) ensures LastWith(all, id, x) {
      var i :| 0 <= i < |front| && front[i] == x && x.id == id && forall j :: i < j < |front| ==> front[j].id != id;
      assert all[i] == x && forall j :: i < j < |all| ==> all[j].id != id;
    }
  }

  // --------------------------------------------------------------- over runs

  ghost predicate Includes(w: World, w': World) {
    && w.offers <= w'.offers && w.nodes.Keys <= w'.nodes.Keys && w.time.Keys <= w'.time.Keys
    && w.pending.Keys <= w'.pending.Keys && w.sent.Keys <= w'.sent.Keys
  }

  lemma StepIncludes(w: World, step: Step)
    requires Enabled(w, step)
    ensures Includes(w, Do(w, step))
  {
    hide Gate, FlushOne, Stamp, QueueAll, Merge, Purge, CallBack, LoseCallBack, Restart, CanFlush;
  }

  lemma {:induction false} OffersStay(w: World, steps: seq<Step>)
    requires Legal(w, steps)
    ensures Includes(w, Exec(w, steps))
    decreases |steps|
  {
    hide Do, Enabled;
    if steps != [] {
      StepIncludes(w, steps[0]);
      OffersStay(Do(w, steps[0]), steps[1..]);
    }
  }

  // p offers messages of its queue; at any later moment of the run any node q may
  // take the offer up, and then every one of them that q has not processed is in
  // q's queue, nothing else of that queue is changed, and q's counters are nowhere
  // below the clock that p had.
  lemma SyncCarries(w: World, p: PeerId, messages: seq<Message>, steps: seq<Step>, q: PeerId)
    requires Enabled(w, OfferDelta(p, messages)) && Legal(Do(w, OfferDelta(p, messages)), steps)
    requires q in w.nodes && q in w.time && q in w.pending && q in w.sent
    ensures var w1 := Exec(Do(w, OfferDelta(p, messages)), steps);
            var take := ApplyDelta(q, Offer(w.nodes[p].clocks, messages));
            && Enabled(w1, take)
            && var w2 := Do(w1, take);
               && q in w2.nodes && q in w2.pending
               && (forall i :: 0 <= i < |messages| && messages[i].id !in w1.nodes[q].processed ==>
                     messages[i].id in w2.pending[q] &&
                     LastWith(messages, messages[i].id, w2.pending[q][messages[i].id]))
               && (forall id :: id in w1.pending[q] && (id in w1.nodes[q].processed || !Offered(messages, id)) ==>
                     id in w2.pending[q] && w2.pending[q][id] == w1.pending[q][id])
               && (forall peer :: peer in w.nodes[p].clocks && w.nodes[p].clocks[peer] >= 0 ==>
                     peer in w2.nodes[q].clocks && w2.nodes[q].clocks[peer] >= w.nodes[p].clocks[peer])
  {
    var offering := Do(w, OfferDelta(p, messages));
    OffersStay(offering, steps);
    var w1 := Exec(offering, steps);
    var offer := Offer(w.nodes[p].clocks, messages);
    hide Legal, Exec, QueueAll, LastWith;
    assert offer in w1.offers;
    var w2 := Do(w1, ApplyDelta(q, offer));
    forall id
      ensures id !in w1.nodes[q].processed && Offered(messages, id) ==>
        id in w2.pending[q] && LastWith(messages, id, w2.pending[q][id])
      ensures id in w1.pending[q] && (id in w1.nodes[q].processed || !Offered(messages, id)) ==>
        id in w2.pending[q] && w2.pending[q][id] == w1.pending[q][id]
    {
      QueuesUnprocessed(w1.pending[q], w1.nodes[q].processed, messages, id);
    }
    forall i | 0 <= i < |messages| ensures Offered(messages, messages[i].id) {
    }
  }
}
