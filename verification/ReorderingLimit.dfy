/**
 * How much reordering the buffer repairs: the next 513 messages of a peer in any
 * order, and no more.
 */
module ReorderingLimit {
  import opened Messages
  import opened Receiving
  import opened AtRest
  import opened Reordering
  import opened FailingReceives
  import Gates

  function Numbers(k: nat): (ms: seq<Message>)
    ensures |ms| == k && forall i :: 0 <= i < k ==> ms[i] == Numbered(i + 1)
  {
    seq(k, i requires 0 <= i => Numbered(i + 1))
  }

  // Copies of messages 2 to k + 1.
  function Ups(k: nat): (copies: seq<Copy>)
    ensures |copies| == k && forall i :: 0 <= i < k ==> copies[i] == Copy(i + 1, 0)
  {
    seq(k, i requires 0 <= i => Copy(i + 1, 0))
  }

  lemma UpsInTime(k: nat, total: nat)
    requires k < total
    ensures InTime(Ups(k), Numbers(total))
  {
  }

  lemma {:induction false} UpsFill(k: nat, total: nat)
    requires k <= 512 && total > k && InTime(Ups(k), Numbers(total))
    ensures AfterCopies(EmptyNode, Numbers(total), Ups(k)) == Filled(k)
    ensures Settled(Filled(k))
  {
    hide Numbered, Settled, Receiving.Receive;
    if k == 0 {
      EmptyIsSettled();
    } else {
      UpsInTime(k - 1, total);
      UpsFill(k - 1, total);
      assert Ups(k)[..k - 1] == Ups(k - 1);
      OneMoreFilled(k, Smoothly());
    }
  }

  // The 513th message in the buffer drives out the one that comes after the next.
  lemma SecondIsDrivenOut()
    ensures Receiving.Receive(Filled(512), Numbered(514), 0, Smoothly())
         == EmptyNode.(buffer := map["p" := Slots(3, 514)])
  {
    var n, m := Filled(512), Numbered(514);
    FreshMessage(n, m);
    LeastIsSecond();
    hide Numbered, Slots, Judge, Flush, Accept, BufferPut;
  }

  lemma LeastIsSecond()
    ensures BufferPut(Slots(2, 513), 514, Numbered(514))
         == Slots(3, 514)
  {
    hide Numbered, BufferPut;
    var grown := Slots(2, 514);
    assert Slots(2, 513)[514 := Numbered(514)] == grown;
    SlotCount(2, 514);
    Gates.PutIs(Slots(2, 513), 514, Numbered(514));
    assert 2 in grown && forall s :: s in grown ==> s >= 2;
    assert grown - {2} == Slots(3, 514);
  }

  // Only the first message has been accepted, and the second one is not there.
  ghost predicate Stuck(n: Node) {
    var m := Numbered(1);
    n.accepted == [m] && n.processed.Keys == {m.id} && n.cache == [m.id] && n.lastSequence == map["p" := 1]
  }

  lemma FirstComesLate()
    ensures var n := EmptyNode.(buffer := map["p" := Slots(3, 514)]);
            Stuck(Receiving.Receive(n, Numbered(1), 0, Smoothly()))
  {
    var n, m := EmptyNode.(buffer := map["p" := Slots(3, 514)]), Numbered(1);
    FreshMessage(n, m);
    AcceptedFields(n, m, 0);
    assert Accept(n, m, 0, Succeeds).cache == [m.id] by { OutcomeIsHistory(n, m, 0, Succeeds); }
    hide Judge, Accept, Numbered;
    var n1 := Accept(n, m, 0, Succeeds);
    assert n1.buffer["p"] == Slots(3, 514) && !CanFlush(n1, "p");
    assert FlushLoop(n1, "p", 0, Smoothly(), 1) == DropIfEmpty(n1, "p");
  }

  lemma StaysStuck(n: Node, s: nat)
    requires Stuck(n) && s > 2
    ensures Stuck(Receiving.Receive(n, Numbered(s), 0, Smoothly()))
  {
    OwnIds(1, s);
    assert Judge(n, Numbered(s), 0).Buffered?;
    hide Judge, Flush, Accept, Numbered, BufferPut;
  }

  // Messages 2 to 514 come first, then message 1, then the others.
  function LateFirst(k: nat): (copies: seq<Copy>)
    requires k >= 514
    ensures |copies| == k
  {
    if k == 514 then Ups(513) + [Copy(0, 0)] else LateFirst(k - 1) + [Copy(k - 1, 0)]
  }

  lemma {:induction false} LateFirstIs(k: nat)
    requires k >= 514
    ensures forall i :: 0 <= i < k ==> LateFirst(k)[i].now == 0 && LateFirst(k)[i].i < k
    ensures forall i: nat :: i < k ==> i in Arrived(LateFirst(k))
  {
    if k == 514 {
      assert LateFirst(k)[513] == Copy(0, 0);
      forall i: nat | i < k ensures i in Arrived(LateFirst(k)) {
        assert LateFirst(k)[if i == 0 then 513 else i - 1].i == i;
      }
    } else {
      LateFirstIs(k - 1);
      assert LateFirst(k)[..k - 1] == LateFirst(k - 1);
      OneMoreArrived(LateFirst(k));
    }
  }

  lemma FirstThenStuck(total: nat)
    requires total >= 514 && InTime(LateFirst(514), Numbers(total))
    ensures Stuck(AfterCopies(EmptyNode, Numbers(total), LateFirst(514)))
  {
    hide Stuck, Receiving.Receive, Numbered, Filled, Slots;
    UpsInTime(512, total);
    UpsInTime(513, total);
    UpsFill(512, total);
    SecondIsDrivenOut();
    FirstComesLate();
    assert Ups(513)[..512] == Ups(512);
    assert AfterCopies(EmptyNode, Numbers(total), Ups(513))
        == EmptyNode.(buffer := map["p" := Slots(3, 514)]);
    assert LateFirst(514)[..513] == Ups(513);
  }

  lemma {:induction false} LateFirstIsStuck(k: nat, total: nat)
    requires 514 <= k <= total && InTime(LateFirst(k), Numbers(total))
    ensures Stuck(AfterCopies(EmptyNode, Numbers(total), LateFirst(k)))
  {
    hide Stuck, Receiving.Receive, Numbered;
    if k == 514 {
      FirstThenStuck(total);
    } else {
      assert LateFirst(k)[..k - 1] == LateFirst(k - 1);
      assert forall i :: 0 <= i < k - 1 ==> LateFirst(k - 1)[i] == LateFirst(k)[i];
      LateFirstIsStuck(k - 1, total);
      StaysStuck(AfterCopies(EmptyNode, Numbers(total), LateFirst(k - 1)), k);
    }
  }

  // A node waits for messages, and copies of all of them come in time.
  ghost predicate AllCome(n: Node, ms: seq<Message>, p: PeerId, base: nat, copies: seq<Copy>) {
    && Consecutive(ms, p, base) && Awaits(n, ms, p, base) && InTime(copies, ms)
    && forall i: nat :: i < |ms| ==> i in Arrived(copies)
  }

  // The next k messages of a peer are all accepted, in order and each once,
  // whatever the order and the number of copies in which they come, if and only if
  // k is at most 513.
  lemma RepairsAllIff(k: nat)
    ensures (forall n, ms, p, base, copies :: |ms| == k && AllCome(n, ms, p, base, copies) ==>
               AfterCopies(n, ms, copies).accepted == n.accepted + ms)
       <==> k <= 513
  {
    if k <= 513 {
      forall n, ms, p, base, copies | |ms| == k && AllCome(n, ms, p, base, copies)
        ensures AfterCopies(n, ms, copies).accepted == n.accepted + ms
      {
        ReorderingIsRepaired(n, ms, p, base, copies, k);
        assert ms[..k] == ms;
      }
    } else {
      var ms, copies := Numbers(k), LateFirst(k);
      LateFirstIs(k);
      forall i, j | 0 <= i < j < k ensures ms[i].id != ms[j].id {
        OwnIds(i + 1, j + 1);
      }
      assert AllCome(EmptyNode, ms, "p", 0, copies);
      LateFirstIsStuck(k, k);
      assert |EmptyNode.accepted + ms| != 1;
    }
  }
}
