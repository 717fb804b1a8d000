/**
 * The buffer repairs reordering: the next messages of a peer may come in any
 * order and any number of times, and the application gets them in order, each
 * once, as far as none is missing.
 */
module Reordering {
  import opened Messages
  import opened Receiving
  import opened Delivery
  import opened AtRest
  import Gates
  import FailingReceives

  // The messages numbered base + 1, base + 2, ... of one peer.
  ghost predicate Consecutive(ms: seq<Message>, p: PeerId, base: nat) {
    && (forall i :: 0 <= i < |ms| ==>
          && ms[i].sender == p && !ms[i].kind.Ack? && !ms[i].kind.Nak? && ms[i].sequence == Some(base + i + 1)
          && (ms[i].clock.Some? && p in ms[i].clock.value ==> ms[i].clock.value[p] == base + i + 1))
    && (forall i, j :: 0 <= i < j < |ms| ==> ms[i].id != ms[j].id)
  }

  // A node that has come to number `base`, with none of the messages known and no
  // counter for the peer ahead of the first of them.
  ghost predicate Awaits(n: Node, ms: seq<Message>, p: PeerId, base: nat) {
    && (if p in n.lastSequence then n.lastSequence[p] == base else base == 0)
    && SlotsOf(n, p) == map[] && LookupOr0(n.clocks, p) <= base + 1
    && (forall i :: 0 <= i < |ms| ==> ms[i].id !in n.cache && ms[i].id !in n.processed)
  }

  // One copy of the i-th message arrives; ACKs and callbacks succeed.
  datatype Copy = Copy(i: nat, now: int)

  ghost predicate InTime(copies: seq<Copy>, ms: seq<Message>) {
    forall k :: 0 <= k < |copies| ==>
      copies[k].i < |ms| && -300_000 <= copies[k].now - ms[copies[k].i].timestamp <= 300_000
  }

  function Arrived(copies: seq<Copy>): set<nat> {
    set k | 0 <= k < |copies| :: copies[k].i
  }

  ghost function AfterCopies(n: Node, ms: seq<Message>, copies: seq<Copy>): Node
    requires InTime(copies, ms)
  {
    if copies == [] then n
    else
      var last := copies[|copies| - 1];
      Receiving.Receive(AfterCopies(n, ms, copies[..|copies| - 1]), ms[last.i], last.now, FailingReceives.Smoothly())
  }

  // How many messages there are before the first one missing.
  function Scan(arrived: set<nat>, j: nat, k: nat): (end: nat)
    requires j <= k
    ensures j <= end <= k && (end < k ==> end !in arrived)
    ensures forall i :: j <= i < end ==> i in arrived
    decreases k - j
  {
    if j < k && j in arrived then Scan(arrived, j + 1, k) else j
  }

  lemma {:induction false} ScanIs(arrived: set<nat>, j: nat, k: nat, end: nat)
    requires j <= end <= k && (forall i :: j <= i < end ==> i in arrived) && (end < k ==> end !in arrived)
    ensures Scan(arrived, j, k) == end
    decreases k - j
  {
    if j < end {
      ScanIs(arrived, j + 1, k, end);
    }
  }

  // --------------------------------------------------------------- invariant

  function Tickets(first: nat, j: nat): (tickets: seq<nat>)
    ensures |tickets| == j
  {
    seq(j, i requires 0 <= i < j => first + i)
  }

  predicate InSlots(s: int, base: nat, low: nat, k: nat, arrived: set<nat>) {
    base + low < s <= base + k && (s - base - 1) in arrived
  }

  // The first j messages have been accepted and handed over.
  ghost predicate Got(n: Node, n0: Node, ms: seq<Message>, j: nat)
    requires j <= |ms|
  {
    && n.accepted == n0.accepted + ms[..j]
    && n.waiting == n0.waiting && n.lost == n0.lost && n.handled == n0.handled + Tickets(|n0.accepted|, j)
  }

  // Those from `low` on that have arrived lie in the buffer, and nothing else.
  ghost predicate Holds(n: Node, ms: seq<Message>, p: PeerId, base: nat, low: nat, arrived: set<nat>) {
    && (forall s :: s in SlotsOf(n, p) <==> InSlots(s, base, low, |ms|, arrived))
    && (forall s :: s in SlotsOf(n, p) ==> 0 <= s - base - 1 < |ms| && SlotsOf(n, p)[s] == ms[s - base - 1])
  }

  ghost predicate Knows(n: Node, ms: seq<Message>, j: nat)
    requires j <= |ms|
  {
    && (forall i :: 0 <= i < j ==> ms[i].id in n.processed)
    && (forall i :: j <= i < |ms| ==> ms[i].id !in n.processed && ms[i].id !in n.cache)
  }

  predicate HasComeTo(n: Node, p: PeerId, base: nat, j: nat) {
    && (if p in n.lastSequence then n.lastSequence[p] == base + j else base + j == 0)
    && LookupOr0(n.clocks, p) <= base + (if j == 0 then 1 else j)
  }

  ghost predicate InStep(
    n: Node, n0: Node, ms: seq<Message>, p: PeerId, base: nat, j: nat, low: nat, arrived: set<nat>)
  {
    j <= |ms| && Got(n, n0, ms, j) && HasComeTo(n, p, base, j) && Knows(n, ms, j) && Holds(n, ms, p, base, low, arrived)
  }

  lemma StartInStep(n: Node, ms: seq<Message>, p: PeerId, base: nat)
    requires Awaits(n, ms, p, base)
    ensures InStep(n, n, ms, p, base, 0, 0, {})
  {
    assert n.accepted + ms[..0] == n.accepted && n.handled + Tickets(|n.accepted|, 0) == n.handled;
  }

  lemma OneMoreTicket(first: nat, j: nat)
    ensures Tickets(first, j + 1) == Tickets(first, j) + [first + j]
  {
  }

  // The next message is accepted and handed over at once.
  lemma AcceptNext(
    n: Node, n0: Node, ms: seq<Message>, p: PeerId, base: nat, j: nat, arrived: set<nat>, now: int)
    requires Consecutive(ms, p, base) && j < |ms| && InStep(n, n0, ms, p, base, j, j + 1, arrived)
    ensures InStep(Accept(n, ms[j], now, Succeeds), n0, ms, p, base, j + 1, j + 1, arrived)
  {
    var n' := Accept(n, ms[j], now, Succeeds);
    AcceptedFields(n, ms[j], now);
    hide Accept;
    assert Got(n', n0, ms, j + 1) by { GotNext(n, n', n0, ms, j); }
    assert Knows(n', ms, j + 1) by { KnowsNext(n, n', ms, p, base, j, now); }
    assert Holds(n', ms, p, base, j + 1, arrived) by { SameHeld(n, n', ms, p, base, j + 1, arrived); }
  }

  lemma GotNext(n: Node, n': Node, n0: Node, ms: seq<Message>, j: nat)
    requires j < |ms| && Got(n, n0, ms, j)
    requires n'.accepted == n.accepted + [ms[j]] && n'.waiting == n.waiting && n'.lost == n.lost
    requires n'.handled == n.handled + [|n.accepted|]
    ensures Got(n', n0, ms, j + 1)
  {
    OneMoreTicket(|n0.accepted|, j);
    assert ms[..j + 1] == ms[..j] + [ms[j]];
  }

  lemma KnowsNext(n: Node, n': Node, ms: seq<Message>, p: PeerId, base: nat, j: nat, now: int)
    requires Consecutive(ms, p, base) && j < |ms| && Knows(n, ms, j)
    requires n'.processed == n.processed[ms[j].id := now]
    requires forall id :: id in n'.cache ==> id in n.cache || id == ms[j].id
    ensures Knows(n', ms, j + 1)
  {
  }

  lemma SameHeld(n: Node, n': Node, ms: seq<Message>, p: PeerId, base: nat, low: nat, arrived: set<nat>)
    requires Holds(n, ms, p, base, low, arrived) && SlotsOf(n', p) == SlotsOf(n, p)
    ensures Holds(n', ms, p, base, low, arrived)
  {
  }

  // What accepting a new message with a number does, its callback included.
  lemma AcceptedFields(n: Node, m: Message, now: int)
    requires m.id !in n.processed && m.sequence.Some?
    requires m.sender in n.lastSequence ==> n.lastSequence[m.sender] < m.sequence.value
    ensures var n' := Accept(n, m, now, Succeeds);
            && n'.accepted == n.accepted + [m] && n'.waiting == n.waiting && n'.lost == n.lost
            && n'.handled == n.handled + [|n.accepted|] && n'.buffer == n.buffer
            && n'.lastSequence == n.lastSequence[m.sender := m.sequence.value]
            && n'.processed == n.processed[m.id := now]
            && (forall id :: id in n'.cache ==> id in n.cache || id == m.id)
            && (m.sender in n'.clocks ==>
                  || (m.sender in n.clocks && n'.clocks[m.sender] == n.clocks[m.sender])
                  || n'.clocks[m.sender] == m.sequence.value
                  || (m.clock.Some? && m.sender in m.clock.value && n'.clocks[m.sender] == m.clock.value[m.sender]))
  {
    OutcomeIsHistory(n, m, now, Succeeds);
    Gates.RememberIs(n.cache, m.id);
    assert (n.waiting + [|n.accepted|])[..|n.waiting|] + (n.waiting + [|n.accepted|])[|n.waiting| + 1..] == n.waiting;
    hide Remember;
  }

  // ------------------------------------------------------------------ flush

  lemma TakeNext(n: Node, n0: Node, ms: seq<Message>, p: PeerId, base: nat, j: nat, arrived: set<nat>)
    requires Consecutive(ms, p, base) && InStep(n, n0, ms, p, base, j, j, arrived)
    ensures CanFlush(n, p) <==> j < |ms| && j in arrived
    ensures CanFlush(n, p) ==>
      && LookupOr0(n.lastSequence, p) == base + j && n.buffer[p][base + j + 1] == ms[j]
      && InStep(WithoutSlot(n, p, base + j + 1), n0, ms, p, base, j, j + 1, arrived)
  {
    assert InSlots(base + j + 1, base, j, |ms|, arrived) <==> j < |ms| && j in arrived;
    if CanFlush(n, p) {
      var n1 := WithoutSlot(n, p, base + j + 1);
      assert SlotsOf(n1, p) == SlotsOf(n, p) - {base + j + 1};
    }
  }

  lemma DropInStep(
    n: Node, n0: Node, ms: seq<Message>, p: PeerId, base: nat, j: nat, low: nat, arrived: set<nat>)
    requires InStep(n, n0, ms, p, base, j, low, arrived)
    ensures InStep(DropIfEmpty(n, p), n0, ms, p, base, j, low, arrived)
  {
    assert SlotsOf(DropIfEmpty(n, p), p) == SlotsOf(n, p);
  }

  lemma OneFlushed(n: Node, n0: Node, ms: seq<Message>, p: PeerId, base: nat, j: nat, arrived: set<nat>, now: int)
    requires Consecutive(ms, p, base) && InStep(n, n0, ms, p, base, j, j, arrived) && j < |ms| && CanFlush(n, p)
    ensures InStep(FlushNext(n, p, now, Succeeds), n0, ms, p, base, j + 1, j + 1, arrived)
  {
    TakeNext(n, n0, ms, p, base, j, arrived);
    hide InStep, Consecutive, Accept, FlushNext;
    var n1 := WithoutSlot(n, p, base + j + 1);
    NextIs(n, n1, p, now, Succeeds);
    AcceptNext(n1, n0, ms, p, base, j, arrived, now);
  }

  lemma FlushesNext(n: Node, n0: Node, ms: seq<Message>, p: PeerId, base: nat, j: nat, arrived: set<nat>)
    requires Consecutive(ms, p, base) && InStep(n, n0, ms, p, base, j, j, arrived)
    ensures CanFlush(n, p) <==> j < |ms| && j in arrived
  {
    TakeNext(n, n0, ms, p, base, j, arrived);
  }

  // The loop comes to the first message missing.
  lemma {:induction false} FlushRepairs(
    n: Node, n0: Node, ms: seq<Message>, p: PeerId, base: nat, j: nat, arrived: set<nat>, now: int, k: nat)
    requires Consecutive(ms, p, base) && j <= |ms| && InStep(n, n0, ms, p, base, j, j, arrived)
    ensures var end := Scan(arrived, j, |ms|);
            InStep(FlushLoop(n, p, now, FailingReceives.Smoothly(), k), n0, ms, p, base, end, end, arrived)
    decreases |ms| - j
  {
    hide InStep, Consecutive, CanFlush, FlushNext, DropIfEmpty, SlotsOf, WithoutSlot, LookupOr0;
    FlushesNext(n, n0, ms, p, base, j, arrived);
    if j < |ms| && j in arrived {
      OneFlushed(n, n0, ms, p, base, j, arrived, now);
      FlushRepairs(FlushNext(n, p, now, Succeeds), n0, ms, p, base, j + 1, arrived, now, k + 1);
    } else {
      DropInStep(n, n0, ms, p, base, j, j, arrived);
    }
  }

  // --------------------------------------------------------------- one copy

  lemma {:induction false} RangeSize(keys: set<int>, low: int, high: int)
    requires forall s :: s in keys ==> low <= s < high
    requires low <= high
    ensures |keys| <= high - low
    decreases high - low
  {
    if low < high {
      RangeSize(keys - {high - 1}, low, high - 1);
    } else {
      assert keys == {};
    }
  }

  // A copy of a message that does not come next goes to the buffer.
  lemma StashLater(
    n: Node, n0: Node, ms: seq<Message>, p: PeerId, base: nat, j: nat, i: nat, arrived: set<nat>)
    requires Consecutive(ms, p, base) && InStep(n, n0, ms, p, base, j, j, arrived)
    requires j < i < |ms| <= 513 && j !in arrived
    ensures InStep(Stash(n, ms[i]), n0, ms, p, base, j, j, arrived + {i})
  {
    var grown := SlotsOf(n, p)[base + i + 1 := ms[i]];
    hide Got, Knows;
    HoldsOneMore(n, ms, p, base, j, i, arrived);
    HeldAreFew(n, ms, p, base, j, i, arrived);
    Gates.PutIs(SlotsOf(n, p), base + i + 1, ms[i]);
    hide BufferPut, Holds;
    assert SlotsOf(Stash(n, ms[i]), p) == grown;
    SameHeld(n.(buffer := n.buffer[p := grown]), Stash(n, ms[i]), ms, p, base, j, arrived + {i});
    SameHistory(n, Stash(n, ms[i]), n0, ms, j);
  }

  lemma SameHistory(n: Node, n': Node, n0: Node, ms: seq<Message>, j: nat)
    requires j <= |ms| && Got(n, n0, ms, j) && Knows(n, ms, j) && n' == n.(buffer := n'.buffer)
    ensures Got(n', n0, ms, j) && Knows(n', ms, j)
  {
  }

  lemma HoldsOneMore(n: Node, ms: seq<Message>, p: PeerId, base: nat, low: nat, i: nat, arrived: set<nat>)
    requires Holds(n, ms, p, base, low, arrived) && low <= i < |ms|
    ensures Holds(n.(buffer := n.buffer[p := SlotsOf(n, p)[base + i + 1 := ms[i]]]), ms, p, base, low, arrived + {i})
  {
  }

  lemma HeldAreFew(n: Node, ms: seq<Message>, p: PeerId, base: nat, j: nat, i: nat, arrived: set<nat>)
    requires Holds(n, ms, p, base, j, arrived) && j < i < |ms| <= 513 && j !in arrived
    ensures |SlotsOf(n, p)[base + i + 1 := ms[i]]| <= 512
  {
    var grown := SlotsOf(n, p)[base + i + 1 := ms[i]];
    assert grown.Keys == SlotsOf(n, p).Keys + {base + i + 1};
    assert forall t :: t in grown.Keys ==> base + j + 2 <= t < base + |ms| + 1;
    RangeSize(grown.Keys, base + j + 2, base + |ms| + 1);
  }

  lemma WhichGate(
    n: Node, n0: Node, ms: seq<Message>, p: PeerId, base: nat, j: nat, i: nat, arrived: set<nat>, now: int)
    requires Consecutive(ms, p, base) && InStep(n, n0, ms, p, base, j, j, arrived)
    requires i < |ms| && -300_000 <= now - ms[i].timestamp <= 300_000
    ensures Judge(n, ms[i], now) == if i < j then Duplicate else if i > j then Buffered else Accepted
  {
  }

  lemma SameSlotsLow(
    n: Node, n0: Node, ms: seq<Message>, p: PeerId, base: nat, j: nat, arrived: set<nat>)
    requires InStep(n, n0, ms, p, base, j, j, arrived) && j !in arrived
    ensures InStep(n, n0, ms, p, base, j, j + 1, arrived + {j})
  {
    assert forall s :: InSlots(s, base, j, |ms|, arrived) <==> InSlots(s, base, j + 1, |ms|, arrived + {j});
  }

  lemma OneCopy(
    n: Node, n0: Node, ms: seq<Message>, p: PeerId, base: nat, i: nat, arrived: set<nat>, now: int)
    requires Consecutive(ms, p, base) && i < |ms| <= 513 && -300_000 <= now - ms[i].timestamp <= 300_000
    requires var j := Scan(arrived, 0, |ms|); InStep(n, n0, ms, p, base, j, j, arrived)
    ensures var end := Scan(arrived + {i}, 0, |ms|);
            InStep(Receiving.Receive(n, ms[i], now, FailingReceives.Smoothly()), n0, ms, p, base, end, end, arrived + {i})
  {
    var j := Scan(arrived, 0, |ms|);
    WhichGate(n, n0, ms, p, base, j, i, arrived, now);
    hide InStep, Consecutive, Judge, Receiving.Receive, Stash;
    if i < j {
      assert arrived + {i} == arrived;
      OtherGates(n, ms[i], now);
    } else if i > j {
      StashLater(n, n0, ms, p, base, j, i, arrived);
      ScanIs(arrived + {i}, 0, |ms|, j);
      OtherGates(n, ms[i], now);
    } else {
      FirstMissingCame(n, n0, ms, p, base, j, arrived, now);
    }
  }

  lemma OtherGates(n: Node, m: Message, now: int)
    ensures var n' := Receiving.Receive(n, m, now, FailingReceives.Smoothly());
            && (Judge(n, m, now).Duplicate? ==> n' == n)
            && (Judge(n, m, now).Buffered? ==> m.sequence.Some? && n' == Stash(n, m))
  {
    hide Stash, Flush, Accept;
  }

  lemma FirstMissingCame(n: Node, n0: Node, ms: seq<Message>, p: PeerId, base: nat, j: nat, arrived: set<nat>, now: int)
    requires Consecutive(ms, p, base) && j < |ms| && Judge(n, ms[j], now).Accepted?
    requires j == Scan(arrived, 0, |ms|) && InStep(n, n0, ms, p, base, j, j, arrived)
    ensures var end := Scan(arrived + {j}, 0, |ms|);
            InStep(Receiving.Receive(n, ms[j], now, FailingReceives.Smoothly()), n0, ms, p, base, end, end, arrived + {j})
  {
    var all, m := arrived + {j}, ms[j];
    assert m.sender == p;
    hide InStep, Consecutive, Judge, Accept, FlushLoop, CanFlush;
    SameSlotsLow(n, n0, ms, p, base, j, arrived);
    AcceptNext(n, n0, ms, p, base, j, all, now);
    var n1 := Accept(n, m, now, Succeeds);
    FlushRepairs(n1, n0, ms, p, base, j + 1, all, now, 1);
    var end := Scan(all, j + 1, |ms|);
    ScanIs(all, 0, |ms|, end);
    if SlotsOf(n1, p) == map[] {
      FlushesNext(n1, n0, ms, p, base, j + 1, all);
      assert !CanFlush(n1, p) by { NothingToFlush(n1, p); }
    }
  }

  lemma NothingToFlush(n: Node, p: PeerId)
    requires SlotsOf(n, p) == map[]
    ensures !CanFlush(n, p)
  {
  }

  // ------------------------------------------------------------------- runs

  lemma {:induction false} CopiesInStep(n: Node, ms: seq<Message>, p: PeerId, base: nat, copies: seq<Copy>)
    requires Consecutive(ms, p, base) && Awaits(n, ms, p, base) && InTime(copies, ms) && |ms| <= 513
    ensures var j := Scan(Arrived(copies), 0, |ms|);
            InStep(AfterCopies(n, ms, copies), n, ms, p, base, j, j, Arrived(copies))
    decreases |copies|
  {
    if copies == [] {
      StartInStep(n, ms, p, base);
      assert Arrived([]) == {};
    } else {
      var front, last := copies[..|copies| - 1], copies[|copies| - 1];
      hide InStep, Consecutive, Awaits, Receiving.Receive, Arrived;
      CopiesInStep(n, ms, p, base, front);
      OneMoreArrived(copies);
      OneCopy(AfterCopies(n, ms, front), n, ms, p, base, last.i, Arrived(front), last.now);
    }
  }

  lemma OneMoreArrived(copies: seq<Copy>)
    requires copies != []
    ensures Arrived(copies) == Arrived(copies[..|copies| - 1]) + {copies[|copies| - 1].i}
  {
    var front := copies[..|copies| - 1];
    assert forall k :: 0 <= k < |front| ==> front[k] == copies[k];
  }

  // Whatever the order and the number of copies, the application gets exactly the
  // messages before the first one missing, in order and each once.
  lemma ReorderingIsRepaired(n: Node, ms: seq<Message>, p: PeerId, base: nat, copies: seq<Copy>, j: nat)
    requires Consecutive(ms, p, base) && Awaits(n, ms, p, base) && InTime(copies, ms) && |ms| <= 513
    requires j <= |ms| && (forall i :: 0 <= i < j ==> i in Arrived(copies)) && (j < |ms| ==> j !in Arrived(copies))
    ensures var n' := AfterCopies(n, ms, copies);
            && n'.accepted == n.accepted + ms[..j]
            && n'.handled == n.handled + Tickets(|n.accepted|, j)
            && n'.waiting == n.waiting && n'.lost == n.lost
            && (j > 0 ==> p in n'.lastSequence && n'.lastSequence[p] == base + j)
  {
    CopiesInStep(n, ms, p, base, copies);
    ScanIs(Arrived(copies), 0, |ms|, j);
  }
}
