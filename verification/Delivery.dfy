/**
 * What every atomic section keeps at one node: each peer's accepted messages
 * are a prefix of what that peer sent, and no message is accepted twice.
 */
module Delivery {
  import opened Messages
  import opened Receiving

  // Everything each stamping node has ever sent, in send order.
  type SendLog = map<PeerId, seq<Message>>

  predicate CopyOfLogged(m: Message, log: seq<Message>) {
    exists i :: 0 <= i < |log| && SameEnvelope(log[i], m)
  }

  // A message that names a stamping node as its sender was sent by that node, up
  // to its payload.
  predicate Authentic(m: Message, sent: SendLog) {
    m.sender in sent ==> CopyOfLogged(m, sent[m.sender])
  }

  // The messages are copies of the first ones of the log, in order.
  predicate CopiesOfFirst(got: seq<Message>, log: seq<Message>) {
    |got| <= |log| && forall i :: 0 <= i < |got| ==> SameEnvelope(log[i], got[i])
  }

  ghost predicate Stamped(log: seq<Message>, peer: PeerId) {
    && (forall i :: 0 <= i < |log| ==>
          log[i].sender == peer && log[i].sequence.Some? && log[i].sequence.value >= 1)
    && (forall i, j :: 0 <= i < j < |log| ==> log[i].sequence.value < log[j].sequence.value)
  }

  ghost predicate AllStamped(sent: SendLog) {
    forall peer :: peer in sent ==> Stamped(sent[peer], peer)
  }

  // The part of a log that came from one peer.
  function From(log: seq<Message>, peer: PeerId): seq<Message> {
    if log == [] then []
    else
      var m := log[|log| - 1];
      From(log[..|log| - 1], peer) + if m.sender == peer then [m] else []
  }

  lemma FromSnoc(log: seq<Message>, m: Message, peer: PeerId)
    ensures From(log + [m], peer) == From(log, peer) + if m.sender == peer then [m] else []
  {
    assert (log + [m])[..|log|] == log;
  }

  // ------------------------------------------------------------ invariants

  predicate HasSlot(n: Node, peer: PeerId, s: int) {
    peer in n.buffer && s in n.buffer[peer]
  }

  predicate SlotOk(m: Message, peer: PeerId, s: int, sent: SendLog) {
    m.sender == peer && m.sequence == Some(s) && Authentic(m, sent)
  }

  ghost predicate BufferOk(n: Node, sent: SendLog) {
    forall peer, s :: HasSlot(n, peer, s) ==> SlotOk(n.buffer[peer][s], peer, s, sent)
  }

  ghost predicate PrefixOf(n: Node, peer: PeerId, log: seq<Message>) {
    var got := From(n.accepted, peer);
    && CopiesOfFirst(got, log)
    && (forall i :: 0 <= i < |got| ==> log[i].sequence == Some(i + 1))
    && (if got == [] then peer !in n.lastSequence
        else peer in n.lastSequence && n.lastSequence[peer] == |got|)
  }

  ghost predicate PrefixOk(n: Node, sent: SendLog) {
    forall peer :: peer in sent ==> PrefixOf(n, peer, sent[peer])
  }

  // Why a message accepted once cannot pass the gates again.
  predicate Spent(n: Node, m: Message, now: int) {
    if m.sequence.Some? then
      m.sender in n.lastSequence && m.sequence.value <= n.lastSequence[m.sender]
    else
      || now > m.timestamp + MAX_CLOCK_SKEW_MS
      || (m.id in n.processed && n.processed[m.id] >= m.timestamp - MAX_CLOCK_SKEW_MS)
  }

  predicate LaterIfSequenced(a: Message, b: Message) {
    a.sender == b.sender && a.sequence.Some? && b.sequence.Some? ==> a.sequence.value < b.sequence.value
  }

  ghost predicate OnceOk(n: Node, now: int) {
    && (forall i :: 0 <= i < |n.accepted| ==> Spent(n, n.accepted[i], now))
    && (forall i, j :: 0 <= i < j < |n.accepted| ==> !SameMessage(n.accepted[i], n.accepted[j]))
    && (forall i, j :: 0 <= i < j < |n.accepted| ==> LaterIfSequenced(n.accepted[i], n.accepted[j]))
  }

  ghost predicate Distinct(s: seq<nat>) {
    forall i, j :: 0 <= i < j < |s| ==> s[i] != s[j]
  }

  ghost predicate TicketsOk(n: Node) {
    && Distinct(n.waiting + n.handled + n.lost)
    && (forall i :: 0 <= i < |n.waiting| ==> n.waiting[i] < |n.accepted|)
    && (forall i :: 0 <= i < |n.handled| ==> n.handled[i] < |n.accepted|)
    && (forall i :: 0 <= i < |n.lost| ==> n.lost[i] < |n.accepted|)
  }

  ghost predicate NodeOk(n: Node, now: int, sent: SendLog) {
    BufferOk(n, sent) && PrefixOk(n, sent) && OnceOk(n, now) && TicketsOk(n)
  }

  // What the gates and the flush loop have checked when they call Process.
  predicate Acceptable(n: Node, m: Message, now: int) {
    if m.sequence.Some? then
      && (m.sender in n.lastSequence ==> m.sequence.value > n.lastSequence[m.sender])
      && m.sequence.value <= LookupOr0(n.lastSequence, m.sender) + 1
    else
      TimestampValid(m.timestamp, now)
  }

  // ----------------------------------------------------------- preservation

  lemma {:induction false} SendPosition(log: seq<Message>, peer: PeerId, i: nat)
    requires Stamped(log, peer) && i < |log|
    ensures log[i].sequence.value >= i + 1
  {
    if i > 0 {
      SendPosition(log, peer, i - 1);
      assert log[i - 1].sequence.value < log[i].sequence.value;
    }
  }

  // An acceptable message of a stamping peer is the next one of its send log.
  lemma NextInLog(n: Node, m: Message, now: int, log: seq<Message>)
    requires Stamped(log, m.sender) && PrefixOf(n, m.sender, log)
    requires CopyOfLogged(m, log) && Acceptable(n, m, now)
    ensures var k := |From(n.accepted, m.sender)|;
            k < |log| && SameEnvelope(log[k], m) && m.sequence == Some(k + 1)
  {
    var k := |From(n.accepted, m.sender)|;
    var j :| 0 <= j < |log| && SameEnvelope(log[j], m);
    SendPosition(log, m.sender, j);
    assert m.sequence.value == k + 1;
    assert forall i :: 0 <= i < k ==> log[i].sequence == Some(i + 1);
  }

  lemma PersistKeepsPrefix(n: Node, m: Message, now: int, sent: SendLog)
    requires PrefixOk(n, sent) && AllStamped(sent) && Authentic(m, sent)
    requires Acceptable(n, m, now) && m.id !in n.processed
    ensures PrefixOk(Persist(n, m, now), sent)
  {
    var n' := Persist(n, m, now);
    forall peer | peer in sent ensures PrefixOf(n', peer, sent[peer]) {
      FromSnoc(n.accepted, m, peer);
      assert PrefixOf(n, peer, sent[peer]);
      if m.sender == peer {
        NextInLog(n, m, now, sent[peer]);
      }
    }
  }

  lemma PersistKeepsOnce(n: Node, m: Message, now: int)
    requires OnceOk(n, now) && Acceptable(n, m, now) && m.id !in n.processed
    ensures OnceOk(Persist(n, m, now), now)
  {
    var n' := Persist(n, m, now);
    forall i | 0 <= i < |n.accepted|
      ensures Spent(n', n.accepted[i], now) && !SameMessage(n.accepted[i], m)
    {
      assert Spent(n, n.accepted[i], now);
    }
    assert n'.accepted == n.accepted + [m];
    assert Spent(n', m, now);
  }

  lemma PersistKeepsTickets(n: Node, m: Message, now: int)
    requires TicketsOk(n) && m.id !in n.processed
    ensures TicketsOk(Persist(n, m, now))
  {
    var n', w := Persist(n, m, now), |n.waiting|;
    var before, after := n.waiting + n.handled + n.lost, n'.waiting + n'.handled + n'.lost;
    assert forall k :: 0 <= k < |after| ==>
      after[k] == if k == w then |n.accepted| else before[if k < w then k else k - 1];
    assert forall k :: 0 <= k < |before| ==> before[k] < |n.accepted|;
  }

  lemma ProcessKeeps(n: Node, m: Message, now: int, sent: SendLog)
    requires NodeOk(n, now, sent) && AllStamped(sent) && Authentic(m, sent)
    requires Acceptable(n, m, now)
    ensures NodeOk(Process(n, m, now), now, sent)
  {
    if m.id !in n.processed {
      PersistKeepsPrefix(n, m, now, sent);
      PersistKeepsOnce(n, m, now);
      PersistKeepsTickets(n, m, now);
    }
    SameBuffer(n, Persist(n, m, now), sent);
    SameBuffer(n, Process(n, m, now), sent);
    Irrelevant(Persist(n, m, now), Process(n, m, now), now, sent);
  }

  // Neither the cache nor the clocks matter, nor how the buffer changes as
  // long as it stays well formed.
  lemma Irrelevant(n: Node, n': Node, now: int, sent: SendLog)
    requires NodeOk(n, now, sent) && BufferOk(n', sent)
    requires n' == n.(cache := n'.cache, clocks := n'.clocks, buffer := n'.buffer)
    ensures NodeOk(n', now, sent)
  {
    forall peer | peer in sent ensures PrefixOf(n', peer, sent[peer]) {
      assert PrefixOf(n, peer, sent[peer]);
    }
    forall i | 0 <= i < |n.accepted| ensures Spent(n', n.accepted[i], now) {
      assert Spent(n, n.accepted[i], now);
    }
  }

  lemma SameBuffer(n: Node, n': Node, sent: SendLog)
    requires BufferOk(n, sent) && n'.buffer == n.buffer
    ensures BufferOk(n', sent)
  {
    forall peer, s | HasSlot(n', peer, s) ensures SlotOk(n'.buffer[peer][s], peer, s, sent) {
      assert HasSlot(n, peer, s);
    }
  }

  lemma FewerSlots(n: Node, n': Node, sent: SendLog)
    requires BufferOk(n, sent)
    requires forall peer, s :: HasSlot(n', peer, s) ==>
      HasSlot(n, peer, s) && n'.buffer[peer][s] == n.buffer[peer][s]
    ensures BufferOk(n', sent)
  {
  }

  lemma StashKeepsBuffer(n: Node, m: Message, sent: SendLog)
    requires BufferOk(n, sent) && Authentic(m, sent) && m.sequence.Some?
    ensures BufferOk(Stash(n, m), sent)
  {
    var n' := Stash(n, m);
    forall peer, s | HasSlot(n', peer, s) ensures SlotOk(n'.buffer[peer][s], peer, s, sent) {
      if peer != m.sender || s != m.sequence.value {
        assert HasSlot(n, peer, s);
      }
    }
  }

  lemma GateKeeps(n: Node, m: Message, now: int, sent: SendLog)
    requires NodeOk(n, now, sent) && AllStamped(sent) && Authentic(m, sent)
    ensures NodeOk(Gate(n, m, now), now, sent)
  {
    match Judge(n, m, now)
    case Accepted => ProcessKeeps(n, m, now, sent);
    case Buffered =>
      StashKeepsBuffer(n, m, sent);
      Irrelevant(n, Stash(n, m), now, sent);
    case _ =>
  }

  lemma FlushOneKeeps(n: Node, peer: PeerId, now: int, sent: SendLog)
    requires NodeOk(n, now, sent) && AllStamped(sent) && CanFlush(n, peer)
    ensures NodeOk(FlushOne(n, peer, now), now, sent)
  {
    hide Process, OnceOk, TicketsOk, AllStamped, PrefixOf;
    var expected := LookupOr0(n.lastSequence, peer) + 1;
    var m := n.buffer[peer][expected];
    var n' := n.(buffer := n.buffer[peer := n.buffer[peer] - {expected}]);
    assert HasSlot(n, peer, expected);
    FewerSlots(n, n', sent);
    Irrelevant(n, n', now, sent);
    ProcessKeeps(n', m, now, sent);
  }

  lemma PurgeKeeps(n: Node, now: int, sent: SendLog)
    requires NodeOk(n, now, sent)
    ensures NodeOk(Purge(n, now), now, sent)
  {
    var n' := Purge(n, now);
    SameBuffer(n, n', sent);
    forall peer | peer in sent ensures PrefixOf(n', peer, sent[peer]) {
      assert PrefixOf(n, peer, sent[peer]);
    }
    forall i | 0 <= i < |n.accepted| ensures Spent(n', n.accepted[i], now) {
      assert Spent(n, n.accepted[i], now);
    }
  }

  lemma RestartKeeps(n: Node, now: int, sent: SendLog)
    requires NodeOk(n, now, sent)
    ensures NodeOk(Restart(n), now, sent)
  {
    var n' := Restart(n);
    FewerSlots(n, n', sent);
    forall peer | peer in sent ensures PrefixOf(n', peer, sent[peer]) {
      assert PrefixOf(n, peer, sent[peer]);
    }
    forall i | 0 <= i < |n.accepted| ensures Spent(n', n.accepted[i], now) {
      assert Spent(n, n.accepted[i], now);
    }
    assert n.waiting + (n.handled + n.lost) == n.waiting + n.handled + n.lost;
    RotateKeepsDistinct(n.waiting, n.handled + n.lost);
    assert n'.waiting + n'.handled + n'.lost == n.handled + n.lost + n.waiting;
  }

  lemma RotateKeepsDistinct(xs: seq<nat>, ys: seq<nat>)
    requires Distinct(xs + ys)
    ensures Distinct(ys + xs)
  {
    assert forall k :: 0 <= k < |ys + xs| ==> (ys + xs)[k] == (xs + ys)[if k < |ys| then k + |xs| else k - |ys|];
  }

  lemma CallBackKeeps(n: Node, i: nat, now: int, sent: SendLog)
    requires NodeOk(n, now, sent) && i < |n.waiting|
    ensures NodeOk(CallBack(n, i), now, sent)
  {
    var n' := CallBack(n, i);
    SameBuffer(n, n', sent);
    forall peer | peer in sent ensures PrefixOf(n', peer, sent[peer]) {
      assert PrefixOf(n, peer, sent[peer]);
    }
    forall k | 0 <= k < |n.accepted| ensures Spent(n', n.accepted[k], now) {
      assert Spent(n, n.accepted[k], now);
    }
    MoveKeepsDistinct(n.waiting, n.handled, n.lost, i);
  }

  lemma LoseCallBackKeeps(n: Node, i: nat, now: int, sent: SendLog)
    requires NodeOk(n, now, sent) && i < |n.waiting|
    ensures NodeOk(LoseCallBack(n, i), now, sent)
  {
    var n' := LoseCallBack(n, i);
    SameBuffer(n, n', sent);
    forall peer | peer in sent ensures PrefixOf(n', peer, sent[peer]) {
      assert PrefixOf(n, peer, sent[peer]);
    }
    forall k | 0 <= k < |n.accepted| ensures Spent(n', n.accepted[k], now) {
      assert Spent(n, n.accepted[k], now);
    }
    DropKeepsDistinct(n.waiting, n.handled, n.lost, i);
  }

  lemma MoveKeepsDistinct(xs: seq<nat>, ys: seq<nat>, zs: seq<nat>, i: nat)
    requires Distinct(xs + ys + zs) && i < |xs|
    ensures Distinct(xs[..i] + xs[i + 1..] + (ys + [xs[i]]) + zs)
  {
    var before, moved := xs + ys + zs, xs[..i] + xs[i + 1..] + (ys + [xs[i]]) + zs;
    var place := |xs| + |ys| - 1;
    assert forall k :: 0 <= k < |moved| ==>
      moved[k] == before[if k == place then i else if k < i || k > place then k else k + 1];
  }

  lemma DropKeepsDistinct(xs: seq<nat>, ys: seq<nat>, zs: seq<nat>, i: nat)
    requires Distinct(xs + ys + zs) && i < |xs|
    ensures Distinct(xs[..i] + xs[i + 1..] + ys + (zs + [xs[i]]))
  {
    MoveKeepsDistinct(xs, ys + zs, [], i);
    assert xs + (ys + zs) + [] == xs + ys + zs;
    assert xs[..i] + xs[i + 1..] + (ys + zs + [xs[i]]) + [] == xs[..i] + xs[i + 1..] + ys + (zs + [xs[i]]);
  }

  lemma TimePasses(n: Node, now: int, later: int, sent: SendLog)
    requires NodeOk(n, now, sent) && now <= later
    ensures NodeOk(n, later, sent)
  {
    forall i | 0 <= i < |n.accepted| ensures Spent(n, n.accepted[i], later) {
      assert Spent(n, n.accepted[i], now);
    }
  }

  lemma StaysAuthentic(x: Message, sent: SendLog, p: PeerId, m: Message)
    requires Authentic(x, sent) && p in sent
    ensures Authentic(x, sent[p := sent[p] + [m]])
  {
    if x.sender == p {
      var i :| 0 <= i < |sent[p]| && SameEnvelope(sent[p][i], x);
      assert (sent[p] + [m])[i] == sent[p][i];
    }
  }

  // One more message in one peer's log breaks nothing at any node.
  lemma SendKeeps(n: Node, now: int, sent: SendLog, m: Message)
    requires NodeOk(n, now, sent) && m.sender in sent
    ensures NodeOk(n, now, sent[m.sender := sent[m.sender] + [m]])
  {
    var sent' := sent[m.sender := sent[m.sender] + [m]];
    forall peer | peer in sent' ensures PrefixOf(n, peer, sent'[peer]) {
      assert PrefixOf(n, peer, sent[peer]);
    }
    forall peer, s | HasSlot(n, peer, s) ensures SlotOk(n.buffer[peer][s], peer, s, sent') {
      assert SlotOk(n.buffer[peer][s], peer, s, sent);
      StaysAuthentic(n.buffer[peer][s], sent, m.sender, m);
    }
  }

  // ------------------------------------------------- order of the callbacks

  function Handled(n: Node, i: nat): (t: nat)
    requires TicketsOk(n) && i < |n.handled|
    ensures t < |n.accepted|
  {
    n.handled[i]
  }

  function Waiting(n: Node, j: nat): (t: nat)
    requires TicketsOk(n) && j < |n.waiting|
    ensures t < |n.accepted|
  {
    n.waiting[j]
  }

  predicate SameSender(n: Node, s: nat, t: nat)
    requires s < |n.accepted| && t < |n.accepted|
  {
    n.accepted[s].sender == n.accepted[t].sender
  }

  ghost predicate Rivals(n: Node, s: nat, t: nat, among: nat -> bool)
    requires s < |n.accepted| && t < |n.accepted|
  {
    among(s) && among(t) && SameSender(n, s, t)
  }

  // Among the given tickets: the messages already handed to the application went
  // there in the order of acceptance, and are older than those of the same sender
  // still waiting.
  ghost predicate InOrder(n: Node, among: nat -> bool)
    requires TicketsOk(n)
  {
    && (forall i, j :: 0 <= i < j < |n.handled| && Rivals(n, Handled(n, i), Handled(n, j), among) ==>
          Handled(n, i) < Handled(n, j))
    && (forall i, j :: 0 <= i < |n.handled| && 0 <= j < |n.waiting| && Rivals(n, Handled(n, i), Waiting(n, j), among) ==>
          Handled(n, i) < Waiting(n, j))
  }

  // No older message of the same sender is still suspended.
  ghost predicate OldestOfSender(n: Node, i: nat, among: nat -> bool)
    requires TicketsOk(n) && i < |n.waiting|
  {
    forall j :: 0 <= j < |n.waiting| && Rivals(n, Waiting(n, i), Waiting(n, j), among) ==> Waiting(n, i) <= Waiting(n, j)
  }

  // The await points let callbacks overtake each other; a callback keeps the
  // order exactly when no older message of its sender is still suspended.
  lemma CallBackKeepsOrderIff(n: Node, i: nat, among: nat -> bool, now: int, sent: SendLog)
    requires NodeOk(n, now, sent) && i < |n.waiting| && InOrder(n, among)
    ensures NodeOk(CallBack(n, i), now, sent)
    ensures InOrder(CallBack(n, i), among) <==> OldestOfSender(n, i, among)
  {
    CallBackKeeps(n, i, now, sent);
    hide NodeOk, InOrder, OldestOfSender, CallBack;
    if InOrder(CallBack(n, i), among) {
      OldestIfInOrder(n, i, among);
    }
    if OldestOfSender(n, i, among) {
      InOrderIfOldest(n, i, among);
    }
  }

  lemma AfterCallBack(n: Node, i: nat)
    requires TicketsOk(n) && i < |n.waiting| && TicketsOk(CallBack(n, i))
    ensures var n', h := CallBack(n, i), |n.handled|;
            && n'.accepted == n.accepted && |n'.handled| == h + 1 && |n'.waiting| == |n.waiting| - 1
            && Handled(n', h) == Waiting(n, i)
            && (forall k :: 0 <= k < h ==> Handled(n', k) == Handled(n, k))
            && (forall j :: 0 <= j < |n'.waiting| ==> Waiting(n', j) == Waiting(n, if j < i then j else j + 1))
  {
  }

  lemma OldestIfInOrder(n: Node, i: nat, among: nat -> bool)
    requires TicketsOk(n) && i < |n.waiting|
    requires TicketsOk(CallBack(n, i)) && InOrder(CallBack(n, i), among)
    ensures OldestOfSender(n, i, among)
  {
    AfterCallBack(n, i);
    hide CallBack, TicketsOk;
    var n', h := CallBack(n, i), |n.handled|;
    forall j | 0 <= j < |n.waiting| && Rivals(n, Waiting(n, i), Waiting(n, j), among)
      ensures Waiting(n, i) <= Waiting(n, j)
    {
      if j != i {
        var j' := if j < i then j else j - 1;
        assert Waiting(n', j') == Waiting(n, j);
        assert Rivals(n', Handled(n', h), Waiting(n', j'), among);
      }
    }
  }

  lemma InOrderIfOldest(n: Node, i: nat, among: nat -> bool)
    requires TicketsOk(n) && i < |n.waiting| && InOrder(n, among) && OldestOfSender(n, i, among)
    requires TicketsOk(CallBack(n, i))
    ensures InOrder(CallBack(n, i), among)
  {
    AfterCallBack(n, i);
    DistinctWaiting(n, i);
    hide CallBack, TicketsOk;
    var n', h := CallBack(n, i), |n.handled|;
    forall a, b | 0 <= a < |n'.handled| && 0 <= b < |n'.waiting| && Rivals(n', Handled(n', a), Waiting(n', b), among)
      ensures Handled(n', a) < Waiting(n', b)
    {
      var b' := if b < i then b else b + 1;
      assert Waiting(n', b) == Waiting(n, b');
      if a < h {
        assert Rivals(n, Handled(n, a), Waiting(n, b'), among);
      } else {
        assert Rivals(n, Waiting(n, i), Waiting(n, b'), among);
      }
    }
    forall a, b | 0 <= a < b < |n'.handled| && Rivals(n', Handled(n', a), Handled(n', b), among)
      ensures Handled(n', a) < Handled(n', b)
    {
      if b < h {
        assert Rivals(n, Handled(n, a), Handled(n, b), among);
      } else {
        assert Rivals(n, Handled(n, a), Waiting(n, i), among);
      }
    }
  }

  lemma DistinctWaiting(n: Node, i: nat)
    requires TicketsOk(n) && i < |n.waiting|
    ensures forall j :: 0 <= j < |n.waiting| && j != i ==> Waiting(n, j) != Waiting(n, i)
  {
    var all := n.waiting + n.handled + n.lost;
    assert forall j :: 0 <= j < |n.waiting| ==> all[j] == n.waiting[j];
  }
}
