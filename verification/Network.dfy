/**
 * Runs of the whole network. Nodes stamp what they send; the wire keeps every
 * message ever transmitted, so any copy may arrive anywhere, late, twice, in
 * any order or never. Every step is one atomic section of one node.
 *
 * Peers outside the network's own nodes may inject any message at all, as long
 * as it does not name one of the nodes as its sender.
 */
module Network {
  import opened Messages
  import opened Receiving
  import opened Delivery

  datatype Offer = Offer(clock: Clock, messages: seq<Message>)

  datatype World = World(
    nodes: map<PeerId, Node>,
    time: map<PeerId, int>,
    pending: map<PeerId, map<MessageId, Message>>,
    wire: set<Message>,
    offers: set<Offer>,
    sent: SendLog)

  datatype Step =
    | Send(node: PeerId, draft: Message)             // stamp and queue
    | Transmit(node: PeerId, m: Message, payload: string) // send, retry or handover
    | Arrive(node: PeerId, m: Message)               // the gates and the transaction
    | FlushStep(node: PeerId, peer: PeerId)          // one iteration of the flush loop
    | DropBuffer(node: PeerId, peer: PeerId)         // end of a flush loop, or losing a buffer
    | CallBackStep(node: PeerId, i: nat)             // the application callback of one message
    | LoseStep(node: PeerId, i: nat)                 // the ACK before that callback fails
    | Relay(node: PeerId, m: Message)                // store a relayed message for its target
    | OfferDelta(node: PeerId, messages: seq<Message>)
    | ApplyDelta(node: PeerId, offer: Offer)
    | Cleanup(node: PeerId, gone: set<MessageId>)
    | Reboot(node: PeerId)
    | Tick(node: PeerId, later: int)
    | Inject(node: PeerId, m: Message)
    | InjectOffer(node: PeerId, offer: Offer)

  predicate MaySay(m: Message, sent: SendLog) {
    m.sender !in sent
  }

  ghost predicate Enabled(w: World, step: Step) {
    step.node in w.nodes && step.node in w.time && step.node in w.pending && step.node in w.sent &&
    match step
    case Send(p, draft) => draft.sender == p && draft.sequence.None?
    case Transmit(p, m, _) => m in w.sent[p] || m in w.pending[p].Values
    case Arrive(p, m) => m in w.wire
    case FlushStep(p, peer) => CanFlush(w.nodes[p], peer)
    case CallBackStep(p, i) => i < |w.nodes[p].waiting|
    case LoseStep(p, i) => i < |w.nodes[p].waiting|
    case Relay(p, m) => m in w.wire
    case OfferDelta(p, messages) => forall m :: m in messages ==> m in w.pending[p].Values
    case ApplyDelta(p, offer) => offer in w.offers
    case Tick(p, later) => w.time[p] <= later
    case Inject(p, m) => MaySay(m, w.sent)
    case InjectOffer(p, offer) => forall m :: m in offer.messages ==> MaySay(m, w.sent)
    case _ => true
  }

  function Put(w: World, p: PeerId, n: Node): World {
    w.(nodes := w.nodes[p := n])
  }

  ghost function Do(w: World, step: Step): World
    requires Enabled(w, step)
  {
    var p := step.node;
    var n, now := w.nodes[p], w.time[p];
    match step
    case Send(_, draft) =>
      var (n', m) := Stamp(n, p, draft);
      Put(w, p, n').(pending := w.pending[p := w.pending[p][m.id := m]], sent := w.sent[p := w.sent[p] + [m]])
    case Transmit(_, m, payload) => w.(wire := w.wire + {m.(payload := payload)})
    case Arrive(_, m) => Put(w, p, Gate(n, m, now))
    case FlushStep(_, peer) => Put(w, p, FlushOne(n, peer, now))
    case DropBuffer(_, peer) => Put(w, p, n.(buffer := n.buffer - {peer}))
    case CallBackStep(_, i) => Put(w, p, CallBack(n, i))
    case LoseStep(_, i) => Put(w, p, LoseCallBack(n, i))
    case Relay(_, m) => w.(pending := w.pending[p := w.pending[p][m.id := m]])
    case OfferDelta(_, messages) => w.(offers := w.offers + {Offer(n.clocks, messages)})
    case ApplyDelta(_, offer) =>
      Put(w, p, n.(clocks := Merge(n.clocks, offer.clock))).(
        pending := w.pending[p := QueueAll(w.pending[p], n.processed, offer.messages)])
    case Cleanup(_, gone) => Put(w, p, Purge(n, now)).(pending := w.pending[p := w.pending[p] - gone])
    case Reboot(_) => Put(w, p, Restart(n))
    case Tick(_, later) => w.(time := w.time[p := later])
    case Inject(_, m) => w.(wire := w.wire + {m})
    case InjectOffer(_, offer) => w.(offers := w.offers + {offer})
  }

  ghost predicate Legal(w: World, steps: seq<Step>)
    decreases |steps|
  {
    steps == [] || (Enabled(w, steps[0]) && Legal(Do(w, steps[0]), steps[1..]))
  }

  ghost function Exec(w: World, steps: seq<Step>): World
    requires Legal(w, steps)
    decreases |steps|
  {
    if steps == [] then w else Exec(Do(w, steps[0]), steps[1..])
  }

  lemma Prepend(w: World, step: Step, rest: seq<Step>)
    requires Enabled(w, step) && Legal(Do(w, step), rest)
    ensures Legal(w, [step] + rest) && Exec(w, [step] + rest) == Exec(Do(w, step), rest)
  {
    assert ([step] + rest)[1..] == rest;
  }

  lemma {:induction false} ExecInTwo(w: World, first: seq<Step>, second: seq<Step>)
    requires Legal(w, first) && Legal(Exec(w, first), second)
    ensures Legal(w, first + second)
    ensures Exec(w, first + second) == Exec(Exec(w, first), second)
    decreases |first|
  {
    if first == [] {
      assert first + second == second;
    } else {
      assert (first + second)[1..] == first[1..] + second;
      ExecInTwo(Do(w, first[0]), first[1..], second);
    }
  }

  lemma Nothing(w: World)
    ensures Legal(w, []) && Exec(w, []) == w
  {
  }

  function Start(time: map<PeerId, int>): World {
    World(map p | p in time :: EmptyNode, time, map p | p in time :: map[], {}, {}, map p | p in time :: [])
  }

  // ------------------------------------------------------------- invariant

  ghost predicate CounterCovers(n: Node, p: PeerId, log: seq<Message>) {
    && LookupOr0(n.clocks, p) >= 0
    && forall i :: 0 <= i < |log| && log[i].sequence.Some? ==> log[i].sequence.value <= LookupOr0(n.clocks, p)
  }

  ghost predicate AllAuthentic(messages: set<Message>, sent: SendLog) {
    forall m :: m in messages ==> Authentic(m, sent)
  }

  function OfferMessages(offer: Offer): set<Message> {
    set m | m in offer.messages
  }

  ghost predicate PendingOk(w: World) {
    forall p :: p in w.pending ==> AllAuthentic(w.pending[p].Values, w.sent)
  }

  ghost predicate OffersOk(w: World) {
    forall offer :: offer in w.offers ==> AllAuthentic(OfferMessages(offer), w.sent)
  }

  ghost predicate NodesOk(w: World)
    requires w.nodes.Keys == w.time.Keys == w.sent.Keys
  {
    forall p :: p in w.nodes ==> NodeOk(w.nodes[p], w.time[p], w.sent) && CounterCovers(w.nodes[p], p, w.sent[p])
  }

  ghost predicate WorldOk(w: World) {
    && w.nodes.Keys == w.time.Keys == w.pending.Keys == w.sent.Keys
    && AllStamped(w.sent)
    && NodesOk(w)
    && AllAuthentic(w.wire, w.sent)
    && PendingOk(w)
    && OffersOk(w)
  }

  lemma StartOk(time: map<PeerId, int>)
    ensures WorldOk(Start(time))
  {
    var w := Start(time);
    forall p | p in w.nodes ensures NodeOk(w.nodes[p], w.time[p], w.sent) {
      assert EmptyNode.waiting + EmptyNode.handled + EmptyNode.lost == [];
    }
  }

  // ---------------------------------------------------- steps of one node

  lemma SequenceOfOwn(m: Message, sent: SendLog)
    requires AllStamped(sent) && Authentic(m, sent) && m.sender in sent && m.sequence.Some?
    ensures m.sequence.value >= 1
  {
    var log := sent[m.sender];
    assert Stamped(log, m.sender);
    var i :| 0 <= i < |log| && SameEnvelope(log[i], m);
  }

  // A node's own counter never goes back, whatever arrives.
  lemma OwnCounterGrows(n: Node, m: Message, now: int, p: PeerId, sent: SendLog)
    requires AllStamped(sent) && Authentic(m, sent) && p in sent && LookupOr0(n.clocks, p) >= 0
    ensures LookupOr0(Process(n, m, now).clocks, p) >= LookupOr0(n.clocks, p)
  {
    if m.sender == p && m.sequence.Some? {
      SequenceOfOwn(m, sent);
    }
  }

  lemma GateStep(n: Node, m: Message, now: int, p: PeerId, sent: SendLog)
    requires NodeOk(n, now, sent) && AllStamped(sent) && Authentic(m, sent)
    requires p in sent && LookupOr0(n.clocks, p) >= 0
    ensures NodeOk(Gate(n, m, now), now, sent)
    ensures LookupOr0(Gate(n, m, now).clocks, p) >= LookupOr0(n.clocks, p)
  {
    hide NodeOk;
    GateKeeps(n, m, now, sent);
    OwnCounterGrows(n, m, now, p, sent);
  }

  lemma FlushOneStep(n: Node, peer: PeerId, now: int, p: PeerId, sent: SendLog)
    requires NodeOk(n, now, sent) && AllStamped(sent) && CanFlush(n, peer)
    requires p in sent && LookupOr0(n.clocks, p) >= 0
    ensures NodeOk(FlushOne(n, peer, now), now, sent)
    ensures LookupOr0(FlushOne(n, peer, now).clocks, p) >= LookupOr0(n.clocks, p)
  {
    var expected := LookupOr0(n.lastSequence, peer) + 1;
    var m := n.buffer[peer][expected];
    assert HasSlot(n, peer, expected);
    assert SlotOk(m, peer, expected, sent);
    hide NodeOk;
    FlushOneKeeps(n, peer, now, sent);
    OwnCounterGrows(n.(buffer := n.buffer[peer := n.buffer[peer] - {expected}]), m, now, p, sent);
  }

  lemma DropStep(n: Node, peer: PeerId, now: int, sent: SendLog)
    requires NodeOk(n, now, sent)
    ensures NodeOk(n.(buffer := n.buffer - {peer}), now, sent)
  {
    var n' := n.(buffer := n.buffer - {peer});
    FewerSlots(n, n', sent);
    Irrelevant(n, n', now, sent);
  }

  lemma ClocksStep(n: Node, clocks: Clock, now: int, sent: SendLog)
    requires NodeOk(n, now, sent)
    ensures NodeOk(n.(clocks := clocks), now, sent)
  {
    var n' := n.(clocks := clocks);
    SameBuffer(n, n', sent);
    Irrelevant(n, n', now, sent);
  }

  // The new state of node `p` in a step that touches no message store.
  ghost function NodeAfter(n: Node, now: int, step: Step): Node
    requires step.FlushStep? ==> CanFlush(n, step.peer)
    requires step.CallBackStep? || step.LoseStep? ==> step.i < |n.waiting|
  {
    match step
    case Arrive(_, m) => Gate(n, m, now)
    case FlushStep(_, peer) => FlushOne(n, peer, now)
    case DropBuffer(_, peer) => n.(buffer := n.buffer - {peer})
    case CallBackStep(_, i) => CallBack(n, i)
    case LoseStep(_, i) => LoseCallBack(n, i)
    case ApplyDelta(_, offer) => n.(clocks := Merge(n.clocks, offer.clock))
    case Cleanup(_, _) => Purge(n, now)
    case Reboot(_) => Restart(n)
    case _ => n
  }

  lemma NodeStepKeeps(n: Node, now: int, step: Step, p: PeerId, sent: SendLog)
    requires NodeOk(n, now, sent) && AllStamped(sent) && p in sent && LookupOr0(n.clocks, p) >= 0
    requires step.Arrive? ==> Authentic(step.m, sent)
    requires step.FlushStep? ==> CanFlush(n, step.peer)
    requires step.CallBackStep? || step.LoseStep? ==> step.i < |n.waiting|
    ensures NodeOk(NodeAfter(n, now, step), now, sent)
    ensures LookupOr0(NodeAfter(n, now, step).clocks, p) >= LookupOr0(n.clocks, p)
  {
    hide NodeOk, Stamped, Gate, FlushOne;
    match step
    case Arrive(_, m) => GateStep(n, m, now, p, sent);
    case FlushStep(_, peer) => FlushOneStep(n, peer, now, p, sent);
    case DropBuffer(_, peer) => DropStep(n, peer, now, sent);
    case CallBackStep(_, i) => CallBackKeeps(n, i, now, sent);
    case LoseStep(_, i) => LoseCallBackKeeps(n, i, now, sent);
    case ApplyDelta(_, offer) => ClocksStep(n, Merge(n.clocks, offer.clock), now, sent);
    case Cleanup(_, _) => PurgeKeeps(n, now, sent);
    case Reboot(_) => RestartKeeps(n, now, sent);
    case _ =>
  }

  // -------------------------------------------------- steps of the network

  lemma PutKeeps(w: World, p: PeerId, n: Node)
    requires WorldOk(w) && p in w.nodes
    requires NodeOk(n, w.time[p], w.sent)
    requires LookupOr0(n.clocks, p) >= LookupOr0(w.nodes[p].clocks, p)
    ensures WorldOk(Put(w, p, n))
  {
    hide NodeOk, NodesOk, PendingOk, OffersOk, AllStamped, AllAuthentic;
    PutKeepsNodes(w, p, n);
    SameStores(w, Put(w, p, n));
  }

  lemma SameStores(w: World, w': World)
    requires w'.pending == w.pending && w'.offers == w.offers && w'.sent == w.sent
    ensures PendingOk(w) == PendingOk(w') && OffersOk(w) == OffersOk(w')
  {
    hide AllAuthentic;
  }

  lemma PutKeepsNodes(w: World, p: PeerId, n: Node)
    requires w.nodes.Keys == w.time.Keys == w.sent.Keys && NodesOk(w) && p in w.nodes
    requires NodeOk(n, w.time[p], w.sent) && LookupOr0(n.clocks, p) >= LookupOr0(w.nodes[p].clocks, p)
    ensures NodesOk(Put(w, p, n))
  {
    hide NodeOk;
  }

  lemma StoreKeeps(w: World, p: PeerId, pending: map<MessageId, Message>)
    requires WorldOk(w) && p in w.nodes && AllAuthentic(pending.Values, w.sent)
    ensures WorldOk(w.(pending := w.pending[p := pending]))
  {
    hide NodeOk, Stamped, AllAuthentic;
  }

  lemma WireKeeps(w: World, m: Message)
    requires WorldOk(w) && Authentic(m, w.sent)
    ensures WorldOk(w.(wire := w.wire + {m}))
  {
    hide NodeOk, Stamped;
    var w' := w.(wire := w.wire + {m});
    assert AllAuthentic(w'.wire, w.sent);
  }

  lemma OfferKeeps(w: World, offer: Offer)
    requires WorldOk(w) && AllAuthentic(OfferMessages(offer), w.sent)
    ensures WorldOk(w.(offers := w.offers + {offer}))
  {
    hide NodeOk, Stamped, AllAuthentic;
  }

  lemma LongerLogKeepsAuthentic(messages: set<Message>, sent: SendLog, p: PeerId, m: Message)
    requires AllAuthentic(messages, sent) && p in sent
    ensures AllAuthentic(messages, sent[p := sent[p] + [m]])
  {
    forall x | x in messages ensures Authentic(x, sent[p := sent[p] + [m]]) {
      StaysAuthentic(x, sent, p, m);
    }
  }

  lemma StampExtends(n: Node, p: PeerId, log: seq<Message>, draft: Message)
    requires Stamped(log, p) && CounterCovers(n, p, log)
    requires draft.sender == p && draft.sequence.None?
    ensures var (n', m) := Stamp(n, p, draft);
            Stamped(log + [m], p) && CounterCovers(n', p, log + [m])
  {
  }

  // Growing the send log of one node.
  lemma LogGrows(w: World, p: PeerId, m: Message)
    requires WorldOk(w) && p in w.nodes && m.sender == p
    requires p in w.sent && Stamped(w.sent[p] + [m], p) && CounterCovers(w.nodes[p], p, w.sent[p] + [m])
    ensures WorldOk(w.(sent := w.sent[p := w.sent[p] + [m]]))
  {
    hide NodeOk, Stamped, AllStamped, AllAuthentic, CounterCovers, NodesOk, PendingOk, OffersOk;
    LogGrowsNodes(w, p, m);
    LogGrowsStores(w, p, m);
  }

  lemma LogGrowsNodes(w: World, p: PeerId, m: Message)
    requires w.nodes.Keys == w.time.Keys == w.sent.Keys && NodesOk(w) && AllStamped(w.sent)
    requires p in w.sent && m.sender == p
    requires Stamped(w.sent[p] + [m], p) && CounterCovers(w.nodes[p], p, w.sent[p] + [m])
    ensures var w' := w.(sent := w.sent[p := w.sent[p] + [m]]);
            NodesOk(w') && AllStamped(w'.sent)
  {
    hide NodeOk, Stamped, CounterCovers;
    var w' := w.(sent := w.sent[p := w.sent[p] + [m]]);
    forall q | q in w'.nodes
      ensures NodeOk(w'.nodes[q], w'.time[q], w'.sent) && CounterCovers(w'.nodes[q], q, w'.sent[q])
    {
      SendKeeps(w.nodes[q], w.time[q], w.sent, m);
    }
  }

  lemma LogGrowsStores(w: World, p: PeerId, m: Message)
    requires PendingOk(w) && OffersOk(w) && AllAuthentic(w.wire, w.sent) && p in w.sent
    ensures var w' := w.(sent := w.sent[p := w.sent[p] + [m]]);
            PendingOk(w') && OffersOk(w') && AllAuthentic(w'.wire, w'.sent)
  {
    hide AllAuthentic;
    var w' := w.(sent := w.sent[p := w.sent[p] + [m]]);
    LongerLogKeepsAuthentic(w.wire, w.sent, p, m);
    forall q | q in w'.pending ensures AllAuthentic(w'.pending[q].Values, w'.sent) {
      LongerLogKeepsAuthentic(w.pending[q].Values, w.sent, p, m);
    }
    forall offer | offer in w'.offers ensures AllAuthentic(OfferMessages(offer), w'.sent) {
      LongerLogKeepsAuthentic(OfferMessages(offer), w.sent, p, m);
    }
  }

  lemma QueueKeepsAuthentic(pending: map<MessageId, Message>, m: Message, sent: SendLog)
    requires AllAuthentic(pending.Values, sent) && Authentic(m, sent)
    ensures AllAuthentic(pending[m.id := m].Values, sent)
  {
    forall x | x in pending[m.id := m].Values ensures Authentic(x, sent) {
      assert x == m || x in pending.Values;
    }
  }

  // What the invariant says about one node.
  lemma At(w: World, p: PeerId)
    requires WorldOk(w) && p in w.nodes
    ensures p in w.time && p in w.pending && p in w.sent
    ensures NodeOk(w.nodes[p], w.time[p], w.sent) && AllStamped(w.sent)
    ensures Stamped(w.sent[p], p) && CounterCovers(w.nodes[p], p, w.sent[p])
    ensures AllAuthentic(w.pending[p].Values, w.sent) && AllAuthentic(w.wire, w.sent)
    ensures forall m :: m in w.sent[p] ==> Authentic(m, w.sent)
    ensures forall offer :: offer in w.offers ==> AllAuthentic(OfferMessages(offer), w.sent)
  {
    hide NodeOk, AllAuthentic;
    assert Stamped(w.sent[p], p);
    forall m | m in w.sent[p] ensures Authentic(m, w.sent) {
      LoggedIsAuthentic(m, w.sent, p);
    }
  }

  lemma LoggedIsAuthentic(m: Message, sent: SendLog, p: PeerId)
    requires p in sent && m in sent[p] && m.sender == p
    ensures Authentic(m, sent)
  {
    var i :| 0 <= i < |sent[p]| && sent[p][i] == m;
    assert SameEnvelope(sent[p][i], m);
  }

  lemma PayloadIsFree(m: Message, payload: string, sent: SendLog)
    requires Authentic(m, sent)
    ensures Authentic(m.(payload := payload), sent)
  {
    if m.sender in sent {
      var log := sent[m.sender];
      var i :| 0 <= i < |log| && SameEnvelope(log[i], m);
      assert SameEnvelope(log[i], m.(payload := payload));
    }
  }

  lemma SendStepKeeps(w: World, step: Step)
    requires WorldOk(w) && step.Send? && Enabled(w, step)
    ensures WorldOk(Do(w, step))
  {
    hide NodeOk, Stamped, AllAuthentic, AllStamped, WorldOk;
    var p, draft := step.node, step.draft;
    At(w, p);
    var (n', m) := Stamp(w.nodes[p], p, draft);
    StampExtends(w.nodes[p], p, w.sent[p], draft);
    ClocksStep(w.nodes[p], n'.clocks, w.time[p], w.sent);
    PutKeeps(w, p, n');
    var w1 := Put(w, p, n');
    LogGrows(w1, p, m);
    var w2 := w1.(sent := w1.sent[p := w1.sent[p] + [m]]);
    At(w2, p);
    QueueKeepsAuthentic(w2.pending[p], m, w2.sent);
    StoreKeeps(w2, p, w2.pending[p][m.id := m]);
    assert Do(w, step) == w2.(pending := w2.pending[p := w2.pending[p][m.id := m]]);
  }

  lemma {:induction false} QueueAllAuthentic(
    pending: map<MessageId, Message>, processed: map<MessageId, int>, messages: seq<Message>, sent: SendLog)
    requires AllAuthentic(pending.Values, sent)
    requires forall m :: m in messages ==> Authentic(m, sent)
    ensures AllAuthentic(QueueAll(pending, processed, messages).Values, sent)
  {
    if messages != [] {
      var front, m := messages[..|messages| - 1], messages[|messages| - 1];
      QueueAllAuthentic(pending, processed, front, sent);
      QueueKeepsAuthentic(QueueAll(pending, processed, front), m, sent);
    }
  }

  lemma StepKeeps(w: World, step: Step)
    requires WorldOk(w) && Enabled(w, step)
    ensures WorldOk(Do(w, step))
  {
    hide NodeOk, Stamped, AllStamped, WorldOk, Gate, FlushOne;
    var p := step.node;
    var n, now := w.nodes[p], w.time[p];
    At(w, p);
    if step.Send? {
      SendStepKeeps(w, step);
    } else {
      NodeStepKeeps(n, now, step, p, w.sent);
      PutKeeps(w, p, NodeAfter(n, now, step));
      StoreStepKeeps(w, step);
    }
  }

  ghost function NodePart(w: World, step: Step): World
    requires Enabled(w, step)
  {
    Put(w, step.node, NodeAfter(w.nodes[step.node], w.time[step.node], step))
  }

  // Every other step: one node changes, then at most one store.
  lemma StoreStepKeeps(w: World, step: Step)
    requires WorldOk(w) && Enabled(w, step) && !step.Send?
    requires WorldOk(NodePart(w, step))
    ensures WorldOk(Do(w, step))
  {
    hide NodeOk, Stamped, AllStamped, WorldOk, Gate, FlushOne, CounterCovers;
    var p := step.node;
    var w1 := NodePart(w, step);
    At(w, p);
    match step
    case Transmit(_, m, payload) =>
      PayloadIsFree(m, payload, w.sent);
      WireKeeps(w, m.(payload := payload));
    case Relay(_, m) =>
      QueueKeepsAuthentic(w.pending[p], m, w.sent);
      StoreKeeps(w, p, w.pending[p][m.id := m]);
    case OfferDelta(_, messages) =>
      OfferKeeps(w, Offer(w.nodes[p].clocks, messages));
    case ApplyDelta(_, offer) =>
      assert forall m :: m in offer.messages ==> m in OfferMessages(offer);
      QueueAllAuthentic(w.pending[p], w.nodes[p].processed, offer.messages, w.sent);
      StoreKeeps(w1, p, QueueAll(w.pending[p], w.nodes[p].processed, offer.messages));
    case Cleanup(_, gone) =>
      assert (w.pending[p] - gone).Values <= w.pending[p].Values;
      StoreKeeps(w1, p, w.pending[p] - gone);
    case Tick(_, later) => TickKeeps(w, p, later);
    case Inject(_, m) => WireKeeps(w, m);
    case InjectOffer(_, offer) => OfferKeeps(w, offer);
    case _ =>
  }

  lemma TickKeeps(w: World, p: PeerId, later: int)
    requires WorldOk(w) && p in w.nodes && p in w.time && w.time[p] <= later
    ensures WorldOk(w.(time := w.time[p := later]))
  {
    hide NodeOk, Stamped, AllAuthentic;
    TimePasses(w.nodes[p], w.time[p], later, w.sent);
  }

  lemma {:induction false} RunKeeps(w: World, steps: seq<Step>)
    requires WorldOk(w) && Legal(w, steps)
    ensures WorldOk(Exec(w, steps))
    decreases |steps|
  {
    if steps != [] {
      StepKeeps(w, steps[0]);
      RunKeeps(Do(w, steps[0]), steps[1..]);
    }
  }

  // -------------------------------------------------------------- theorems

  // What node q has accepted from node p.
  function Delivered(w: World, q: PeerId, p: PeerId): seq<Message>
    requires q in w.nodes
  {
    From(w.nodes[q].accepted, p)
  }

  // The messages given to the application, in the order of the callbacks.
  ghost function HandedOver(n: Node): seq<Message>
    requires TicketsOk(n)
  {
    seq(|n.handled|, i requires 0 <= i < |n.handled| => n.accepted[n.handled[i]])
  }

  lemma NodesStay(w: World, steps: seq<Step>)
    requires Legal(w, steps)
    ensures Exec(w, steps).nodes.Keys == w.nodes.Keys
    ensures w.sent.Keys <= Exec(w, steps).sent.Keys
    decreases |steps|
  {
    if steps != [] {
      NodesStay(Do(w, steps[0]), steps[1..]);
    }
  }

  // In every run each node has accepted, of each other node's messages, exactly
  // the first k of them, up to the payload, in the order they were sent and
  // numbered 1..k.
  lemma FifoDelivery(time: map<PeerId, int>, steps: seq<Step>, p: PeerId, q: PeerId)
    requires Legal(Start(time), steps) && p in time && q in time
    ensures var w := Exec(Start(time), steps);
            p in w.sent && q in w.nodes &&
            var got := Delivered(w, q, p);
            && CopiesOfFirst(got, w.sent[p])
            && (forall i :: 0 <= i < |got| ==> got[i].sequence == Some(i + 1))
            && LookupOr0(w.nodes[q].lastSequence, p) == |got|
  {
    hide WorldOk, Exec, Legal, NodeOk;
    StartOk(time);
    RunKeeps(Start(time), steps);
    NodesStay(Start(time), steps);
    var w := Exec(Start(time), steps);
    At(w, q);
    PrefixAt(w.nodes[q], w.time[q], w.sent, p);
  }

  lemma PrefixAt(n: Node, now: int, sent: SendLog, p: PeerId)
    requires NodeOk(n, now, sent) && p in sent
    ensures PrefixOf(n, p, sent[p])
  {
  }

  // In every run, purges and restarts included, no two callbacks at a node are
  // for copies of one message.
  lemma AtMostOnce(time: map<PeerId, int>, steps: seq<Step>, q: PeerId)
    requires Legal(Start(time), steps) && q in time
    ensures var w := Exec(Start(time), steps);
            q in w.nodes && TicketsOk(w.nodes[q]) &&
            var handed := HandedOver(w.nodes[q]);
            && (forall i, j :: 0 <= i < j < |handed| ==> !SameMessage(handed[i], handed[j]))
            && (forall i :: 0 <= i < |handed| ==> handed[i] in w.nodes[q].accepted)
  {
    hide WorldOk, Exec, Legal, NodeOk;
    StartOk(time);
    RunKeeps(Start(time), steps);
    NodesStay(Start(time), steps);
    var w := Exec(Start(time), steps);
    At(w, q);
    OnceAt(w.nodes[q], w.time[q], w.sent);
  }

  lemma OnceAt(n: Node, now: int, sent: SendLog)
    requires NodeOk(n, now, sent)
    ensures TicketsOk(n)
    ensures var handed := HandedOver(n);
            && (forall i, j :: 0 <= i < j < |handed| ==> !SameMessage(handed[i], handed[j]))
            && (forall i :: 0 <= i < |handed| ==> handed[i] in n.accepted)
  {
    var all, handed := n.waiting + n.handled + n.lost, HandedOver(n);
    assert forall i :: 0 <= i < |n.handled| ==> n.handled[i] == all[|n.waiting| + i];
    forall i, j | 0 <= i < j < |handed| ensures !SameMessage(handed[i], handed[j]) {
      assert n.handled[i] != n.handled[j];
      assert SameMessage(handed[i], handed[j]) <==> SameMessage(handed[j], handed[i]);
    }
  }
}
