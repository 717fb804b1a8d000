/**
 * How often the retry passes transmit one row between its insertion and its
 * removal. Passes are started by a timer that does not wait for the one before,
 * so any number of them may be under way, and every other operation on the
 * table runs in between, at the await points of a pass.
 */
module RetryBound {
  import opened Messages
  import opened PendingQueue

  type PassId = nat

  // The entry that a pass is transmitting, with the attempts it read.
  datatype Flight = Flight(id: MessageId, attempts: nat)

  // A pass under way: when it began, the entries it has read and not yet come
  // to, with the attempts it read, and the one it is transmitting.
  datatype Pass = Pass(now: int, due: map<MessageId, nat>, flight: Option<Flight>)

  // A row and its history: how often passes have transmitted it, whether one has
  // delivered it since it was last pending, how often it was queued again after
  // that, how often a pass read it while another was still going to transmit it,
  // and how often a pass ended in the middle of a transmission.
  datatype Track = Track(row: Row, fires: nat, delivered: bool, requeues: nat, overlaps: nat, lost: nat)

  datatype Queue = Queue(tracks: map<MessageId, Track>, passes: map<PassId, Pass>)

  datatype Op =
    | Enqueue(id: MessageId, target: PeerId, data: string, now: int, deadline: int)
    | Begin(pass: PassId, now: int)
    | Fire(pass: PassId, id: MessageId)            // take the next entry, up to the await
    | Settle(pass: PassId, sent: bool)             // what comes after the await
    | End(pass: PassId, now: int)
    | Abandon(pass: PassId)                        // an error ends the pass early, or a restart
    | AckOf(id: MessageId)
    | NakOf(id: MessageId, next: int)
    | HandoverOf(id: MessageId, sent: bool, next: int)

  // Passes that are still going to transmit what they read as row `id`.
  function Readers(q: Queue, id: MessageId): set<PassId> {
    set p | p in q.passes && id in q.passes[p].due && q.passes[p].due[id] < MAX_RETRY_ATTEMPTS
  }

  predicate Flies(pass: Pass, id: MessageId) {
    pass.flight.Some? && pass.flight.value.id == id
  }

  function Flyers(q: Queue, id: MessageId): set<PassId> {
    set p | p in q.passes && Flies(q.passes[p], id)
  }

  predicate Engaged(q: Queue, id: MessageId) {
    Readers(q, id) != {} || Flyers(q, id) != {}
  }

  function OneIf(b: bool): nat {
    if b then 1 else 0
  }

  // ---------------------------------------------------------------- steps

  predicate Possible(q: Queue, op: Op) {
    match op
    case Begin(p, _) => p !in q.passes
    case Fire(p, id) => p in q.passes && q.passes[p].flight.None? && id in q.passes[p].due
    case Settle(p, _) => p in q.passes && q.passes[p].flight.Some?
    case End(p, _) => p in q.passes && q.passes[p].flight.None? && q.passes[p].due == map[]
    case Abandon(p) => p in q.passes
    case _ => true
  }

  function Moved(t: Track, row: Row): Track {
    t.(row := row, delivered := t.delivered && !row.status.Pending?)
  }

  // A new row may meet reads of an earlier row with its id; the first of them is
  // as good as a read of its own.
  function Enqueued(q: Queue, id: MessageId, target: PeerId, data: string, now: int, deadline: int): Track {
    if id in q.tracks then
      var t := q.tracks[id];
      Moved(t.(requeues := t.requeues + OneIf(t.delivered)), Requeued(t.row, target, data, deadline))
    else
      var stale := |Readers(q, id)|;
      Track(NewRow(target, data, now, deadline), 0, false, 0, if stale == 0 then 0 else stale - 1, 0)
  }

  function WithRow(q: Queue, id: MessageId, row: Row): Queue
    requires id in q.tracks
  {
    q.(tracks := q.tracks[id := Moved(q.tracks[id], row)])
  }

  function ReadBy(q: Queue, id: MessageId, now: int): Track
    requires id in q.tracks
  {
    var t := q.tracks[id];
    if Retryable(t.row, now) && t.row.attempts < MAX_RETRY_ATTEMPTS && Engaged(q, id) then
      t.(overlaps := t.overlaps + 1)
    else t
  }

  function Begun(q: Queue, p: PassId, now: int): Queue {
    Queue(map id | id in q.tracks :: ReadBy(q, id, now),
          q.passes[p := Pass(now, map id | id in q.tracks && Retryable(q.tracks[id].row, now) :: q.tracks[id].row.attempts, None)])
  }

  // An entry with too many attempts is given up, any other one is transmitted.
  function TakenRow(t: Track, attempts: nat): Track {
    if attempts >= MAX_RETRY_ATTEMPTS then Moved(t, t.row.(status := Failed)) else t.(fires := t.fires + 1)
  }

  function TakenPass(pass: Pass, id: MessageId): Pass
    requires id in pass.due
  {
    Pass(pass.now, pass.due - {id},
         if pass.due[id] >= MAX_RETRY_ATTEMPTS then None else Some(Flight(id, pass.due[id])))
  }

  function Taken(q: Queue, p: PassId, id: MessageId): Queue
    requires Possible(q, Fire(p, id))
  {
    Queue(if id in q.tracks then q.tracks[id := TakenRow(q.tracks[id], q.passes[p].due[id])] else q.tracks,
          q.passes[p := TakenPass(q.passes[p], id)])
  }

  function SettledRow(t: Track, sent: bool, next: int): Track {
    if sent then t.(row := t.row.(status := Delivered), delivered := true) else Moved(t, Rescheduled(t.row, next))
  }

  function Settled(q: Queue, p: PassId, sent: bool): Queue
    requires Possible(q, Settle(p, sent))
  {
    var pass := q.passes[p];
    var f := pass.flight.value;
    Queue(if f.id in q.tracks then q.tracks[f.id := SettledRow(q.tracks[f.id], sent, pass.now + Backoff(f.attempts))]
          else q.tracks,
          q.passes[p := pass.(flight := None)])
  }

  function Abandoned(q: Queue, p: PassId): Queue
    requires p in q.passes
  {
    var pass := q.passes[p];
    Queue(map id | id in q.tracks :: q.tracks[id].(lost := q.tracks[id].lost + OneIf(Flies(pass, id))), q.passes - {p})
  }

  // A step that is not possible is no step.
  function Do(q: Queue, op: Op): Queue {
    if !Possible(q, op) then q
    else
      match op
      case Enqueue(id, target, data, now, deadline) =>
        q.(tracks := q.tracks[id := Enqueued(q, id, target, data, now, deadline)])
      case Begin(p, now) => Begun(q, p, now)
      case Fire(p, id) => Taken(q, p, id)
      case Settle(p, sent) => Settled(q, p, sent)
      case End(p, now) =>
        Queue(map id | id in q.tracks && Kept(q.tracks[id].row, now) :: q.tracks[id], q.passes - {p})
      case Abandon(p) => Abandoned(q, p)
      case AckOf(id) => if id in q.tracks then WithRow(q, id, q.tracks[id].row.(status := Delivered)) else q
      case NakOf(id, next) => if id in q.tracks then WithRow(q, id, Nacked(q.tracks[id].row, next)) else q
      case HandoverOf(id, sent, next) =>
        if id !in q.tracks then q
        else if sent then WithRow(q, id, q.tracks[id].row.(status := Delivered))
        else WithRow(q, id, Rescheduled(q.tracks[id].row, next))
  }

  function Start(): Queue {
    Queue(map[], map[])
  }

  function Exec(ops: seq<Op>): Queue {
    if ops == [] then Start() else Do(Exec(ops[..|ops| - 1]), ops[|ops| - 1])
  }

  // ------------------------------------------------------------- invariant

  function AtMost(n: nat, limit: nat): nat {
    if n <= limit then n else limit
  }

  // How many transmissions the attempts of a row account for. A transmission
  // under way, or one that delivered, has not been counted as an attempt.
  function Cap(t: Track, engaged: bool): nat {
    if engaged || t.delivered then AtMost(t.row.attempts, 7) + 1 else AtMost(t.row.attempts, 8)
  }

  predicate TrackOk(t: Track, readers: nat, engaged: bool) {
    && t.fires + readers <= t.requeues + t.overlaps + t.lost + Cap(t, engaged)
    && (t.delivered ==> !t.row.status.Pending?)
  }

  predicate Accounted(q: Queue, id: MessageId)
    requires id in q.tracks
  {
    TrackOk(q.tracks[id], |Readers(q, id)|, Engaged(q, id))
  }

  ghost predicate QueueOk(q: Queue) {
    forall id :: id in q.tracks ==> Accounted(q, id)
  }

  // Steps that touch rows only.
  lemma SamePasses(q: Queue, q': Queue, id: MessageId)
    requires q'.passes == q.passes
    ensures Readers(q', id) == Readers(q, id) && Flyers(q', id) == Flyers(q, id)
  {
  }

  lemma EnqueueKeeps(q: Queue, op: Op, id: MessageId)
    requires QueueOk(q) && op.Enqueue? && id in Do(q, op).tracks
    ensures Accounted(Do(q, op), id)
  {
    SamePasses(q, Do(q, op), id);
    assert id in q.tracks ==> Accounted(q, id);
  }

  lemma RowKeeps(q: Queue, op: Op, id: MessageId)
    requires QueueOk(q) && (op.AckOf? || op.NakOf? || op.HandoverOf?) && id in Do(q, op).tracks
    ensures Accounted(Do(q, op), id)
  {
    SamePasses(q, Do(q, op), id);
    assert Accounted(q, id);
  }

  lemma BeginSets(q: Queue, p: PassId, now: int, id: MessageId)
    requires p !in q.passes && id in q.tracks
    ensures var row := q.tracks[id].row;
            var found := Retryable(row, now) && row.attempts < MAX_RETRY_ATTEMPTS;
            Readers(Begun(q, p, now), id) == Readers(q, id) + if found then {p} else {}
    ensures Flyers(Begun(q, p, now), id) == Flyers(q, id) && p !in Readers(q, id)
  {
  }

  lemma BeginKeeps(q: Queue, p: PassId, now: int, id: MessageId)
    requires QueueOk(q) && p !in q.passes && id in q.tracks
    ensures Accounted(Begun(q, p, now), id)
  {
    BeginSets(q, p, now, id);
    assert Accounted(q, id);
    hide Readers, Flyers, Retryable, QueueOk;
  }

  lemma FireSets(q: Queue, p: PassId, id: MessageId, other: MessageId)
    requires Possible(q, Fire(p, id))
    ensures var q' := Taken(q, p, id);
            if other == id && q.passes[p].due[id] < MAX_RETRY_ATTEMPTS then
              |Readers(q, id)| == |Readers(q', id)| + 1 && Engaged(q, id) && Engaged(q', id)
            else
              Readers(q', other) == Readers(q, other) && Engaged(q', other) == Engaged(q, other)
  {
    var q' := Taken(q, p, id);
    if other == id && q.passes[p].due[id] < MAX_RETRY_ATTEMPTS {
      assert Readers(q', id) == Readers(q, id) - {p} && p in Readers(q, id) && p in Flyers(q', id);
    } else {
      assert Flyers(q', other) == Flyers(q, other);
    }
  }

  lemma SettleSets(q: Queue, p: PassId, sent: bool, other: MessageId)
    requires Possible(q, Settle(p, sent))
    ensures var q' := Settled(q, p, sent);
            && Readers(q', other) == Readers(q, other)
            && (if Flies(q.passes[p], other) then Engaged(q, other) else Engaged(q', other) == Engaged(q, other))
  {
    var q' := Settled(q, p, sent);
    assert Flies(q.passes[p], other) ==> p in Flyers(q, other);
    assert !Flies(q.passes[p], other) ==> Flyers(q', other) == Flyers(q, other);
  }

  // A transmission is taken out of the reads; giving up changes no count.
  lemma TakenOk(t: Track, readers: nat, attempts: nat, engaged: bool)
    requires attempts < MAX_RETRY_ATTEMPTS ==> TrackOk(t, readers + 1, true) && engaged
    requires attempts >= MAX_RETRY_ATTEMPTS ==> TrackOk(t, readers, engaged)
    ensures TrackOk(TakenRow(t, attempts), readers, engaged)
  {
  }

  // An attempt or a delivery makes up for one transmission.
  lemma SettledOk(t: Track, readers: nat, engaged: bool, sent: bool, next: int)
    requires TrackOk(t, readers, true) && (readers > 0 ==> engaged)
    ensures TrackOk(SettledRow(t, sent, next), readers, engaged)
  {
  }

  lemma FireKeeps(q: Queue, p: PassId, id: MessageId, other: MessageId)
    requires QueueOk(q) && Possible(q, Fire(p, id)) && other in q.tracks
    ensures other in Taken(q, p, id).tracks && Accounted(Taken(q, p, id), other)
  {
    FireSets(q, p, id, other);
    assert Accounted(q, other);
    hide Readers, Engaged, QueueOk, TrackOk, TakenRow;
    if other == id {
      TakenOk(q.tracks[id], |Readers(Taken(q, p, id), id)|, q.passes[p].due[id], Engaged(q, id));
    }
  }

  lemma SettleKeeps(q: Queue, p: PassId, sent: bool, other: MessageId)
    requires QueueOk(q) && Possible(q, Settle(p, sent)) && other in q.tracks
    ensures other in Settled(q, p, sent).tracks && Accounted(Settled(q, p, sent), other)
  {
    var q', f := Settled(q, p, sent), q.passes[p].flight.value;
    SettleSets(q, p, sent, other);
    assert Accounted(q, other);
    assert |Readers(q', other)| > 0 ==> Engaged(q', other);
    hide Readers, Engaged, QueueOk, TrackOk, SettledRow;
    if other == f.id {
      SettledOk(q.tracks[other], |Readers(q, other)|, Engaged(q', other), sent, q.passes[p].now + Backoff(f.attempts));
    }
  }

  lemma LeaveKeeps(q: Queue, p: PassId, other: MessageId)
    requires QueueOk(q) && p in q.passes && other in q.tracks
    ensures Accounted(Abandoned(q, p), other)
  {
    var q' := Abandoned(q, p);
    assert Accounted(q, other);
    assert Readers(q', other) == Readers(q, other) - {p};
    assert Flyers(q', other) == Flyers(q, other) - {p};
    assert !Flies(q.passes[p], other) ==> Flyers(q', other) == Flyers(q, other);
  }

  lemma StepKeeps(q: Queue, op: Op)
    requires QueueOk(q)
    ensures QueueOk(Do(q, op))
  {
    hide Accounted, Readers, Flyers, Engaged;
    var q' := Do(q, op);
    forall id | id in q'.tracks && Possible(q, op) ensures Accounted(q', id) {
      match op
      case Enqueue(_, _, _, _, _) => EnqueueKeeps(q, op, id);
      case Begin(p, now) => BeginKeeps(q, p, now, id);
      case Fire(p, i) => FireKeeps(q, p, i, id);
      case Settle(p, sent) => SettleKeeps(q, p, sent, id);
      case End(p, now) => EndKeeps(q, p, now, id);
      case Abandon(p) => LeaveKeeps(q, p, id);
      case _ => RowKeeps(q, op, id);
    }
  }

  lemma EndKeeps(q: Queue, p: PassId, now: int, id: MessageId)
    requires QueueOk(q) && Possible(q, End(p, now)) && id in Do(q, End(p, now)).tracks
    ensures Accounted(Do(q, End(p, now)), id)
  {
    LeaveKeeps(q, p, id);
    SamePasses(Abandoned(q, p), Do(q, End(p, now)), id);
  }

  lemma {:induction false} RunKeeps(ops: seq<Op>)
    ensures QueueOk(Exec(ops))
  {
    if ops != [] {
      RunKeeps(ops[..|ops| - 1]);
      StepKeeps(Exec(ops[..|ops| - 1]), ops[|ops| - 1]);
    }
  }

  // In every run, retry passes transmit a row at most eight times, and once more
  // for every time it was queued again right after a pass delivered it, was read
  // while another pass was going to transmit it, or was in transmission when its
  // pass ended.
  lemma RetryBound(ops: seq<Op>, id: MessageId)
    requires id in Exec(ops).tracks
    ensures var t := Exec(ops).tracks[id];
            t.fires <= MAX_RETRY_ATTEMPTS + t.requeues + t.overlaps + t.lost
  {
    RunKeeps(ops);
    assert Accounted(Exec(ops), id);
  }

  // ---------------------------------------- a whole pass is a run of steps

  // The steps of one pass itself.
  predicate OfPass(op: Op, p: PassId) {
    (op.Begin? || op.Fire? || op.Settle? || op.End?) && op.pass == p
  }

  function Play(q: Queue, ops: seq<Op>): Queue
    decreases |ops|
  {
    if ops == [] then q else Play(Do(q, ops[0]), ops[1..])
  }

  function Rows(q: Queue): Table {
    map id | id in q.tracks :: q.tracks[id].row
  }

  lemma PlayFirst(q: Queue, op: Op, rest: seq<Op>)
    ensures Play(q, [op] + rest) == Play(Do(q, op), rest)
  {
    assert ([op] + rest)[1..] == rest;
  }

  // The pass has come to all entries of `t` but those in `todo`.
  ghost predicate Underway(q: Queue, p: PassId, t: Table, now: int, sends: MessageId -> bool, todo: set<MessageId>) {
    && p in q.passes && q.passes[p].now == now && q.passes[p].flight.None?
    && todo <= t.Keys && q.tracks.Keys == t.Keys
    && q.passes[p].due == (map id | id in todo :: t[id].attempts)
    && (forall id :: id in todo ==> Retryable(t[id], now) && q.tracks[id].row == t[id])
    && (forall id :: id in t && id !in todo ==> q.tracks[id].row == RetriedOrNot(t[id], now, sends(id)))
  }

  // One entry: taken, and settled unless it was given up.
  lemma OneEntry(q: Queue, p: PassId, t: Table, now: int, sends: MessageId -> bool, todo: set<MessageId>, id: MessageId)
    requires Underway(q, p, t, now, sends, todo) && id in todo
    ensures Possible(q, Fire(p, id))
    ensures var q1 := Do(q, Fire(p, id));
            Underway(if q1.passes[p].flight.None? then q1 else Do(q1, Settle(p, sends(id))), p, t, now, sends, todo - {id})
  {
    hide Retryable, Backoff;
    var due := q.passes[p].due;
    assert due - {id} == map i | i in todo - {id} :: t[i].attempts;
  }

  lemma {:induction false} Entries(q: Queue, p: PassId, t: Table, now: int, sends: MessageId -> bool, todo: set<MessageId>)
    returns (ops: seq<Op>)
    requires Underway(q, p, t, now, sends, todo)
    ensures forall op :: op in ops ==> OfPass(op, p)
    ensures Rows(Play(q, ops)) == AfterRetry(t, now, sends)
    decreases todo
  {
    if todo == {} {
      ops := [End(p, now)];
      EndIsCleanUp(q, p, t, now, sends);
      PlayFirst(q, End(p, now), []);
      assert [End(p, now)] + [] == [End(p, now)];
    } else {
      var id :| id in todo;
      OneEntry(q, p, t, now, sends, todo, id);
      hide Underway, Do, AfterRetry, Rows;
      var q1 := Do(q, Fire(p, id));
      if q1.passes[p].flight.None? {
        var rest := Entries(q1, p, t, now, sends, todo - {id});
        PlayFirst(q, Fire(p, id), rest);
        ops := [Fire(p, id)] + rest;
      } else {
        var rest := Entries(Do(q1, Settle(p, sends(id))), p, t, now, sends, todo - {id});
        PlayFirst(q1, Settle(p, sends(id)), rest);
        PlayFirst(q, Fire(p, id), [Settle(p, sends(id))] + rest);
        ops := [Fire(p, id)] + ([Settle(p, sends(id))] + rest);
      }
    }
  }

  lemma EndIsCleanUp(q: Queue, p: PassId, t: Table, now: int, sends: MessageId -> bool)
    requires Underway(q, p, t, now, sends, {})
    ensures Possible(q, End(p, now)) && p !in Do(q, End(p, now)).passes
    ensures Rows(Do(q, End(p, now))) == AfterRetry(t, now, sends)
  {
    assert q.passes[p].due == map[];
  }

  // A pass that nothing interrupts is a run of the steps above and leaves the
  // table that the retry method leaves.
  lemma PassIsRetry(q: Queue, p: PassId, now: int, sends: MessageId -> bool) returns (ops: seq<Op>)
    requires p !in q.passes
    ensures forall op :: op in ops ==> OfPass(op, p)
    ensures Rows(Play(q, ops)) == AfterRetry(Rows(q), now, sends)
  {
    var t := Rows(q);
    var todo := set id | id in t && Retryable(t[id], now);
    var q1 := Do(q, Begin(p, now));
    assert Underway(q1, p, t, now, sends, todo) by {
      hide Readers, Engaged;
      assert q1.passes[p].due == map id | id in todo :: t[id].attempts;
    }
    var rest := Entries(q1, p, t, now, sends, todo);
    PlayFirst(q, Begin(p, now), rest);
    ops := [Begin(p, now)] + rest;
  }

  // ------------------------------------ a whole handover is a run of steps

  // The steps of a handover: one for every row, with what became of it.
  function HandoverSteps(t: Table, handed: seq<MessageId>, now: int, sends: MessageId -> bool): (ops: seq<Op>)
    requires forall id :: id in handed ==> id in t
    ensures |ops| == |handed|
  {
    seq(|handed|, i requires 0 <= i < |handed| =>
      HandoverOf(handed[i], sends(handed[i]), now + Backoff(t[handed[i]].attempts)))
  }

  lemma OneHandover(q: Queue, id: MessageId, now: int, sent: bool)
    requires id in q.tracks
    ensures var q' := Do(q, HandoverOf(id, sent, now + Backoff(q.tracks[id].row.attempts)));
            && q'.passes == q.passes && Rows(q') == Rows(q)[id := HandedRow(q.tracks[id].row, now, sent)]
  {
    hide Backoff;
  }

  lemma FirstOfHandover(t: Table, handed: seq<MessageId>, now: int, sends: MessageId -> bool, row: Row)
    requires handed != [] && handed[0] !in handed[1..] && forall id :: id in handed ==> id in t
    requires row == HandedRow(t[handed[0]], now, sends(handed[0]))
    ensures var id, t1 := handed[0], t[handed[0] := row];
            && AfterHandover(t1, handed[1..], now, sends) == AfterHandover(t, handed, now, sends)
            && HandoverSteps(t, handed, now, sends)
            == [HandoverOf(id, sends(id), now + Backoff(t[id].attempts))] + HandoverSteps(t1, handed[1..], now, sends)
  {
    hide HandedRow, Backoff;
  }

  // A handover that nothing interrupts is a run of the steps above and leaves the
  // table that the handover method leaves.
  lemma {:induction false} HandoverIsRun(q: Queue, handed: seq<MessageId>, now: int, sends: MessageId -> bool)
    requires forall i, j :: 0 <= i < j < |handed| ==> handed[i] != handed[j]
    requires forall id :: id in handed ==> id in Rows(q)
    ensures var q' := Play(q, HandoverSteps(Rows(q), handed, now, sends));
            Rows(q') == AfterHandover(Rows(q), handed, now, sends) && q'.passes == q.passes
    decreases |handed|
  {
    hide Do, HandedRow, Backoff, AfterHandover, HandoverSteps;
    if handed == [] {
      NothingHanded(Rows(q), now, sends);
    } else {
      var id, rest := handed[0], handed[1..];
      var op := HandoverOf(id, sends(id), now + Backoff(Rows(q)[id].attempts));
      var q1 := Do(q, op);
      OneHandover(q, id, now, sends(id));
      FirstOfHandover(Rows(q), handed, now, sends, HandedRow(Rows(q)[id], now, sends(id)));
      hide Rows, Play;
      HandoverIsRun(q1, rest, now, sends);
      PlayFirst(q, op, HandoverSteps(Rows(q1), rest, now, sends));
    }
  }

  lemma NothingHanded(t: Table, now: int, sends: MessageId -> bool)
    ensures HandoverSteps(t, [], now, sends) == [] && AfterHandover(t, [], now, sends) == t
  {
  }

  // ------------------------------------------------------------- policies

  // What may happen in a class of runs: queueing a row again that a pass has
  // delivered and not yet removed, beginning a pass while another is under way,
  // ending a pass in the middle of a transmission.
  datatype Policy = Policy(requeue: bool, overlap: bool, abandon: bool)

  predicate Permitted(policy: Policy, q: Queue, op: Op) {
    match op
    case Enqueue(id, _, _, _, _) => policy.requeue || id !in q.tracks || !q.tracks[id].delivered
    case Begin(_, _) => policy.overlap || q.passes == map[]
    case Abandon(p) => policy.abandon || p !in q.passes || q.passes[p].flight.None?
    case _ => true
  }

  predicate Within(policy: Policy, ops: seq<Op>) {
    ops == [] ||
    (Within(policy, ops[..|ops| - 1]) && Permitted(policy, Exec(ops[..|ops| - 1]), ops[|ops| - 1]))
  }

  ghost predicate Exempt(policy: Policy, q: Queue) {
    && (!policy.overlap ==> |q.passes.Keys| <= 1)
    && forall id :: id in q.tracks ==>
      && (!policy.requeue ==> q.tracks[id].requeues == 0)
      && (!policy.overlap ==> q.tracks[id].overlaps == 0)
      && (!policy.abandon ==> q.tracks[id].lost == 0)
  }

  lemma FewReaders(q: Queue, id: MessageId)
    ensures |Readers(q, id)| <= |q.passes.Keys|
    ensures q.passes == map[] ==> !Engaged(q, id)
  {
    SubsetSize(Readers(q, id), q.passes.Keys);
  }

  lemma {:induction false} SubsetSize(a: set<PassId>, b: set<PassId>)
    requires a <= b
    ensures |a| <= |b|
  {
    if a != {} {
      var x :| x in a;
      SubsetSize(a - {x}, b - {x});
    }
  }

  lemma PassesStayFew(policy: Policy, q: Queue, op: Op)
    requires (!policy.overlap ==> |q.passes.Keys| <= 1) && Permitted(policy, q, op)
    ensures !policy.overlap ==> |Do(q, op).passes.Keys| <= 1
  {
    hide Retryable, Kept, Engaged, Readers, Flyers;
    var keys := Do(q, op).passes.Keys;
    if op.Begin? && Possible(q, op) {
      assert q.passes == map[] ==> keys == {op.pass};
    } else {
      assert keys <= q.passes.Keys;
      SubsetSize(keys, q.passes.Keys);
    }
  }

  lemma CountsStay(policy: Policy, q: Queue, op: Op, id: MessageId)
    requires Exempt(policy, q) && Permitted(policy, q, op) && id in Do(q, op).tracks
    ensures var t := Do(q, op).tracks[id];
            && (!policy.requeue ==> t.requeues == 0)
            && (!policy.overlap ==> t.overlaps == 0)
            && (!policy.abandon ==> t.lost == 0)
  {
    FewReaders(q, id);
    hide Readers, Engaged, Retryable, Kept;
  }

  lemma StepExempt(policy: Policy, q: Queue, op: Op)
    requires Exempt(policy, q) && Permitted(policy, q, op)
    ensures Exempt(policy, Do(q, op))
  {
    PassesStayFew(policy, q, op);
    hide Do, Permitted;
    forall id | id in Do(q, op).tracks {
      CountsStay(policy, q, op, id);
    }
  }

  lemma {:induction false} RunExempt(policy: Policy, ops: seq<Op>)
    requires Within(policy, ops)
    ensures Exempt(policy, Exec(ops))
  {
    if ops != [] {
      RunExempt(policy, ops[..|ops| - 1]);
      StepExempt(policy, Exec(ops[..|ops| - 1]), ops[|ops| - 1]);
    }
  }

  ghost predicate EightHolds(policy: Policy) {
    forall ops: seq<Op>, id: MessageId :: Within(policy, ops) && id in Exec(ops).tracks ==>
      Exec(ops).tracks[id].fires <= MAX_RETRY_ATTEMPTS
  }

  // When passes run one at a time, end no transmission early, and nobody queues
  // a row that was just delivered, eight is the limit, whatever NAKs, ACKs,
  // handovers and other re-queues happen inside and between the passes.
  lemma EightTransmissions(ops: seq<Op>, id: MessageId)
    requires Within(Policy(false, false, false), ops) && id in Exec(ops).tracks
    ensures Exec(ops).tracks[id].fires <= MAX_RETRY_ATTEMPTS
  {
    RetryBound(ops, id);
    RunExempt(Policy(false, false, false), ops);
  }

  // Eight is the limit in all runs of a class exactly when the class permits none
  // of the three.
  lemma EightHoldsIff(policy: Policy)
    ensures EightHolds(policy) <==> !policy.requeue && !policy.overlap && !policy.abandon
  {
    if !policy.requeue && !policy.overlap && !policy.abandon {
      forall ops: seq<Op>, id: MessageId | Within(policy, ops) && id in Exec(ops).tracks
        ensures Exec(ops).tracks[id].fires <= MAX_RETRY_ATTEMPTS
      {
        EightTransmissions(ops, id);
      }
    } else {
      var ops := BoundIsReached(policy, "", OneIf(policy.requeue), OneIf(policy.overlap), OneIf(policy.abandon));
      assert Exec(ops).tracks[""].fires > MAX_RETRY_ATTEMPTS;
    }
  }

  // --------------------------------------------------- the bound is reached

  lemma Extend(policy: Policy, ops: seq<Op>, op: Op)
    requires Within(policy, ops) && Permitted(policy, Exec(ops), op)
    ensures Within(policy, ops + [op]) && Exec(ops + [op]) == Do(Exec(ops), op)
  {
    assert (ops + [op])[..|ops|] == ops;
  }

  function At(k: nat): int {
    100_000 * (k + 1)
  }

  const DEADLINE := 100_000_000

  // The only row, due and with no pass under way.
  predicate Waiting(t: Track, fires: nat, attempts: nat, requeues: nat, lost: nat) {
    && t.fires == fires && t.row.attempts == attempts && !t.delivered
    && t.requeues == requeues && t.overlaps == 0 && t.lost == lost
    && t.row.status.Pending? && t.row.nextRetryAt <= At(attempts) && t.row.deadlineAt == DEADLINE
  }

  ghost predicate Alone(q: Queue, id: MessageId, fires: nat, attempts: nat, requeues: nat, lost: nat) {
    && q.passes == map[] && q.tracks.Keys == {id}
    && Waiting(q.tracks[id], fires, attempts, requeues, lost)
  }

  // A pass begins and transmits the only row.
  lemma OneFire(q: Queue, id: MessageId, fires: nat, attempts: nat, requeues: nat, lost: nat)
    requires Alone(q, id, fires, attempts, requeues, lost) && attempts <= 7
    ensures var now := At(attempts);
            var q' := Do(Do(q, Begin(0, now)), Fire(0, id));
            && q'.passes == map[0 := Pass(now, map[], Some(Flight(id, attempts)))]
            && q'.tracks.Keys == {id} && q'.tracks[id] == q.tracks[id].(fires := fires + 1)
  {
    FewReaders(q, id);
    hide Readers, Engaged;
    var now := At(attempts);
    assert Begun(q, 0, now).passes[0].due == map[id := attempts];
    assert map[id := attempts] - {id} == map[];
  }

  // The row fails in one pass.
  lemma FailOnce(policy: Policy, ops: seq<Op>, id: MessageId, k: nat) returns (more: seq<Op>)
    requires Within(policy, ops) && Alone(Exec(ops), id, k, k, 0, 0) && k < 7
    ensures Within(policy, more) && Alone(Exec(more), id, k + 1, k + 1, 0, 0)
  {
    var now := At(k);
    more := Transmit(policy, ops, id, k, k, 0, 0);
    Extend(policy, more, Settle(0, false));
    more := more + [Settle(0, false)];
    Extend(policy, more, End(0, now));
    more := more + [End(0, now)];
  }

  lemma Transmit(policy: Policy, ops: seq<Op>, id: MessageId, fires: nat, attempts: nat, requeues: nat, lost: nat)
    returns (more: seq<Op>)
    requires Within(policy, ops) && Alone(Exec(ops), id, fires, attempts, requeues, lost) && attempts <= 7
    ensures Within(policy, more)
    ensures Exec(more).passes == map[0 := Pass(At(attempts), map[], Some(Flight(id, attempts)))]
    ensures Exec(more).tracks.Keys == {id} && Exec(more).tracks[id] == Exec(ops).tracks[id].(fires := fires + 1)
  {
    var q, now := Exec(ops), At(attempts);
    OneFire(q, id, fires, attempts, requeues, lost);
    Extend(policy, ops, Begin(0, now));
    Extend(policy, ops + [Begin(0, now)], Fire(0, id));
    more := ops + [Begin(0, now)] + [Fire(0, id)];
  }

  lemma {:induction false} FailTimes(policy: Policy, id: MessageId, k: nat) returns (ops: seq<Op>)
    requires k <= 7
    ensures Within(policy, ops) && Alone(Exec(ops), id, k, k, 0, 0)
  {
    if k == 0 {
      Extend(policy, [], Enqueue(id, "", "", 0, DEADLINE));
      FewReaders(Start(), id);
      ops := [] + [Enqueue(id, "", "", 0, DEADLINE)];
    } else {
      ops := FailTimes(policy, id, k - 1);
      ops := FailOnce(policy, ops, id, k - 1);
    }
  }

  // A pass delivers the row, which is queued again before the pass ends.
  lemma ReviveOnce(policy: Policy, ops: seq<Op>, id: MessageId, n: nat) returns (more: seq<Op>)
    requires policy.requeue && Within(policy, ops) && Alone(Exec(ops), id, 7 + n, 7, n, 0)
    ensures Within(policy, more) && Alone(Exec(more), id, 8 + n, 7, n + 1, 0)
  {
    more := Transmit(policy, ops, id, 7 + n, 7, n, 0);
    Extend(policy, more, Settle(0, true));
    more := more + [Settle(0, true)];
    Extend(policy, more, Enqueue(id, "", "", 0, DEADLINE));
    more := more + [Enqueue(id, "", "", 0, DEADLINE)];
    Extend(policy, more, End(0, At(7)));
    more := more + [End(0, At(7))];
  }

  lemma {:induction false} ReviveTimes(policy: Policy, id: MessageId, n: nat) returns (ops: seq<Op>)
    requires n > 0 ==> policy.requeue
    ensures Within(policy, ops) && Alone(Exec(ops), id, 7 + n, 7, n, 0)
  {
    if n == 0 {
      ops := FailTimes(policy, id, 7);
    } else {
      ops := ReviveTimes(policy, id, n - 1);
      ops := ReviveOnce(policy, ops, id, n - 1);
    }
  }

  // A pass ends in the middle of the transmission.
  lemma {:induction false} LoseTimes(policy: Policy, id: MessageId, n: nat, lost: nat) returns (ops: seq<Op>)
    requires (n > 0 ==> policy.requeue) && (lost > 0 ==> policy.abandon)
    ensures Within(policy, ops) && Alone(Exec(ops), id, 7 + n + lost, 7, n, lost)
    decreases lost
  {
    if lost == 0 {
      ops := ReviveTimes(policy, id, n);
    } else {
      ops := LoseTimes(policy, id, n, lost - 1);
      ops := Transmit(policy, ops, id, 6 + n + lost, 7, n, lost - 1);
      assert Exec(ops).passes - {0} == map[];
      Extend(policy, ops, Abandon(0));
      ops := ops + [Abandon(0)];
    }
  }

  function CrowdPass(id: MessageId, flying: bool): Pass {
    if flying then Pass(At(7), map[], Some(Flight(id, 7))) else Pass(At(7), map[id := 7], None)
  }

  // Passes 0 to k - 1 have read the only row, the first m of them transmit it.
  ghost predicate Crowded(q: Queue, id: MessageId, fires: nat, k: nat, m: nat, requeues: nat, lost: nat) {
    && m <= k && (forall p: PassId :: p in q.passes <==> p < k)
    && (forall p: PassId :: p < k ==> q.passes[p] == CrowdPass(id, p < m))
    && q.tracks.Keys == {id}
    && var t := q.tracks[id];
       t.overlaps == (if k == 0 then 0 else k - 1)
       && Waiting(t.(overlaps := 0), fires + m, 7, requeues, lost)
  }

  lemma OneMoreReader(q: Queue, id: MessageId, fires: nat, k: nat, requeues: nat, lost: nat)
    requires Crowded(q, id, fires, k, 0, requeues, lost)
    ensures Crowded(Do(q, Begin(k, At(7))), id, fires, k + 1, 0, requeues, lost)
  {
    var q' := Do(q, Begin(k, At(7)));
    FewReaders(q, id);
    assert k > 0 ==> 0 in Readers(q, id);
    assert k == 0 ==> q.passes == map[];
    hide Readers, Engaged;
    assert q'.passes[k].due == map[id := 7];
  }

  lemma OneMoreFlight(q: Queue, id: MessageId, fires: nat, k: nat, m: nat, requeues: nat, lost: nat)
    requires Crowded(q, id, fires, k, m, requeues, lost) && m < k
    ensures Crowded(Do(q, Fire(m, id)), id, fires, k, m + 1, requeues, lost)
  {
    assert map[id := 7] - {id} == map[];
  }

  lemma {:induction false} ReadTimes(
      policy: Policy, before: seq<Op>, id: MessageId, fires: nat, k: nat, requeues: nat, lost: nat)
    returns (ops: seq<Op>)
    requires Within(policy, before) && Alone(Exec(before), id, fires, 7, requeues, lost) && (k > 1 ==> policy.overlap)
    ensures Within(policy, ops) && Crowded(Exec(ops), id, fires, k, 0, requeues, lost)
  {
    if k == 0 {
      ops := before;
    } else {
      ops := ReadTimes(policy, before, id, fires, k - 1, requeues, lost);
      OneMoreReader(Exec(ops), id, fires, k - 1, requeues, lost);
      assert k == 1 ==> Exec(ops).passes == map[];
      Extend(policy, ops, Begin(k - 1, At(7)));
      ops := ops + [Begin(k - 1, At(7))];
    }
  }

  lemma {:induction false} FlyTimes(
      policy: Policy, before: seq<Op>, id: MessageId, fires: nat, k: nat, m: nat, requeues: nat, lost: nat)
    returns (ops: seq<Op>)
    requires Within(policy, before) && Crowded(Exec(before), id, fires, k, 0, requeues, lost) && m <= k
    ensures Within(policy, ops) && Crowded(Exec(ops), id, fires, k, m, requeues, lost)
    decreases m
  {
    hide Crowded, Do, Exec, Within;
    if m == 0 {
      ops := before;
    } else {
      ops := FlyTimes(policy, before, id, fires, k, m - 1, requeues, lost);
      OneMoreFlight(Exec(ops), id, fires, k, m - 1, requeues, lost);
      Extend(policy, ops, Fire(m - 1, id));
      ops := ops + [Fire(m - 1, id)];
    }
  }

  // For all numbers of re-queues, overlaps and lost transmissions there is a run
  // with just these that reaches the bound, and that permits no other of the
  // three; each of them alone therefore breaks the plain limit of eight.
  lemma BoundIsReached(policy: Policy, id: MessageId, requeues: nat, overlaps: nat, lost: nat) returns (ops: seq<Op>)
    requires requeues > 0 ==> policy.requeue
    requires overlaps > 0 ==> policy.overlap
    requires lost > 0 ==> policy.abandon
    ensures Within(policy, ops) && id in Exec(ops).tracks
    ensures var t := Exec(ops).tracks[id];
            && t.requeues == requeues && t.overlaps == overlaps && t.lost == lost
            && t.fires == MAX_RETRY_ATTEMPTS + requeues + overlaps + lost
  {
    var fires := 7 + requeues + lost;
    ops := LoseTimes(policy, id, requeues, lost);
    ops := ReadTimes(policy, ops, id, fires, overlaps + 1, requeues, lost);
    ops := FlyTimes(policy, ops, id, fires, overlaps + 1, overlaps + 1, requeues, lost);
  }
}
