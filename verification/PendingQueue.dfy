/**
 * The table of pending messages and the methods of the router that drive it:
 * queueing, the retry pass, handover to a reconnected peer, ACK and NAK.
 */
module PendingQueue {
  import opened Messages
  import Modular

  const MAX_RETRY_ATTEMPTS := 8
  const RETRY_BASE_DELAY_MS := 1_000
  const RETRY_MAX_DELAY_MS := 60_000
  const HANDOVER_LIMIT := 20

  datatype Status = Pending | Delivered | Failed

  datatype Row = Row(
    target: PeerId, data: string, status: Status, attempts: nat, nextRetryAt: int, createdAt: int, deadlineAt: int)

  type Table = map<MessageId, Row>

  // ------------------------------------------------ the update statements

  function NewRow(target: PeerId, data: string, now: int, deadline: int): Row {
    Row(target, data, Pending, 0, now, now, deadline)
  }

  // Queueing an id again keeps its attempts and its next retry.
  function Requeued(row: Row, target: PeerId, data: string, deadline: int): Row {
    row.(target := target, data := data, status := Pending, deadlineAt := deadline)
  }

  function Queue(t: Table, id: MessageId, target: PeerId, data: string, now: int, deadline: int): Table {
    t[id := if id in t then Requeued(t[id], target, data, deadline) else NewRow(target, data, now, deadline)]
  }

  function Rescheduled(row: Row, next: int): Row {
    row.(status := Pending, attempts := row.attempts + 1, nextRetryAt := next)
  }

  // incrementAttempts and scheduleRetry both count an attempt.
  function Nacked(row: Row, next: int): Row {
    row.(attempts := row.attempts + 2, nextRetryAt := next)
  }

  // An update of no row changes nothing.
  function Update(t: Table, id: MessageId, row: Row): Table {
    if id in t then t[id := row] else t
  }

  predicate Retryable(row: Row, now: int) {
    row.status.Pending? && row.nextRetryAt <= now && row.deadlineAt > now
  }

  predicate Kept(row: Row, now: int) {
    row.deadlineAt > now && row.status.Pending?
  }

  function Cleaned(t: Table, now: int): Table {
    map id | id in t && Kept(t[id], now) :: t[id]
  }

  function Backoff(attempts: nat): (delay: nat)
    ensures RETRY_BASE_DELAY_MS <= delay <= RETRY_MAX_DELAY_MS
  {
    var delay := RETRY_BASE_DELAY_MS * Modular.Power2(attempts);
    if delay <= RETRY_MAX_DELAY_MS then delay else RETRY_MAX_DELAY_MS
  }

  // ------------------------------------------------------- the retry pass

  // One entry of the pass; `attempts` is what the pass read when it began.
  function Retried(row: Row, attempts: nat, now: int, sent: bool): Row {
    if attempts >= MAX_RETRY_ATTEMPTS then row.(status := Failed)
    else if sent then row.(status := Delivered)
    else Rescheduled(row, now + Backoff(attempts))
  }

  function RetriedOrNot(row: Row, now: int, sent: bool): Row {
    if Retryable(row, now) then Retried(row, row.attempts, now, sent) else row
  }

  // The whole pass: every row on its own, in whatever order.
  function AfterRetry(t: Table, now: int, sends: MessageId -> bool): Table {
    Cleaned(map id | id in t :: RetriedOrNot(t[id], now, sends(id)), now)
  }

  // After a pass every row left is pending and has its deadline and its next
  // attempt ahead; the rows that left are exactly those that were delivered,
  // given up or out of time.
  lemma RetryLeavesTheFuture(t: Table, now: int, sends: MessageId -> bool)
    ensures forall id :: id in AfterRetry(t, now, sends) ==>
      var row := AfterRetry(t, now, sends)[id];
      row.status.Pending? && row.deadlineAt > now && row.nextRetryAt > now
    ensures forall id :: id in t ==>
      (id in AfterRetry(t, now, sends) <==>
        && t[id].status.Pending? && t[id].deadlineAt > now
        && (t[id].nextRetryAt > now || (t[id].attempts < MAX_RETRY_ATTEMPTS && !sends(id))))
  {
  }

  // What the delay comes to: a second at first, twice as long after every attempt,
  // and a minute at most.
  lemma BackoffDoubles(attempts: nat)
    ensures Backoff(0) == 1000
    ensures Backoff(attempts + 1) == if 2 * Backoff(attempts) <= 60_000 then 2 * Backoff(attempts) else 60_000
  {
    assert Modular.Power2(0) == 1;
    assert Modular.Power2(attempts + 1) == 2 * Modular.Power2(attempts);
  }

  // What a pass does to each row that it leaves: a due one has failed once more and
  // waits for its backoff, any other is as before.
  lemma RetriedRows(t: Table, now: int, sends: MessageId -> bool, id: MessageId)
    requires id in AfterRetry(t, now, sends)
    ensures id in t
    ensures var before, after := t[id], AfterRetry(t, now, sends)[id];
            if before.nextRetryAt <= now then
              && after.attempts == before.attempts + 1 <= 8
              && after.nextRetryAt == now + Backoff(before.attempts)
              && after == before.(attempts := after.attempts, nextRetryAt := after.nextRetryAt)
            else
              after == before
  {
  }

  // Queueing makes the id pending with the new target, data and deadline. A new row
  // is due at once; a row that is there already keeps its attempts, its next retry
  // and its age. No other row changes.
  lemma QueuedRow(t: Table, id: MessageId, target: PeerId, data: string, now: int, deadline: int)
    ensures var t' := Queue(t, id, target, data, now, deadline);
            && id in t' && t'[id].status.Pending?
            && t'[id].target == target && t'[id].data == data && t'[id].deadlineAt == deadline
            && (id in t ==>
                  t'[id].attempts == t[id].attempts && t'[id].nextRetryAt == t[id].nextRetryAt &&
                  t'[id].createdAt == t[id].createdAt)
            && (id !in t ==> t'[id].attempts == 0 && t'[id].nextRetryAt == now && t'[id].createdAt == now)
            && forall other :: other != id ==> (other in t' <==> other in t) && (other in t ==> t'[other] == t[other])
  {
  }

  // What a NAK leaves of a row.
  function NakRow(row: Row, now: int): Row {
    Nacked(row, now + Backoff(row.attempts + 1))
  }

  // A NAK counts twice, waits for two seconds at least, and changes nothing else.
  lemma NakCountsTwice(row: Row, now: int)
    ensures var row' := NakRow(row, now);
            && row'.attempts == row.attempts + 2 && now + 2000 <= row'.nextRetryAt <= now + 60_000
            && row' == row.(attempts := row'.attempts, nextRetryAt := row'.nextRetryAt)
  {
    BackoffDoubles(row.attempts);
  }

  // So four NAKs use up all attempts: the next pass that finds the row due drops it
  // without another transmission, whatever `sends` would say.
  lemma FourNaks(t: Table, id: MessageId, times: seq<int>, now: int, sends: MessageId -> bool)
    requires id in t && |times| == 4
    ensures var row := NakRow(NakRow(NakRow(NakRow(t[id], times[0]), times[1]), times[2]), times[3]);
            row.attempts >= 8 && (row.nextRetryAt <= now ==> id !in AfterRetry(t[id := row], now, sends))
  {
  }

  // --------------------------------------------------------------- handover

  predicate Waits(row: Row, peer: PeerId, now: int) {
    row.status.Pending? && row.target == peer && row.deadlineAt > now
  }

  function HandedRow(row: Row, now: int, sent: bool): Row {
    if sent then row.(status := Delivered) else Rescheduled(row, now + Backoff(row.attempts))
  }

  function AfterHandover(t: Table, handed: seq<MessageId>, now: int, sends: MessageId -> bool): Table {
    map id | id in t :: if id in handed then HandedRow(t[id], now, sends(id)) else t[id]
  }

  // Every row handed over is delivered if it was sent, and otherwise pending with
  // one more attempt and a later retry; nothing else of it changes, and no other
  // row does.
  lemma HandoverRows(t: Table, handed: seq<MessageId>, now: int, sends: MessageId -> bool, id: MessageId)
    requires id in t
    ensures id in AfterHandover(t, handed, now, sends)
    ensures var before, after := t[id], AfterHandover(t, handed, now, sends)[id];
            && (id !in handed ==> after == before)
            && after.target == before.target && after.data == before.data
            && after.createdAt == before.createdAt && after.deadlineAt == before.deadlineAt
            && (id in handed && sends(id) ==>
                  after.status.Delivered? && after.attempts == before.attempts && after.nextRetryAt == before.nextRetryAt)
            && (id in handed && !sends(id) ==>
                  after.status.Pending? && after.attempts == before.attempts + 1 &&
                  now + 1000 <= after.nextRetryAt == now + Backoff(before.attempts) <= now + 60_000)
  {
  }

  // A clean-up at the time of the handover drops a row handed over if and only if
  // it was sent, and a later one if besides its deadline has passed.
  lemma OnlySentAreDropped(
      t: Table, peer: PeerId, handed: seq<MessageId>, now: int, sends: MessageId -> bool, later: int, id: MessageId)
    requires id in t && id in handed && Waits(t[id], peer, now) && now <= later
    ensures id !in Cleaned(AfterHandover(t, handed, now, sends), now) <==> sends(id)
    ensures id !in Cleaned(AfterHandover(t, handed, now, sends), later) <==> sends(id) || t[id].deadlineAt <= later
  {
  }

  // -------------------------------------------------------------- methods

  // Ids in increasing order of a key, as ORDER BY lists them.
  method OrderBy(keys: map<MessageId, int>) returns (ids: seq<MessageId>)
    ensures forall id :: id in ids <==> id in keys
    ensures forall i, j :: 0 <= i < j < |ids| ==> ids[i] != ids[j]
    ensures forall i, j :: 0 <= i < j < |ids| ==> keys[ids[i]] <= keys[ids[j]]
  {
    ids := [];
    var todo := keys.Keys;
    while todo != {}
      invariant todo <= keys.Keys
      invariant forall id :: id in ids <==> id in keys && id !in todo
      invariant forall i, j :: 0 <= i < j < |ids| ==> ids[i] != ids[j]
      invariant forall i, j :: 0 <= i < j < |ids| ==> keys[ids[i]] <= keys[ids[j]]
      invariant forall i, id :: 0 <= i < |ids| && id in todo ==> keys[ids[i]] <= keys[id]
      decreases |todo|
    {
      var first := LeastKey(keys, todo);
      todo := todo - {first};
      ids := ids + [first];
    }
  }

  method LeastKey(keys: map<MessageId, int>, among: set<MessageId>) returns (least: MessageId)
    requires among != {} && among <= keys.Keys
    ensures least in among && forall id :: id in among ==> keys[least] <= keys[id]
  {
    least :| least in among;
    var todo := among - {least};
    while todo != {}
      invariant todo <= among && least in among
      invariant forall id :: id in among && id !in todo ==> keys[least] <= keys[id]
      decreases |todo|
    {
      var id :| id in todo;
      todo := todo - {id};
      if keys[id] < keys[least] {
        least := id;
      }
    }
  }

  class PendingTable {
    var rows: Table

    constructor ()
      ensures rows == map[]
    {
      rows := map[];
    }

    method QueueMessage(id: MessageId, target: PeerId, data: string, now: int, deadline: int)
      modifies this
      ensures rows == Queue(old(rows), id, target, data, now, deadline)
    {
      if id in rows {
        rows := rows[id := rows[id].(target := target, data := data, status := Pending, deadlineAt := deadline)];
      } else {
        rows := rows[id := Row(target, data, Pending, 0, now, now, deadline)];
      }
    }

    method SetStatus(id: MessageId, status: Status)
      modifies this
      ensures rows == if id in old(rows) then old(rows)[id := old(rows)[id].(status := status)] else old(rows)
    {
      if id in rows {
        rows := rows[id := rows[id].(status := status)];
      }
    }

    method SchedulePendingRetry(id: MessageId, next: int)
      modifies this
      ensures rows == if id in old(rows) then old(rows)[id := Rescheduled(old(rows)[id], next)] else old(rows)
    {
      if id in rows {
        rows := rows[id := rows[id].(status := Pending, attempts := rows[id].attempts + 1, nextRetryAt := next)];
      }
    }

    method HandleNak(id: MessageId, now: int)
      modifies this
      ensures rows == if id in old(rows) then old(rows)[id := NakRow(old(rows)[id], now)] else old(rows)
    {
      if id !in rows {
        return;
      }
      var delay := Backoff(rows[id].attempts + 1);
      rows := rows[id := rows[id].(attempts := rows[id].attempts + 1)];
      rows := rows[id := rows[id].(attempts := rows[id].attempts + 1, nextRetryAt := now + delay)];
    }

    method DeleteExpired(now: int)
      modifies this
      ensures rows == Cleaned(old(rows), now)
    {
      rows := map id | id in rows && !(rows[id].deadlineAt <= now || rows[id].status in {Delivered, Failed}) :: rows[id];
    }

    method GetRetryable(now: int) returns (ids: seq<MessageId>)
      ensures forall id :: id in ids <==> id in rows && Retryable(rows[id], now)
      ensures forall i, j :: 0 <= i < j < |ids| ==> ids[i] != ids[j]
      ensures forall i, j :: 0 <= i < j < |ids| ==>
        ids[i] in rows && ids[j] in rows && rows[ids[i]].nextRetryAt <= rows[ids[j]].nextRetryAt
    {
      ids := OrderBy(map id | id in rows && Retryable(rows[id], now) :: rows[id].nextRetryAt);
    }

    method Retry(now: int, sends: MessageId -> bool)
      modifies this
      ensures rows == AfterRetry(old(rows), now, sends)
    {
      var entries := GetRetryable(now);
      ghost var t := rows;
      for i := 0 to |entries|
        invariant rows.Keys == t.Keys
        invariant forall id :: id in t ==>
          rows[id] == if id in entries[..i] then RetriedOrNot(t[id], now, sends(id)) else t[id]
      {
        var id := entries[i];
        assert id !in entries[..i] && id in entries && entries[..i + 1] == entries[..i] + [id];
        var attempts := rows[id].attempts;
        if attempts >= MAX_RETRY_ATTEMPTS {
          SetStatus(id, Failed);
          continue;
        }
        var delay := Backoff(attempts);
        if sends(id) {
          SetStatus(id, Delivered);
        } else {
          SchedulePendingRetry(id, now + delay);
        }
      }
      assert entries[..|entries|] == entries;
      assert rows == map id | id in t :: RetriedOrNot(t[id], now, sends(id));
      DeleteExpired(now);
    }

    // The oldest twenty of the peer's waiting rows, or all when there are fewer.
    method GetPendingForPeer(peer: PeerId, now: int) returns (ids: seq<MessageId>)
      ensures |ids| <= 20
      ensures forall i, j :: 0 <= i < j < |ids| ==> ids[i] != ids[j]
      ensures forall id :: id in ids ==>
        id in rows && rows[id].status.Pending? && rows[id].target == peer && rows[id].deadlineAt > now
      ensures forall id :: id in rows && Waits(rows[id], peer, now) && id !in ids ==>
        |ids| == 20 && forall i :: 0 <= i < |ids| ==> ids[i] in rows && rows[ids[i]].createdAt <= rows[id].createdAt
    {
      var keys := map id | id in rows && Waits(rows[id], peer, now) :: rows[id].createdAt;
      var all := OrderBy(keys);
      ids := if |all| <= HANDOVER_LIMIT then all else all[..HANDOVER_LIMIT];
      assert forall id :: id in ids ==> id in all;
      forall id | id in rows && Waits(rows[id], peer, now) && id !in ids
        ensures |ids| == HANDOVER_LIMIT
        ensures forall i :: 0 <= i < |ids| ==> keys[ids[i]] <= keys[id]
      {
        assert id in all;
        var j :| 0 <= j < |all| && all[j] == id;
        assert forall i :: 0 <= i < |ids| ==> ids[i] == all[i];
      }
    }

    // Waiting rows are transmitted whether or not their next retry is due.
    method Handover(peer: PeerId, now: int, sends: MessageId -> bool) returns (ghost handed: seq<MessageId>)
      modifies this
      ensures |handed| <= 20
      ensures forall i, j :: 0 <= i < j < |handed| ==> handed[i] != handed[j]
      ensures forall id :: id in handed ==> id in old(rows) && Waits(old(rows)[id], peer, now)
      ensures forall id :: id in old(rows) && Waits(old(rows)[id], peer, now) && id !in handed ==>
        |handed| == 20 &&
        forall i :: 0 <= i < |handed| ==> handed[i] in old(rows) && old(rows)[handed[i]].createdAt <= old(rows)[id].createdAt
      ensures rows == AfterHandover(old(rows), handed, now, sends)
    {
      ghost var t := rows;
      var entries := GetPendingForPeer(peer, now);
      handed := entries;
      for i := 0 to |entries|
        invariant rows.Keys == t.Keys
        invariant forall id :: id in t ==>
          rows[id] == if id in entries[..i] then HandedRow(t[id], now, sends(id)) else t[id]
      {
        var id := entries[i];
        assert id !in entries[..i] && id in entries && entries[..i + 1] == entries[..i] + [id];
        if sends(id) {
          SetStatus(id, Delivered);
        } else {
          SchedulePendingRetry(id, now + Backoff(rows[id].attempts));
        }
      }
      assert entries[..|entries|] == entries;
    }
  }
}
