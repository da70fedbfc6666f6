/**
 * The message queue: one table row per message, and the SQL statements that move it.
 * Every statement is a function on one row; the class below applies it to the table.
 */
module MessageQueue {
  import opened Prelude

  type WorkerId = string

  /** `scheduled_at`: a row waiting for an order to be delivered is parked at 'infinity'. */
  datatype Due = Parked | At(time: int)

  datatype Status = Pending | Processing | Sent | Delivered | Failed | Cancelled | Bounced | Complained

  datatype Channel = Email | Sms

  datatype Category = Lifecycle | Promotional | Transactional | Operational

  datatype ErrorClass = Terminal | Transient

  datatype Row = Row(
    tenant: string,
    contact: string,
    channel: Channel,
    category: Category,
    address: string,
    dedupKey: string,
    scheduledAt: Due,
    status: Status,
    claimedAt: Option<int>,
    claimedBy: Option<WorkerId>,
    attempts: int,
    nextAttemptAt: Option<int>,
    deferrals: int,
    lastDeferredAt: Option<int>,
    provider: Option<string>,
    providerMessageId: Option<string>,
    errorCode: Option<string>,
    errorMessage: Option<string>,
    errorClass: Option<ErrorClass>,
    sentAt: Option<int>,
    deliveredAt: Option<int>)

  const MINUTE_MS := 60000

  // ---------------------------------------------------------------- claiming

  predicate DueBy(d: Due, now: int) {
    d.At? && d.time <= now
  }

  predicate Claimable(r: Row, now: int) {
    && r.status.Pending?
    && DueBy(r.scheduledAt, now)
    && (r.nextAttemptAt.None? || r.nextAttemptAt.value <= now)
  }

  function Claimed(r: Row, worker: WorkerId, now: int): Row {
    r.(status := Processing, claimedAt := Some(now), claimedBy := Some(worker), attempts := r.attempts + 1)
  }

  // ------------------------------------------------- writes behind the fence

  /** What a worker may write to a row it believes it holds. */
  datatype Write =
    | Refresh(now: int)
    | Defer(until: int, now: int)
    | MarkSent(provider: string, providerMessageId: string, now: int)
    | MarkFailed(provider: string, code: string, message: string, class_: ErrorClass)
    | Retry(provider: string, code: string, message: string, delayMs: int, now: int)
    | MarkCancelled(reason: string)

  predicate Owned(r: Row, worker: WorkerId) {
    r.claimedBy == Some(worker) && r.status.Processing?
  }

  /** The WHERE clause of the write. */
  predicate Fence(r: Row, worker: WorkerId, w: Write) {
    Owned(r, worker) && (w.Refresh? || w.MarkSent? || r.sentAt.None?)
  }

  function Released(r: Row): Row {
    r.(claimedAt := None, claimedBy := None)
  }

  function Least(d: Due, t: int): Due {
    match d
    case Parked => At(t)
    case At(u) => At(Min(u, t))
  }

  /** What a write leaves in each column: the ones it does not name stay. */
  ghost predicate Sets(w: Write, before: Row, after: Row) {
    && (w.Refresh? || (after.claimedAt.None? && after.claimedBy.None?))
    && match w
       case Refresh(now) => after == before.(claimedAt := Some(now))
       case Defer(until, now) =>
         after == before.(status := Pending, claimedAt := None, claimedBy := None,
                          attempts := if before.attempts > 0 then before.attempts - 1 else 0,
                          deferrals := before.deferrals + 1, lastDeferredAt := Some(now),
                          scheduledAt := At(until), nextAttemptAt := None)
       case MarkSent(provider, id, now) =>
         after == before.(status := Sent, claimedAt := None, claimedBy := None, sentAt := Some(now),
                          provider := Some(provider), providerMessageId := Some(id))
       case MarkFailed(provider, code, message, class_) =>
         after == before.(status := Failed, claimedAt := None, claimedBy := None, provider := Some(provider),
                          errorCode := Some(code), errorMessage := Some(message), errorClass := Some(class_))
       case Retry(provider, code, message, delayMs, now) =>
         && after == before.(status := Pending, claimedAt := None, claimedBy := None, provider := Some(provider),
                             errorCode := Some(code), errorMessage := Some(message), errorClass := Some(Transient),
                             nextAttemptAt := Some(now + delayMs), scheduledAt := after.scheduledAt)
         && DueBy(after.scheduledAt, now + delayMs)
         && (DueBy(before.scheduledAt, now + delayMs) ==> after.scheduledAt == before.scheduledAt)
         && (!DueBy(before.scheduledAt, now + delayMs) ==> after.scheduledAt == At(now + delayMs))
       case MarkCancelled(reason) =>
         after == before.(status := Cancelled, claimedAt := None, claimedBy := None, errorCode := Some(reason))
  }

  /** The SET clause of the write. */
  function Written(r: Row, w: Write): Row {
    match w
    case Refresh(now) =>
      r.(claimedAt := Some(now))
    case Defer(until, now) =>
      Released(r).(status := Pending, attempts := Max(r.attempts - 1, 0), deferrals := r.deferrals + 1,
                   lastDeferredAt := Some(now), scheduledAt := At(until), nextAttemptAt := None)
    case MarkSent(provider, id, now) =>
      Released(r).(status := Sent, sentAt := Some(now), provider := Some(provider), providerMessageId := Some(id))
    case MarkFailed(provider, code, message, class_) =>
      Released(r).(status := Failed, provider := Some(provider), errorCode := Some(code),
                   errorMessage := Some(message), errorClass := Some(class_))
    case Retry(provider, code, message, delayMs, now) =>
      Released(r).(status := Pending, provider := Some(provider), errorCode := Some(code),
                   errorMessage := Some(message), errorClass := Some(Transient),
                   nextAttemptAt := Some(now + delayMs), scheduledAt := Least(r.scheduledAt, now + delayMs))
    case MarkCancelled(reason) =>
      Released(r).(status := Cancelled, errorCode := Some(reason))
  }

  function Fenced(r: Row, worker: WorkerId, w: Write): Row {
    if Fence(r, worker, w) then Written(r, w) else r
  }

  // ------------------------------------------------------------- reclaiming

  function Pow2(n: nat): nat {
    if n == 0 then 1 else 2 * Pow2(n - 1)
  }

  /** least(power(2, attempts), 60) minutes. */
  function ReclaimDelay(attempts: int): int {
    MINUTE_MS * (if attempts < 0 then 1 else Min(Pow2(attempts), 60))
  }

  /** One minute at first, doubled with every attempt, and never more than an hour. */
  lemma {:induction false} ReclaimDelayDoubles(attempts: nat)
    ensures ReclaimDelay(0) == MINUTE_MS
    ensures ReclaimDelay(attempts + 1) == Min(2 * ReclaimDelay(attempts), 60 * MINUTE_MS)
    ensures attempts >= 6 ==> ReclaimDelay(attempts) == 60 * MINUTE_MS
  {
    assert Pow2(attempts + 1) == 2 * Pow2(attempts);
    if attempts > 6 {
      ReclaimDelayDoubles(attempts - 1);
    }
    assert Pow2(6) == 64;
  }

  predicate Stale(r: Row, cutoff: int) {
    r.status.Processing? && r.claimedAt.Some? && r.claimedAt.value < cutoff
  }

  /** First statement of reclaimStale: a stale row with attempts left goes back to the queue. */
  function Requeued(r: Row, cutoff: int, maxAttempts: int, now: int): Row {
    if Stale(r, cutoff) && r.attempts < maxAttempts then
      Released(r).(status := Pending, nextAttemptAt := Some(now + ReclaimDelay(r.attempts)))
    else r
  }

  /** Second statement: a stale row without attempts left fails. */
  function Exhausted(r: Row, cutoff: int, maxAttempts: int): Row {
    if Stale(r, cutoff) && r.attempts >= maxAttempts then
      Released(r).(status := Failed, errorClass := Some(Transient),
                   errorCode := if r.errorCode.Some? then r.errorCode else Some("stale_claim_exhausted"))
    else r
  }

  // ------------------------------------------------ cancellations and receipts

  predicate Queued(r: Row) {
    r.status.Pending? || r.status.Processing?
  }

  /** Every bulk cancellation has this shape; it leaves the claim stamp in place. */
  function BulkCancelled(r: Row, reason: string): Row {
    if Queued(r) then r.(status := Cancelled, errorCode := Some(reason)) else r
  }

  datatype Receipt = DeliveredReceipt(occurredAt: int) | FailureReceipt(status: Status, code: Option<string>)

  predicate ValidReceipt(e: Receipt) {
    e.FailureReceipt? ==> e.status in {Bounced, Complained, Failed}
  }

  /** The status update of applyProviderEvent. */
  function Receipted(r: Row, e: Receipt): Row {
    match e
    case DeliveredReceipt(at) =>
      if r.sentAt.Some? then r.(status := Delivered, deliveredAt := Some(Max(at, r.sentAt.value))) else r
    case FailureReceipt(status, code) =>
      r.(status := status,
         errorCode := if code.Some? then code else r.errorCode,
         errorClass := if status.Failed? then Some(Terminal) else r.errorClass)
  }

  /** The delivery-anchors job: a parked row learns its send time. */
  function Anchored(r: Row, at: int): Row {
    if r.status.Pending? && r.scheduledAt.Parked? then r.(scheduledAt := At(at)) else r
  }

  // -------------------------------------------------------------- the table

  /** A row as `enqueue` inserts it. */
  predicate Fresh(r: Row) {
    && r.status.Pending?
    && r.claimedAt.None? && r.claimedBy.None?
    && r.attempts == 0 && r.deferrals == 0
    && r.nextAttemptAt.None? && r.lastDeferredAt.None?
    && r.provider.None? && r.providerMessageId.None?
    && r.errorCode.None? && r.errorMessage.None? && r.errorClass.None?
    && r.sentAt.None? && r.deliveredAt.None?
  }

  predicate SameKey(a: Row, b: Row) {
    a.tenant == b.tenant && a.dedupKey == b.dedupKey
  }

  ghost predicate UniqueKeys(rows: seq<Row>) {
    forall i, j :: 0 <= i < j < |rows| ==> !SameKey(rows[i], rows[j])
  }

  function Candidates(rows: seq<Row>, wanted: set<nat>, now: int): set<nat> {
    set i | i in wanted && i < |rows| && Claimable(rows[i], now)
  }

  predicate NoLater(rows: seq<Row>, i: nat, j: nat)
    requires i < |rows| && j < |rows|
  {
    rows[j].scheduledAt.Parked? || (rows[i].scheduledAt.At? && rows[i].scheduledAt.time <= rows[j].scheduledAt.time)
  }

  /** `ids` is what ORDER BY scheduled_at LIMIT n may return from the set `from`. */
  ghost predicate IsEarliest(rows: seq<Row>, from: set<nat>, limit: nat, ids: seq<nat>) {
    && (forall i :: i in from ==> i < |rows|)
    && (forall i :: 0 <= i < |ids| ==> ids[i] in from)
    && (forall i, j :: 0 <= i < j < |ids| ==> ids[i] != ids[j] && NoLater(rows, ids[i], ids[j]))
    && (forall i, c :: 0 <= i < |ids| && c in from && c !in ids ==> NoLater(rows, ids[i], c))
    && |ids| <= limit
    && (|ids| < limit ==> forall c :: c in from ==> c in ids)
  }

  /** What the claim takes, spelled out: pending rows that are due and not waiting for a retry, by their send time. */
  lemma EarliestMeans(rows: seq<Row>, unlocked: set<nat>, now: int, limit: nat, ids: seq<nat>)
    requires IsEarliest(rows, Candidates(rows, unlocked, now), limit, ids)
    ensures forall c: nat :: c in Candidates(rows, unlocked, now) <==>
      && c in unlocked && c < |rows| && rows[c].status.Pending?
      && (exists t :: t <= now && rows[c].scheduledAt == At(t))
      && (forall t :: rows[c].nextAttemptAt == Some(t) ==> t <= now)
    ensures forall i :: 0 <= i < |ids| ==> ids[i] < |rows| && rows[ids[i]].scheduledAt.At?
    ensures forall i, j :: 0 <= i < j < |ids| ==> rows[ids[i]].scheduledAt.time <= rows[ids[j]].scheduledAt.time
    ensures forall i, c :: 0 <= i < |ids| && c in Candidates(rows, unlocked, now) && c !in ids ==>
      rows[ids[i]].scheduledAt.time <= rows[c].scheduledAt.time
  {
    forall c: nat | c < |rows| && (exists t :: t <= now && rows[c].scheduledAt == At(t))
      ensures DueBy(rows[c].scheduledAt, now)
    {
    }
    forall c: nat | c < |rows| && DueBy(rows[c].scheduledAt, now)
      ensures exists t :: t <= now && rows[c].scheduledAt == At(t)
    {
      assert rows[c].scheduledAt == At(rows[c].scheduledAt.time);
    }
    assert forall i :: 0 <= i < |ids| ==> ids[i] in Candidates(rows, unlocked, now);
  }

  lemma {:induction false} EarliestExists(rows: seq<Row>, from: set<nat>) returns (m: nat)
    requires from != {}
    requires forall i :: i in from ==> i < |rows|
    ensures m in from && forall c :: c in from ==> NoLater(rows, m, c)
    decreases |from|
  {
    var x :| x in from;
    m := x;
    var rest := from - {x};
    assert forall c :: c in from ==> c == x || c in rest;
    if rest != {} {
      m := EarliestExists(rows, rest);
      m := if NoLater(rows, m, x) then m else x;
    }
  }

  function ClaimAll(rows: seq<Row>, ids: seq<nat>, worker: WorkerId, now: int): seq<Row> {
    seq(|rows|, i requires 0 <= i < |rows| => if i in ids then Claimed(rows[i], worker, now) else rows[i])
  }

  /** SELECT ... ORDER BY scheduled_at LIMIT: the ids the claiming CTE locks. */
  method SelectEarliest(rows: seq<Row>, from: set<nat>, limit: nat) returns (ids: seq<nat>)
    requires forall i :: i in from ==> i < |rows|
    ensures IsEarliest(rows, from, limit, ids)
  {
    ids := [];
    var rest := from;
    while |ids| < limit && rest != {}
      invariant |ids| <= limit
      invariant rest <= from
      invariant forall c :: c in from ==> (c in rest <==> c !in ids)
      invariant forall i :: 0 <= i < |ids| ==> ids[i] in from
      invariant forall i, j :: 0 <= i < j < |ids| ==> ids[i] != ids[j] && NoLater(rows, ids[i], ids[j])
      invariant forall i, c :: 0 <= i < |ids| && c in rest ==> NoLater(rows, ids[i], c)
      decreases rest
    {
      ghost var earliest := EarliestExists(rows, rest);
      var m :| m in rest && forall c :: c in rest ==> NoLater(rows, m, c);
      ids := ids + [m];
      rest := rest - {m};
    }
  }

  class Queue {
    var rows: seq<Row>

    constructor ()
      ensures rows == []
    {
      rows := [];
    }

    /** INSERT ... ON CONFLICT DO NOTHING: the database, not the caller, deduplicates. */
    method Enqueue(row: Row) returns (id: Option<nat>)
      requires Fresh(row) && UniqueKeys(rows)
      modifies this
      ensures UniqueKeys(rows)
      ensures id.None? <==>
        exists i :: 0 <= i < |old(rows)| && old(rows)[i].tenant == row.tenant && old(rows)[i].dedupKey == row.dedupKey
      ensures id.None? ==> rows == old(rows)
      ensures id.Some? ==> rows == old(rows) + [row] && id.value == |old(rows)|
    {
      if exists i :: 0 <= i < |rows| && SameKey(rows[i], row) {
        return None;
      }
      id := Some(|rows|);
      rows := rows + [row];
    }

    /** claimBatch. `unlocked` are the rows no other transaction holds (SKIP LOCKED skips the rest). */
    method ClaimBatch(worker: WorkerId, batchSize: nat, unlocked: set<nat>, now: int) returns (ids: seq<nat>)
      modifies this
      ensures IsEarliest(old(rows), Candidates(old(rows), unlocked, now), batchSize, ids)
      ensures rows == ClaimAll(old(rows), ids, worker, now)
      ensures forall i: nat :: i < |old(rows)| ==>
        rows[i] == if i !in ids then old(rows)[i]
                   else old(rows)[i].(status := Processing, claimedAt := Some(now), claimedBy := Some(worker),
                                      attempts := old(rows)[i].attempts + 1)
    {
      ids := SelectEarliest(rows, Candidates(rows, unlocked, now), batchSize);
      rows := ClaimAll(rows, ids, worker, now);
    }

    /** claimSpecific: the same claim, over the rows the caller names. */
    method ClaimSpecific(wanted: set<nat>, worker: WorkerId, unlocked: set<nat>, now: int) returns (ids: seq<nat>)
      modifies this
      ensures forall i :: i in ids <==> i in Candidates(old(rows), wanted * unlocked, now)
      ensures IsEarliest(old(rows), Candidates(old(rows), wanted * unlocked, now), |ids|, ids)
      ensures rows == ClaimAll(old(rows), ids, worker, now)
      ensures forall i: nat :: i < |old(rows)| ==>
        rows[i] == if i !in ids then old(rows)[i]
                   else old(rows)[i].(status := Processing, claimedAt := Some(now), claimedBy := Some(worker),
                                      attempts := old(rows)[i].attempts + 1)
    {
      var from := Candidates(rows, wanted * unlocked, now);
      ids := SelectEarliest(rows, from, |from| + 1);
      CardinalityOfDistinct(ids, from);
      rows := ClaimAll(rows, ids, worker, now);
    }

    /** refreshClaim, deferClaimed, markSent, markFailed, scheduleRetry and markCancelled. */
    method Record(id: nat, worker: WorkerId, w: Write) returns (matched: bool)
      modifies this
      ensures matched <==>
        && id < |old(rows)| && old(rows)[id].status.Processing? && old(rows)[id].claimedBy == Some(worker)
        && (w.Refresh? || w.MarkSent? || old(rows)[id].sentAt.None?)
      ensures rows == if matched then old(rows)[id := Written(old(rows)[id], w)] else old(rows)
      ensures matched ==> |rows| == |old(rows)| && Sets(w, old(rows)[id], rows[id])
    {
      matched := id < |rows| && Fence(rows[id], worker, w);
      if matched {
        rows := rows[id := Written(rows[id], w)];
      }
    }

    /** reclaimStale: both statements. Each stale row is moved to exactly one of pending and failed. */
    method ReclaimStale(staleMinutes: int, maxAttempts: int, now: int) returns (reclaimed: set<nat>, exhausted: set<nat>)
      modifies this
      ensures reclaimed !! exhausted
      ensures |rows| == |old(rows)|
      ensures forall i: nat :: i in reclaimed + exhausted <==>
        i < |old(rows)| && Stale(old(rows)[i], now - staleMinutes * MINUTE_MS)
      ensures forall i: nat :: i in reclaimed ==>
        && old(rows)[i].attempts < maxAttempts
        && rows[i] == old(rows)[i].(status := Pending, claimedAt := None, claimedBy := None,
                                    nextAttemptAt := Some(now + ReclaimDelay(old(rows)[i].attempts)))
        && rows[i] == Requeued(old(rows)[i], now - staleMinutes * MINUTE_MS, maxAttempts, now)
      ensures forall i: nat :: i in exhausted ==>
        && old(rows)[i].attempts >= maxAttempts
        && rows[i] == old(rows)[i].(status := Failed, claimedAt := None, claimedBy := None, errorClass := Some(Transient),
                                    errorCode := rows[i].errorCode)
        && rows[i].errorCode == (if old(rows)[i].errorCode.Some? then old(rows)[i].errorCode
                                 else Some("stale_claim_exhausted"))
        && rows[i] == Exhausted(old(rows)[i], now - staleMinutes * MINUTE_MS, maxAttempts)
      ensures forall i: nat :: i < |rows| && i !in reclaimed && i !in exhausted ==> rows[i] == old(rows)[i]
    {
      var cutoff := now - staleMinutes * MINUTE_MS;
      reclaimed := set i | 0 <= i < |rows| && Stale(rows[i], cutoff) && rows[i].attempts < maxAttempts;
      var first := rows;
      rows := seq(|first|, i requires 0 <= i < |first| => Requeued(first[i], cutoff, maxAttempts, now));
      exhausted := set i | 0 <= i < |rows| && Stale(rows[i], cutoff) && rows[i].attempts >= maxAttempts;
      var second := rows;
      rows := seq(|second|, i requires 0 <= i < |second| => Exhausted(second[i], cutoff, maxAttempts));
    }

    /** cancelQueuedForContact. */
    method CancelQueuedForContact(tenant: string, contact: string, channel: Channel, reason: string)
      returns (ids: set<nat>)
      modifies this
      ensures |rows| == |old(rows)|
      ensures forall i: nat :: i in ids <==>
        && i < |old(rows)| && Queued(old(rows)[i])
        && old(rows)[i].tenant == tenant && old(rows)[i].contact == contact && old(rows)[i].channel == channel
      ensures forall i: nat :: i < |rows| ==>
        rows[i] == if i in ids then old(rows)[i].(status := Cancelled, errorCode := Some(reason)) else old(rows)[i]
    {
      ids := set i | 0 <= i < |rows| && Queued(rows[i]) && rows[i].tenant == tenant
                     && rows[i].contact == contact && rows[i].channel == channel;
      var was := rows;
      rows := seq(|was|, i requires 0 <= i < |was| => if i in ids then BulkCancelled(was[i], reason) else was[i]);
    }
  }

  lemma {:induction false} CardinalityOfDistinct(ids: seq<nat>, from: set<nat>)
    requires forall i, j :: 0 <= i < j < |ids| ==> ids[i] != ids[j]
    requires forall i :: 0 <= i < |ids| ==> ids[i] in from
    ensures |ids| <= |from|
    decreases |ids|
  {
    if ids != [] {
      var last := ids[|ids| - 1];
      CardinalityOfDistinct(ids[..|ids| - 1], from - {last});
    }
  }
}
