/**
 * The delivery protocol: workers, reclaims, cancellations, receipts and opt-outs
 * interleaved one SQL statement at a time, over one shared table.
 *
 * Every claim opens an epoch, recorded as a session of its row. `provider.send`
 * is a step of its own, between the refreshed claim and the recording write.
 */
module Delivery {
  import opened Prelude
  import opened MessageQueue
  import opened Consent

  /** Where deliverClaimed stands for one claim of one row. */
  datatype Phase =
    | Gating      // claimed; the suppression gate has not been read yet
    | Cleared     // the suppression gate passed
    | Approved    // refreshClaim matched; provider.send comes next
    | Handed      // provider.send was called; its result is not recorded yet
    | Settled     // the result is recorded, or the claim was found lost
    | Over        // returned, or the worker died

  datatype Session = Session(worker: WorkerId, attempts: int, phase: Phase, handed: bool, deferred: bool)

  /** A row and every session its claims opened, oldest first. The sessions are history, not columns. */
  datatype Tracked = Tracked(row: Row, sessions: seq<Session>)

  datatype Op =
    | PassSuppression
    | CancelClaimed(reason: string)
    | DeferClaimed(until: int)
    | RefreshClaim
    | Send
    | RecordSuccess(provider: string, providerMessageId: string)
    | RecordError(provider: string, code: string, message: string, class_: ErrorClass, providerMax: int, delayMs: int)
    | Throw(provider: string, message: string)
    | Finish
    | Crash

  predicate Allowed(s: Session, op: Op) {
    match op
    case PassSuppression => s.phase.Gating?
    case CancelClaimed(_) => s.phase.Gating? || s.phase.Cleared?
    case DeferClaimed(_) => s.phase.Gating? || s.phase.Cleared?
    case RefreshClaim => s.phase.Cleared?
    case Send => s.phase.Approved?
    case RecordSuccess(_, _) => s.phase.Handed?
    case RecordError(_, _, _, _, _, _) => s.phase.Handed?
    case Throw(_, _) => !s.phase.Over?
    case Finish => s.phase.Settled?
    case Crash => !s.phase.Over?
  }

  /** The statement the step sends to the database, if any. */
  function WriteOf(s: Session, op: Op, now: int, maxAttempts: int): Option<Write> {
    match op
    case CancelClaimed(reason) => Some(MarkCancelled(reason))
    case DeferClaimed(until) => Some(Defer(until, now))
    case RefreshClaim => Some(Refresh(now))
    case RecordSuccess(provider, id) => Some(MarkSent(provider, id, now))
    case RecordError(provider, code, message, class_, providerMax, delayMs) =>
      if class_.Terminal? || s.attempts >= Min(providerMax, maxAttempts) then
        Some(MarkFailed(provider, code, message, class_))
      else
        Some(Retry(provider, code, message, delayMs, now))
    case Throw(provider, message) => Some(MarkFailed(provider, "internal_error", message, Terminal))
    case _ => None
  }

  function Advanced(s: Session, op: Op, matched: bool): Session {
    match op
    case PassSuppression => s.(phase := Cleared)
    case CancelClaimed(_) => s.(phase := Settled)
    case DeferClaimed(_) => s.(phase := Settled, deferred := matched)
    case RefreshClaim => s.(phase := if matched then Approved else Settled)
    case Send => s.(phase := Handed, handed := true)
    case RecordSuccess(_, _) => s.(phase := Settled)
    case RecordError(_, _, _, _, _, _) => s.(phase := Settled)
    case Throw(_, _) => s.(phase := Over)
    case Finish => s.(phase := Over)
    case Crash => s.(phase := Over)
  }

  predicate Matches(r: Row, s: Session, op: Op, now: int, maxAttempts: int) {
    var w := WriteOf(s, op, now, maxAttempts);
    w.Some? && Fence(r, s.worker, w.value)
  }

  function Worked(t: Tracked, k: nat, op: Op, now: int, maxAttempts: int): Tracked
    requires k < |t.sessions|
  {
    var s := t.sessions[k];
    var w := WriteOf(s, op, now, maxAttempts);
    Tracked(if w.Some? then Fenced(t.row, s.worker, w.value) else t.row,
            t.sessions[k := Advanced(s, op, Matches(t.row, s, op, now, maxAttempts))])
  }

  // -------------------------------------------------------- what happens to a row

  datatype Act =
    | Idle
    | Claim(worker: WorkerId)
    | Work(k: nat, op: Op)
    | Requeue(cutoff: int)
    | Exhaust(cutoff: int)
    | Cancel(reason: string)
    | Receive(receipt: Receipt)
    | Anchor(at: int)

  predicate Can(t: Tracked, a: Act, now: int) {
    match a
    case Claim(worker) =>
      // No two live epochs of a row share a worker id.
      Claimable(t.row, now) && forall s :: s in t.sessions ==> s.phase.Over? || s.worker != worker
    case Work(k, op) => k < |t.sessions| && Allowed(t.sessions[k], op)
    case Receive(receipt) => t.row.providerMessageId.Some? && ValidReceipt(receipt)
    case _ => true
  }

  function Performed(t: Tracked, a: Act, now: int, maxAttempts: int): Tracked
    requires Can(t, a, now)
  {
    match a
    case Idle => t
    case Claim(worker) =>
      Tracked(Claimed(t.row, worker, now), t.sessions + [Session(worker, t.row.attempts + 1, Gating, false, false)])
    case Work(k, op) => Worked(t, k, op, now, maxAttempts)
    case Requeue(cutoff) => t.(row := Requeued(t.row, cutoff, maxAttempts, now))
    case Exhaust(cutoff) => t.(row := Exhausted(t.row, cutoff, maxAttempts))
    case Cancel(reason) => t.(row := BulkCancelled(t.row, reason))
    case Receive(receipt) => t.(row := Receipted(t.row, receipt))
    case Anchor(at) => t.(row := Anchored(t.row, at))
  }

  // ------------------------------------------------------------------ the system

  datatype State = State(rows: seq<Tracked>, suppressions: Suppressions, clock: int)

  datatype Event =
    | Enqueue(row: Row)
    | ClaimRows(ids: set<nat>, worker: WorkerId)
    | SessionStep(id: nat, k: nat, op: Op)
    | RequeueStale(cutoff: int)
    | ExhaustStale(cutoff: int)
    | BulkCancel(ids: set<nat>, code: string)
    | OptOut(tenant: string, contact: string, channel: Channel, address: string, category: Option<Category>, reason: Reason)
    | ProviderReceipt(id: nat, receipt: Receipt)
    | Suppress(key: Key, reason: Reason, expiresAt: Option<int>)
    | LiftSuppression(key: Key)
    | SweepSuppressions
    | ResolveAnchor(id: nat, at: int)

  datatype Step = Step(event: Event, now: int)

  function KeyOf(r: Row): Key {
    Key(r.tenant, r.channel, r.address)
  }

  function ActOn(r: Row, e: Event, i: nat): Act {
    match e
    case ClaimRows(ids, worker) => if i in ids then Claim(worker) else Idle
    case SessionStep(id, k, op) => if i == id then Work(k, op) else Idle
    case RequeueStale(cutoff) => Requeue(cutoff)
    case ExhaustStale(cutoff) => Exhaust(cutoff)
    case BulkCancel(ids, code) => if i in ids then Cancel(code) else Idle
    case OptOut(tenant, contact, channel, _, category, reason) =>
      if Covered(r, tenant, contact, channel, category) then Cancel(OptOutCode(category, reason)) else Idle
    case ProviderReceipt(id, receipt) => if i == id then Receive(receipt) else Idle
    case ResolveAnchor(id, at) => if i == id then Anchor(at) else Idle
    case _ => Idle
  }

  ghost predicate Enabled(s: State, step: Step) {
    && s.clock <= step.now
    && (forall i: nat :: i < |s.rows| ==> Can(s.rows[i], ActOn(s.rows[i].row, step.event, i), step.now))
    && (step.event.Enqueue? ==>
          Fresh(step.event.row) && forall t :: t in s.rows ==> !SameKey(t.row, step.event.row))
    && (step.event.SessionStep? ==> step.event.id < |s.rows| && GateReadsTable(s, step))
  }

  /** The suppression gate passes only an address that is not suppressed when it is read. */
  predicate GateReadsTable(s: State, step: Step)
    requires step.event.SessionStep? && step.event.id < |s.rows|
  {
    step.event.op.PassSuppression? ==>
      Active(s.suppressions, KeyOf(s.rows[step.event.id].row), step.now).None?
  }

  function NextSuppressions(table: Suppressions, step: Step): Suppressions {
    match step.event
    case OptOut(tenant, _, channel, address, category, reason) =>
      if category.None? then Add(table, Key(tenant, channel, address), reason, None, step.now) else table
    case Suppress(key, reason, expiresAt) => Add(table, key, reason, expiresAt, step.now)
    case LiftSuppression(key) => Lift(table, key)
    case SweepSuppressions => Sweep(table, step.now)
    case _ => table
  }

  ghost function Next(s: State, step: Step, maxAttempts: int): State
    requires Enabled(s, step)
  {
    var kept := seq(|s.rows|, i requires 0 <= i < |s.rows| =>
      Performed(s.rows[i], ActOn(s.rows[i].row, step.event, i), step.now, maxAttempts));
    State(kept + (if step.event.Enqueue? then [Tracked(step.event.row, [])] else []),
          NextSuppressions(s.suppressions, step), step.now)
  }

  /** A run: one state before, between and after the steps. It starts with an empty queue. */
  ghost predicate Run(trace: seq<State>, steps: seq<Step>, maxAttempts: int) {
    && |trace| == |steps| + 1
    && trace[0].rows == []
    && forall i {:trigger steps[i]} :: 0 <= i < |steps| ==>
         Enabled(trace[i], steps[i]) && trace[i + 1] == Next(trace[i], steps[i], maxAttempts)
  }

  // ------------------------------------------------------------- the invariant

  predicate WasHanded(s: Session) { s.handed }

  predicate WasDeferred(s: Session) { s.deferred }

  function Claims(t: Tracked): nat { |t.sessions| }

  function Sends(t: Tracked): nat { Count(WasHanded, t.sessions) }

  ghost predicate SessionOk(s: Session) {
    && (s.phase.Gating? || s.phase.Cleared? || s.phase.Approved? ==> !s.handed && !s.deferred)
    && (s.phase.Handed? ==> s.handed)
    && !(s.handed && s.deferred)
  }

  /** Two epochs of one row never share a worker id while the earlier one is still running. */
  ghost predicate Distinguishable(ss: seq<Session>) {
    forall j, k :: 0 <= j < k < |ss| ==> ss[j].phase.Over? || ss[j].worker != ss[k].worker
  }

  ghost predicate Accounted(t: Tracked, maxAttempts: int) {
    && Claims(t) == t.row.attempts + t.row.deferrals
    && t.row.deferrals == Count(WasDeferred, t.sessions)
    && 0 <= t.row.attempts <= maxAttempts
    && (t.row.status.Pending? ==> t.row.attempts < maxAttempts)
  }

  function Last(t: Tracked): Session
    requires t.sessions != []
  {
    t.sessions[|t.sessions| - 1]
  }

  ghost predicate HeldByLast(t: Tracked, now: int) {
    && t.sessions != []
    && t.row.claimedBy == Some(Last(t).worker)
    && t.row.attempts == Last(t).attempts >= 1
    && t.row.claimedAt.Some? && t.row.claimedAt.value <= now
    && DueBy(t.row.scheduledAt, now)
  }

  ghost predicate StatusOk(r: Row, now: int) {
    && (Queued(r) || r.status.Cancelled? ==> r.sentAt.None?)
    && (r.status.Pending? ==> r.claimedAt.None? && r.claimedBy.None?)
    && (r.status.Sent? || r.status.Delivered? || r.status.Bounced? || r.status.Complained? ==> r.sentAt.Some?)
    && (r.providerMessageId.Some? <==> r.sentAt.Some?)
    && (r.sentAt.Some? ==> r.sentAt.value <= now)
    && (r.status.Delivered? ==> r.deliveredAt.Some?)
    && (r.deliveredAt.Some? ==> r.sentAt.Some? && r.sentAt.value <= r.deliveredAt.value)
    && (r.status.Failed? ==> r.errorClass.Some?)
  }

  ghost predicate Inv(t: Tracked, maxAttempts: int, now: int) {
    && (forall s :: s in t.sessions ==> SessionOk(s))
    && Distinguishable(t.sessions)
    && Accounted(t, maxAttempts)
    && StatusOk(t.row, now)
    && (t.row.status.Processing? ==> HeldByLast(t, now))
  }

  // ------------------------------------------------------- one row, one action

  /** The fence: only the session that holds the row's latest claim can match a write. */
  lemma FenceIsEpoch(t: Tracked, k: nat, maxAttempts: int, now: int, w: Write)
    requires Inv(t, maxAttempts, now)
    requires k < |t.sessions| && !t.sessions[k].phase.Over?
    requires Fence(t.row, t.sessions[k].worker, w)
    ensures k == |t.sessions| - 1
  {
  }

  /** A step of one session keeps the history well formed. */
  lemma WorkKeepsSessions(t: Tracked, k: nat, op: Op, maxAttempts: int, now: int)
    requires forall s :: s in t.sessions ==> SessionOk(s)
    requires Distinguishable(t.sessions)
    requires Can(t, Work(k, op), now)
    ensures forall s :: s in Worked(t, k, op, now, maxAttempts).sessions ==> SessionOk(s)
    ensures Distinguishable(Worked(t, k, op, now, maxAttempts).sessions)
  {
    var s := t.sessions[k];
    var t' := Worked(t, k, op, now, maxAttempts);
    assert s in t.sessions;
    forall x | x in t'.sessions ensures SessionOk(x) {
      assert x == t'.sessions[k] || x in t.sessions;
    }
  }

  /** A write that matched, by the session that holds the latest claim. */
  lemma WriteKeepsRow(t: Tracked, op: Op, maxAttempts: int, before: int, now: int)
    requires Inv(t, maxAttempts, before) && before <= now && 1 <= maxAttempts
    requires t.sessions != [] && Can(t, Work(|t.sessions| - 1, op), now)
    requires Matches(t.row, Last(t), op, now, maxAttempts)
    ensures var r := Written(t.row, WriteOf(Last(t), op, now, maxAttempts).value);
      && StatusOk(r, now)
      && r.attempts + r.deferrals == t.row.attempts + t.row.deferrals
      && r.deferrals == t.row.deferrals + (if op.DeferClaimed? then 1 else 0)
      && 0 <= r.attempts <= maxAttempts
      && (r.status.Pending? ==> r.attempts < maxAttempts)
      && (r.status.Processing? ==> op.RefreshClaim? && r == t.row.(claimedAt := Some(now)))
  {
  }

  lemma WorkKeepsInv(t: Tracked, k: nat, op: Op, maxAttempts: int, before: int, now: int)
    requires Inv(t, maxAttempts, before) && before <= now && 1 <= maxAttempts
    requires Can(t, Work(k, op), now)
    ensures Inv(Worked(t, k, op, now, maxAttempts), maxAttempts, now)
  {
    WorkKeepsSessions(t, k, op, maxAttempts, now);
    WorkKeepsRow(t, k, op, maxAttempts, before, now);
    hide SessionOk, Distinguishable, Accounted, HeldByLast, StatusOk, Worked;
  }

  lemma WorkKeepsRow(t: Tracked, k: nat, op: Op, maxAttempts: int, before: int, now: int)
    requires Inv(t, maxAttempts, before) && before <= now && 1 <= maxAttempts
    requires Can(t, Work(k, op), now)
    ensures
      var t' := Worked(t, k, op, now, maxAttempts);
      && Accounted(t', maxAttempts) && StatusOk(t'.row, now)
      && (t'.row.status.Processing? ==> HeldByLast(t', now))
  {
    var s := t.sessions[k];
    assert s in t.sessions && SessionOk(s);
    var matched := Matches(t.row, s, op, now, maxAttempts);
    CountUpdate(WasDeferred, t.sessions, k, Advanced(s, op, matched));
    if matched {
      FenceIsEpoch(t, k, maxAttempts, before, WriteOf(s, op, now, maxAttempts).value);
      WriteKeepsRow(t, op, maxAttempts, before, now);
    }
    hide Distinguishable, SessionOk, Count;
  }

  lemma PerformedKeepsInv(t: Tracked, a: Act, maxAttempts: int, before: int, now: int)
    requires Inv(t, maxAttempts, before) && before <= now && 1 <= maxAttempts
    requires Can(t, a, now)
    ensures Inv(Performed(t, a, now, maxAttempts), maxAttempts, now)
  {
    match a
    case Claim(worker) => ClaimKeepsInv(t, worker, maxAttempts, before, now);
    case Work(k, op) => WorkKeepsInv(t, k, op, maxAttempts, before, now);
    case _ => OthersKeepInv(t, a, maxAttempts, before, now);
  }

  lemma ClaimKeepsInv(t: Tracked, worker: WorkerId, maxAttempts: int, before: int, now: int)
    requires Inv(t, maxAttempts, before) && before <= now && 1 <= maxAttempts
    requires Can(t, Claim(worker), now)
    ensures Inv(Performed(t, Claim(worker), now, maxAttempts), maxAttempts, now)
  {
    var newest := Session(worker, t.row.attempts + 1, Gating, false, false);
    NewestKeepsSessions(t.sessions, newest);
    ClaimKeepsRow(t, worker, maxAttempts, before, now);
    hide SessionOk, Distinguishable, Accounted, HeldByLast, StatusOk;
  }

  lemma ClaimKeepsRow(t: Tracked, worker: WorkerId, maxAttempts: int, before: int, now: int)
    requires Accounted(t, maxAttempts) && StatusOk(t.row, before) && before <= now
    requires Claimable(t.row, now)
    ensures
      var t' := Tracked(Claimed(t.row, worker, now), t.sessions + [Session(worker, t.row.attempts + 1, Gating, false, false)]);
      Accounted(t', maxAttempts) && StatusOk(t'.row, now) && HeldByLast(t', now)
  {
    CountAppend(WasDeferred, t.sessions, Session(worker, t.row.attempts + 1, Gating, false, false));
    hide Count;
  }

  lemma NewestKeepsSessions(ss: seq<Session>, newest: Session)
    requires (forall s :: s in ss ==> SessionOk(s)) && Distinguishable(ss) && SessionOk(newest)
    requires forall s :: s in ss ==> s.phase.Over? || s.worker != newest.worker
    ensures (forall s :: s in ss + [newest] ==> SessionOk(s)) && Distinguishable(ss + [newest])
  {
    hide SessionOk;
    var ss' := ss + [newest];
    forall j, k | 0 <= j < k < |ss'| ensures ss'[j].phase.Over? || ss'[j].worker != ss'[k].worker {
      assert ss'[j] in ss;
    }
  }

  /** A reclaim, a bulk cancellation, a receipt or an anchor changes the row and no session. */
  lemma OthersKeepInv(t: Tracked, a: Act, maxAttempts: int, before: int, now: int)
    requires Inv(t, maxAttempts, before) && before <= now && 1 <= maxAttempts
    requires !a.Claim? && !a.Work? && Can(t, a, now)
    ensures Inv(Performed(t, a, now, maxAttempts), maxAttempts, now)
  {
    hide Distinguishable, SessionOk, WasDeferred, Count, ReclaimDelay;
  }

  /** At most one hand-over per claim, and none in a deferred one. */
  lemma SendsWithinAttempts(t: Tracked, maxAttempts: int, now: int)
    requires Inv(t, maxAttempts, now)
    ensures Sends(t) <= t.row.attempts
  {
    CountDisjoint(WasHanded, WasDeferred, t.sessions);
  }

  // ---------------------------------------------------------------- whole runs

  lemma {:induction false} InvAlongRun(trace: seq<State>, steps: seq<Step>, maxAttempts: int, n: nat, id: nat)
    requires Run(trace, steps, maxAttempts) && 1 <= maxAttempts
    requires n < |trace| && id < |trace[n].rows|
    ensures Inv(trace[n].rows[id], maxAttempts, trace[n].clock)
  {
    if n > 0 {
      var step := steps[n - 1];
      var s := trace[n - 1];
      if id < |s.rows| {
        InvAlongRun(trace, steps, maxAttempts, n - 1, id);
        PerformedKeepsInv(s.rows[id], ActOn(s.rows[id].row, step.event, id), maxAttempts, s.clock, step.now);
      }
    }
  }

  /** No interleaving hands a message to the provider more than `maxAttempts` times, and deferrals cost no attempt. */
  lemma HandedOverAtMostMaxAttempts(trace: seq<State>, steps: seq<Step>, maxAttempts: int, n: nat, id: nat)
    requires Run(trace, steps, maxAttempts) && 1 <= maxAttempts
    requires n < |trace| && id < |trace[n].rows|
    ensures var t := trace[n].rows[id];
      && Sends(t) <= t.row.attempts <= maxAttempts
      && Claims(t) == t.row.attempts + t.row.deferrals
      && t.row.deferrals == Count(WasDeferred, t.sessions)
      && (t.row.deferrals == 0 ==> Claims(t) <= maxAttempts)
  {
    InvAlongRun(trace, steps, maxAttempts, n, id);
    SendsWithinAttempts(trace[n].rows[id], maxAttempts, trace[n].clock);
  }
}
