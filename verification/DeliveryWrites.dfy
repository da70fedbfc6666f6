/** What the steps of a run leave in the columns of a row, and what can be read back from them later. */
module DeliveryWrites {
  import opened Prelude
  import opened MessageQueue
  import opened Consent
  import opened Delivery
  import opened DeliveryRuns

  /** The row is in the hands of this worker. */
  predicate HeldBy(r: Row, worker: WorkerId) {
    r.status.Processing? && r.claimedBy == Some(worker)
  }

  /** No attempt is left to the row, whatever the error. */
  predicate Spent(r: Row, providerMax: int, maxAttempts: int) {
    r.attempts >= providerMax || r.attempts >= maxAttempts
  }

  /** From `r`, held by the worker, the step makes `q`. */
  ghost predicate Leaves(r: Row, op: Op, now: int, maxAttempts: int, q: Row) {
    match op
    case RecordSuccess(provider, id) => Sets(MarkSent(provider, id, now), r, q)
    case CancelClaimed(reason) => Sets(MarkCancelled(reason), r, q)
    case DeferClaimed(until) => Sets(Defer(until, now), r, q) && q.attempts == r.attempts - 1
    case RecordError(provider, code, message, class_, providerMax, delayMs) =>
      if class_.Terminal? || Spent(r, providerMax, maxAttempts) then
        Sets(MarkFailed(provider, code, message, class_), r, q)
      else
        && Sets(Retry(provider, code, message, delayMs, now), r, q)
        && (delayMs >= 0 ==> q.scheduledAt == r.scheduledAt)
    case Throw(provider, message) => Sets(MarkFailed(provider, "internal_error", message, Terminal), r, q)
    case RefreshClaim => Sets(Refresh(now), r, q)
    case _ => q == r
  }

  lemma WorkLeaves(t: Tracked, k: nat, op: Op, maxAttempts: int, before: int, now: int)
    requires Inv(t, maxAttempts, before) && before <= now
    requires Can(t, Work(k, op), now)
    ensures
      var q, worker := Worked(t, k, op, now, maxAttempts).row, t.sessions[k].worker;
      if HeldBy(t.row, worker) then k == Claims(t) - 1 && Leaves(t.row, op, now, maxAttempts, q) else q == t.row
  {
    var s := t.sessions[k];
    assert HeldBy(t.row, s.worker) ==> Fence(t.row, s.worker, Refresh(now));
    if HeldBy(t.row, s.worker) {
      FenceIsEpoch(t, k, maxAttempts, before, Refresh(now));
    }
    hide Distinguishable, SessionOk, Accounted;
  }

  predicate Writes(op: Op) {
    op.CancelClaimed? || op.DeferClaimed? || op.RefreshClaim? || op.RecordSuccess? || op.RecordError? || op.Throw?
  }

  /** A worker's write matches exactly while the row is in its hands: a held row was never sent. */
  lemma MatchesWhileHeld(t: Tracked, k: nat, op: Op, maxAttempts: int, before: int, now: int)
    requires Inv(t, maxAttempts, before) && k < |t.sessions|
    ensures Matches(t.row, t.sessions[k], op, now, maxAttempts) <==> Writes(op) && HeldBy(t.row, t.sessions[k].worker)
  {
  }

  /** At that moment the claim is still the row's, and the worker's. */
  ghost predicate HeldIn(s: State, e: Epoch) {
    Holds(s, e) && HeldBy(s.rows[e.id].row, SessionOf(s, e).worker)
  }

  /** Every statement a worker sends, in any run: it writes the row it holds, these columns, and nothing else. */
  lemma WriteLeaves(trace: seq<State>, steps: seq<Step>, maxAttempts: int, i: nat)
    requires Run(trace, steps, maxAttempts) && 1 <= maxAttempts
    requires i < |steps| && steps[i].event.SessionStep?
    ensures var e := steps[i].event;
      && e.id < |trace[i].rows| <= |trace[i + 1].rows| && e.k < Claims(trace[i].rows[e.id])
      && var t, q := trace[i].rows[e.id], trace[i + 1].rows[e.id].row;
         if HeldBy(t.row, t.sessions[e.k].worker)
         then e.k == Claims(t) - 1 && Leaves(t.row, e.op, steps[i].now, maxAttempts, q)
         else q == t.row
  {
    var e, now := steps[i].event, steps[i].now;
    var t := trace[i].rows[e.id];
    assert Enabled(trace[i], steps[i]) && trace[i + 1] == Next(trace[i], steps[i], maxAttempts);
    assert Can(t, ActOn(t.row, e, e.id), now);
    InvAlongRun(trace, steps, maxAttempts, i, e.id);
    hide Leaves, Inv, Worked;
    WorkLeaves(t, e.k, e.op, maxAttempts, trace[i].clock, now);
  }

  // -------------------------------------------------------------- what everyone else does

  /** The claim stamp lies before the cutoff. */
  predicate ClaimedBefore(r: Row, cutoff: int) {
    r.status.Processing? && r.claimedAt.Some? && r.claimedAt.value < cutoff
  }

  /** What an event that is no worker's step makes of the `id`th row. */
  ghost predicate Makes(event: Event, id: nat, r: Row, now: int, maxAttempts: int, q: Row) {
    match event
    case ClaimRows(ids, worker) =>
      if id in ids then
        q == r.(status := Processing, claimedAt := Some(now), claimedBy := Some(worker), attempts := r.attempts + 1)
      else q == r
    case RequeueStale(cutoff) =>
      if ClaimedBefore(r, cutoff) && r.attempts < maxAttempts then
        q == r.(status := Pending, claimedAt := None, claimedBy := None,
                nextAttemptAt := Some(now + ReclaimDelay(r.attempts)))
      else q == r
    case ExhaustStale(cutoff) =>
      if ClaimedBefore(r, cutoff) && r.attempts >= maxAttempts then
        q == r.(status := Failed, claimedAt := None, claimedBy := None, errorClass := Some(Transient),
                errorCode := if r.errorCode.None? then Some("stale_claim_exhausted") else r.errorCode)
      else q == r
    case BulkCancel(ids, code) =>
      if id in ids && (r.status.Pending? || r.status.Processing?) then
        q == r.(status := Cancelled, errorCode := Some(code))
      else q == r
    case OptOut(tenant, contact, channel, _, category, reason) =>
      if (r.status.Pending? || r.status.Processing?) && r.tenant == tenant && r.contact == contact && r.channel == channel
        && r.category != Transactional && (category == None || category == Some(r.category)) then
        q == r.(status := Cancelled,
                errorCode := Some(if category.Some? then "consent_opted_out" else ReasonCode(reason)))
      else q == r
    case ProviderReceipt(k, DeliveredReceipt(at)) =>
      if k == id && r.sentAt.Some? then
        q == r.(status := Delivered, deliveredAt := if at < r.sentAt.value then r.sentAt else Some(at))
      else q == r
    case ProviderReceipt(k, FailureReceipt(status, code)) =>
      if k == id then
        q == r.(status := status, errorCode := if code.None? then r.errorCode else code,
                errorClass := if status == Failed then Some(Terminal) else r.errorClass)
      else q == r
    case ResolveAnchor(k, at) =>
      if k == id && r.status.Pending? && r.scheduledAt == Parked then q == r.(scheduledAt := At(at)) else q == r
    case _ => q == r
  }

  lemma ActMakes(t: Tracked, event: Event, id: nat, now: int, maxAttempts: int)
    requires !event.SessionStep? && Can(t, ActOn(t.row, event, id), now)
    ensures Makes(event, id, t.row, now, maxAttempts, Performed(t, ActOn(t.row, event, id), now, maxAttempts).row)
  {
    hide ReclaimDelay, ReasonCode;
  }

  /** Every step of a run that is no worker's write: what it makes of each row, and that a new row is appended as given. */
  lemma EventMakes(trace: seq<State>, steps: seq<Step>, maxAttempts: int, i: nat, id: nat)
    requires Run(trace, steps, maxAttempts)
    requires i < |steps| && !steps[i].event.SessionStep? && id < |trace[i].rows|
    ensures id < |trace[i + 1].rows|
    ensures Makes(steps[i].event, id, trace[i].rows[id].row, steps[i].now, maxAttempts, trace[i + 1].rows[id].row)
    ensures |trace[i + 1].rows| == |trace[i].rows| + if steps[i].event.Enqueue? then 1 else 0
    ensures steps[i].event.Enqueue? ==> trace[i + 1].rows[|trace[i].rows|].row == steps[i].event.row
  {
    assert Enabled(trace[i], steps[i]) && trace[i + 1] == Next(trace[i], steps[i], maxAttempts);
    hide Makes, Performed, ActOn, Can;
    ActMakes(trace[i].rows[id], steps[i].event, id, steps[i].now, maxAttempts);
  }

  /** Every step of a run: from then on an address is protected exactly if it was, but for these. */
  lemma ProtectionAfter(trace: seq<State>, steps: seq<Step>, maxAttempts: int, i: nat, key: Key, at: int)
    requires Run(trace, steps, maxAttempts) && i < |steps| && steps[i].now <= at
    ensures
      var was, held := Active(trace[i].suppressions, key, at).Some?, Active(trace[i + 1].suppressions, key, at).Some?;
      match steps[i].event
      case OptOut(tenant, _, channel, address, None, reason) =>
        && (held <==> was || key == Key(tenant, channel, address))
        && (key == Key(tenant, channel, address) && Active(trace[i].suppressions, key, steps[i].now).None? ==>
              Active(trace[i + 1].suppressions, key, at).value.reason == reason)
      case Suppress(k, reason, expiresAt) =>
        var covers := expiresAt == None || at < expiresAt.value;
        var free := Active(trace[i].suppressions, key, steps[i].now).None?;
        && (held <==> was || (key == k && covers && (expiresAt == None || free)))
        && (key == k && covers && free ==> Active(trace[i + 1].suppressions, key, at).value.reason == reason)
      case LiftSuppression(k) => held <==> was && key != k
      case _ => held == was
  {
    assert Enabled(trace[i], steps[i]) && trace[i + 1] == Next(trace[i], steps[i], maxAttempts);
  }

  // ------------------------------------------------------------ the provider's message ids

  predicate Succeeds(step: Step) {
    step.event.SessionStep? && step.event.op.RecordSuccess?
  }

  /** The worker's write of a success went through. */
  ghost predicate SentAt(trace: seq<State>, steps: seq<Step>, i: nat, id: nat, providerMessageId: string) {
    && i < |steps| && i < |trace| && Succeeds(steps[i]) && steps[i].event.id == id
    && steps[i].event.op.providerMessageId == providerMessageId
    && id < |trace[i].rows| && steps[i].event.k < |trace[i].rows[id].sessions|
    && HeldBy(trace[i].rows[id].row, trace[i].rows[id].sessions[steps[i].event.k].worker)
  }

  /** Every message id in the table was written by a success of that very row. */
  lemma {:induction false} IdComesFromItsSend(trace: seq<State>, steps: seq<Step>, maxAttempts: int, j: nat, id: nat)
    returns (i: nat)
    requires Run(trace, steps, maxAttempts) && 1 <= maxAttempts
    requires j < |trace| && id < |trace[j].rows| && trace[j].rows[id].row.providerMessageId.Some?
    ensures i < j && SentAt(trace, steps, i, id, trace[j].rows[id].row.providerMessageId.value)
    decreases j
  {
    hide Inv, Leaves;
    var s, step := trace[j - 1], steps[j - 1];
    assert Enabled(s, step) && trace[j - 1 + 1] == Next(s, step, maxAttempts);
    assert id < |s.rows| by {
      assert step.event.Enqueue? ==> step.event.row.providerMessageId.None?;
    }
    var r, q := s.rows[id].row, trace[j].rows[id].row;
    if q.providerMessageId == r.providerMessageId {
      i := IdComesFromItsSend(trace, steps, maxAttempts, j - 1, id);
    } else {
      OnlySuccessWritesIds(s.rows[id], ActOn(r, step.event, id), step.now, maxAttempts);
      WriteLeaves(trace, steps, maxAttempts, j - 1);
      SuccessLeavesId(r, step.event.op, step.now, maxAttempts, q);
      i := j - 1;
    }
  }

  lemma OnlySuccessWritesIds(t: Tracked, a: Act, now: int, maxAttempts: int)
    requires Can(t, a, now)
    ensures Performed(t, a, now, maxAttempts).row.providerMessageId != t.row.providerMessageId ==>
      a.Work? && a.op.RecordSuccess?
  {
  }

  lemma SuccessLeavesId(r: Row, op: Op, now: int, maxAttempts: int, q: Row)
    ensures op.RecordSuccess? && Leaves(r, op, now, maxAttempts, q) ==>
      q.providerMessageId == Some(op.providerMessageId) && q.sentAt == Some(now) && q.status.Sent?
  {
  }

  /** The provider never gives two messages one id. */
  ghost predicate FreshIds(steps: seq<Step>) {
    forall i, j :: 0 <= i < j < |steps| && Succeeds(steps[i]) && Succeeds(steps[j]) ==>
      steps[i].event.op.providerMessageId != steps[j].event.op.providerMessageId
  }

  /**
   * A success that went through: from then on, whatever happens, the row carries its instant and its message id,
   * and no other row carries that id.
   */
  lemma IdNamesItsRow(trace: seq<State>, steps: seq<Step>, maxAttempts: int, i: nat, j: nat, id: nat, pid: string)
    requires Run(trace, steps, maxAttempts) && 1 <= maxAttempts
    requires i < j < |trace| && SentAt(trace, steps, i, id, pid)
    ensures id < |trace[j].rows|
    ensures var r := trace[j].rows[id].row;
      && r.providerMessageId == Some(pid) && r.sentAt == Some(steps[i].now)
      && r.tenant == trace[i].rows[id].row.tenant && r.address == trace[i].rows[id].row.address
    ensures FreshIds(steps) ==>
      forall x :: 0 <= x < |trace[j].rows| && trace[j].rows[x].row.providerMessageId == Some(pid) ==> x == id
  {
    hide Inv, Leaves, Enabled, Next;
    WriteLeaves(trace, steps, maxAttempts, i);
    SuccessLeavesId(trace[i].rows[id].row, steps[i].event.op, steps[i].now, maxAttempts, trace[i + 1].rows[id].row);
    RunIsLater(trace, steps, maxAttempts, i, i + 1, id);
    RunIsLater(trace, steps, maxAttempts, i + 1, j, id);
    if FreshIds(steps) {
      forall x | 0 <= x < |trace[j].rows| && trace[j].rows[x].row.providerMessageId == Some(pid) ensures x == id {
        var n := IdComesFromItsSend(trace, steps, maxAttempts, j, x);
        assert n == i;
      }
    }
  }
}
