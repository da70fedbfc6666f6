/** What every run of the delivery protocol keeps, from any of its states to any later one. */
module DeliveryRuns {
  import opened Prelude
  import opened MessageQueue
  import opened Consent
  import opened Delivery

  predicate SameMessage(r: Row, q: Row) {
    && r.tenant == q.tenant && r.contact == q.contact && r.channel == q.channel
    && r.category == q.category && r.address == q.address && r.dedupKey == q.dedupKey
  }

  /** A session never changes hands, never comes back to life and never forgets a hand-over. */
  predicate SessionLater(s: Session, u: Session) {
    && u.worker == s.worker && u.attempts == s.attempts
    && (s.handed ==> u.handed)
    && (s.deferred ==> u.deferred)
    && (s.phase.Over? ==> u == s)
  }

  ghost predicate HistoryLater(ss: seq<Session>, us: seq<Session>) {
    |ss| <= |us| && forall k :: 0 <= k < |ss| ==> SessionLater(ss[k], us[k])
  }

  /** Once off the queue: no further claim, and only a session already approved can still hand over. */
  ghost predicate OffQueueLater(t: Tracked, u: Tracked)
    requires |t.sessions| <= |u.sessions|
  {
    && !Queued(u.row)
    && |u.sessions| == |t.sessions|
    && u.row.attempts == t.row.attempts && u.row.deferrals == t.row.deferrals
    && (t.row.status.Cancelled? ==> u.row.status.Cancelled?)
    && forall k :: 0 <= k < |t.sessions| && !t.sessions[k].phase.Approved? ==>
         !u.sessions[k].phase.Approved? && u.sessions[k].handed == t.sessions[k].handed
  }

  ghost predicate Later(t: Tracked, u: Tracked) {
    && SameMessage(t.row, u.row)
    && HistoryLater(t.sessions, u.sessions)
    && (t.row.sentAt.Some? ==>
          u.row.sentAt == t.row.sentAt && u.row.providerMessageId == t.row.providerMessageId)
    && (!Queued(t.row) ==> OffQueueLater(t, u))
  }

  lemma LaterTransitive(t: Tracked, u: Tracked, v: Tracked)
    requires Later(t, u) && Later(u, v)
    ensures Later(t, v)
  {
    forall k | 0 <= k < |t.sessions| ensures SessionLater(t.sessions[k], v.sessions[k]) {
      assert SessionLater(t.sessions[k], u.sessions[k]) && SessionLater(u.sessions[k], v.sessions[k]);
    }
  }

  /** What a session's step makes of its row: nothing but what the fenced write does. */
  lemma WriteIsLater(r: Row, s: Session, op: Op, maxAttempts: int, now: int)
    ensures
      var w := WriteOf(s, op, now, maxAttempts);
      var q := if w.Some? then Fenced(r, s.worker, w.value) else r;
      && SameMessage(r, q)
      && (r.sentAt.Some? && !r.status.Processing? ==> q.sentAt == r.sentAt && q.providerMessageId == r.providerMessageId)
      && (!Queued(r) ==> q == r)
  {
  }

  lemma WorkedIsLater(t: Tracked, k: nat, op: Op, maxAttempts: int, before: int, now: int)
    requires Inv(t, maxAttempts, before) && before <= now
    requires Can(t, Work(k, op), now)
    ensures Later(t, Worked(t, k, op, now, maxAttempts))
  {
    var s := t.sessions[k];
    assert s in t.sessions;
    assert SessionOk(s);
    assert t.row.status.Processing? ==> t.row.sentAt.None?;
    WriteIsLater(t.row, s, op, maxAttempts, now);
    hide Inv, WriteOf, Fenced, SameMessage;
    assert SessionLater(s, Advanced(s, op, Matches(t.row, s, op, now, maxAttempts)));
  }

  lemma PerformedIsLater(t: Tracked, a: Act, maxAttempts: int, before: int, now: int)
    requires Inv(t, maxAttempts, before) && before <= now
    requires Can(t, a, now)
    ensures Later(t, Performed(t, a, now, maxAttempts))
  {
    if a.Work? {
      WorkedIsLater(t, a.k, a.op, maxAttempts, before, now);
      hide Later, Worked, Inv;
    } else {
      hide Distinguishable, Accounted;
    }
  }

  lemma StepIsLater(s: State, step: Step, maxAttempts: int, id: nat)
    requires Enabled(s, step) && id < |s.rows| && Inv(s.rows[id], maxAttempts, s.clock)
    ensures id < |Next(s, step, maxAttempts).rows| && Later(s.rows[id], Next(s, step, maxAttempts).rows[id])
  {
    hide Inv, Later;
    PerformedIsLater(s.rows[id], ActOn(s.rows[id].row, step.event, id), maxAttempts, s.clock, step.now);
  }

  lemma {:induction false} LaterItself(t: Tracked)
    ensures Later(t, t)
  {
  }

  lemma {:induction false} RunIsLater(trace: seq<State>, steps: seq<Step>, maxAttempts: int, i: nat, j: nat, id: nat)
    requires Run(trace, steps, maxAttempts) && 1 <= maxAttempts
    requires i <= j < |trace| && id < |trace[i].rows|
    ensures id < |trace[j].rows| && Later(trace[i].rows[id], trace[j].rows[id])
    decreases j
  {
    hide Later, Enabled, Next, Inv;
    if i < j {
      RunIsLater(trace, steps, maxAttempts, i, j - 1, id);
      var s, step := trace[j - 1], steps[j - 1];
      InvAlongRun(trace, steps, maxAttempts, j - 1, id);
      assert trace[j - 1 + 1] == Next(s, step, maxAttempts);
      StepIsLater(s, step, maxAttempts, id);
      LaterTransitive(trace[i].rows[id], s.rows[id], trace[j].rows[id]);
    } else {
      LaterItself(trace[i].rows[id]);
    }
  }

  /** `sent_at` is written at most once, and a row that leaves the queue is never claimed or sent for again. */
  lemma LeavesTheQueueForGood(trace: seq<State>, steps: seq<Step>, maxAttempts: int, i: nat, j: nat, id: nat)
    requires Run(trace, steps, maxAttempts) && 1 <= maxAttempts
    requires i <= j < |trace| && id < |trace[i].rows|
    ensures id < |trace[j].rows|
    ensures var t, u := trace[i].rows[id], trace[j].rows[id];
      && (t.row.sentAt.Some? ==> u.row.sentAt == t.row.sentAt)
      && (!Queued(t.row) ==> !Queued(u.row) && Claims(u) == Claims(t))
      && (t.row.status.Cancelled? ==> u.row.status.Cancelled? && u.row.sentAt.None?)
      && (u.row.status.Pending? ==> u.row.claimedAt.None? && u.row.claimedBy.None? && u.row.sentAt.None?)
      && (u.row.deliveredAt.Some? ==> u.row.sentAt.Some? && u.row.sentAt.value <= u.row.deliveredAt.value)
      && (u.row.status.Delivered? ==> u.row.deliveredAt.Some?)
  {
    RunIsLater(trace, steps, maxAttempts, i, j, id);
    InvAlongRun(trace, steps, maxAttempts, j, id);
  }

  /** Of all the sessions a row ever had, only the latest can change it. */
  lemma OnlyTheLatestEpochWrites(trace: seq<State>, steps: seq<Step>, maxAttempts: int, i: nat)
    requires Run(trace, steps, maxAttempts) && 1 <= maxAttempts
    requires i < |steps| && steps[i].event.SessionStep?
    ensures var e := steps[i].event;
      && e.id < |trace[i].rows| <= |trace[i + 1].rows|
      && (trace[i + 1].rows[e.id].row != trace[i].rows[e.id].row ==> e.k == Claims(trace[i].rows[e.id]) - 1)
  {
    var e := steps[i].event;
    var t := trace[i].rows[e.id];
    assert Can(t, ActOn(t.row, e, e.id), steps[i].now);
    InvAlongRun(trace, steps, maxAttempts, i, e.id);
    if Matches(t.row, t.sessions[e.k], e.op, steps[i].now, maxAttempts) {
      FenceIsEpoch(t, e.k, maxAttempts, trace[i].clock,
                   WriteOf(t.sessions[e.k], e.op, steps[i].now, maxAttempts).value);
    }
  }

  // ------------------------------------------------ nothing stranded, retries end

  lemma ReclaimDelayPositive(attempts: int)
    ensures MINUTE_MS <= ReclaimDelay(attempts) <= 60 * MINUTE_MS
  {
    if attempts >= 0 {
      Pow2Positive(attempts);
    }
  }

  lemma {:induction false} Pow2Positive(n: nat)
    ensures 1 <= Pow2(n)
  {
    if n > 0 {
      Pow2Positive(n - 1);
    }
  }

  /** A reclaimed row is claimable exactly from its next attempt on, at most an hour later. */
  lemma RequeuedClaimableExactly(t: Tracked, cutoff: int, maxAttempts: int, before: int, now: int, at: int)
    requires Inv(t, maxAttempts, before) && before <= now
    requires Stale(t.row, cutoff) && t.row.attempts < maxAttempts
    ensures var r := Requeued(t.row, cutoff, maxAttempts, now);
      && r.nextAttemptAt.Some? && now + MINUTE_MS <= r.nextAttemptAt.value <= now + 60 * MINUTE_MS
      && (Claimable(r, at) <==> r.nextAttemptAt.value <= at)
  {
    ReclaimDelayPositive(t.row.attempts);
  }

  /** A retried row is claimable exactly from its next attempt on, whatever the delay. */
  lemma RetriedClaimableExactly(r: Row, worker: WorkerId, w: Write, at: int)
    requires w.Retry? && Fence(r, worker, w)
    ensures Fenced(r, worker, w).nextAttemptAt == Some(w.now + w.delayMs)
    ensures Claimable(Fenced(r, worker, w), at) <==> w.now + w.delayMs <= at
  {
  }

  /** A deferred row is claimable exactly from `until` on, with its attempt given back. */
  lemma DeferredClaimableExactly(t: Tracked, k: nat, w: Write, maxAttempts: int, now: int, at: int)
    requires Inv(t, maxAttempts, now) && k < |t.sessions|
    requires w.Defer? && Fence(t.row, t.sessions[k].worker, w)
    ensures var r := Fenced(t.row, t.sessions[k].worker, w);
      && (Claimable(r, at) <==> w.until <= at)
      && r.attempts == t.row.attempts - 1 && r.deferrals == t.row.deferrals + 1
  {
  }

  ghost predicate StaleOnlyIfSpent(t: Tracked, cutoff: int, maxAttempts: int) {
    Stale(t.row, cutoff) ==> t.row.attempts >= maxAttempts
  }

  lemma {:induction false} StaleOnlyIfSpentAlong(
      trace: seq<State>, steps: seq<Step>, maxAttempts: int, i: nat, j: nat, id: nat, cutoff: int)
    requires Run(trace, steps, maxAttempts) && 1 <= maxAttempts
    requires i < j < |trace| && id < |trace[j].rows|
    requires steps[i].event == RequeueStale(cutoff) && cutoff <= steps[i].now
    ensures StaleOnlyIfSpent(trace[j].rows[id], cutoff, maxAttempts)
    ensures cutoff <= trace[j].clock
    decreases j
  {
    var s, step := trace[j - 1], steps[j - 1];
    assert Enabled(s, step) && trace[j - 1 + 1] == Next(s, step, maxAttempts);
    if i + 1 < j {
      if id < |s.rows| {
        StaleOnlyIfSpentAlong(trace, steps, maxAttempts, i, j - 1, id, cutoff);
      } else {
        ClockAlong(trace, steps, maxAttempts, i + 1, j - 1);
      }
    }
  }

  lemma {:induction false} ClockAlong(trace: seq<State>, steps: seq<Step>, maxAttempts: int, i: nat, j: nat)
    requires Run(trace, steps, maxAttempts) && i <= j < |trace|
    ensures trace[i].clock <= trace[j].clock
    decreases j
  {
    if i < j {
      ClockAlong(trace, steps, maxAttempts, i, j - 1);
      assert Enabled(trace[j - 1], steps[j - 1]);
    }
  }

  /** After both statements of reclaimStale, whatever ran between them, no row is stale any more. */
  lemma NoRowStranded(trace: seq<State>, steps: seq<Step>, maxAttempts: int, i: nat, j: nat, id: nat, cutoff: int)
    requires Run(trace, steps, maxAttempts) && 1 <= maxAttempts
    requires i < j < |steps| && id < |trace[j + 1].rows|
    requires steps[i].event == RequeueStale(cutoff) && cutoff <= steps[i].now
    requires steps[j].event == ExhaustStale(cutoff)
    ensures var r := trace[j + 1].rows[id].row;
      r.status.Processing? ==> r.claimedAt.Some? && cutoff <= r.claimedAt.value
  {
    StaleOnlyIfSpentAlong(trace, steps, maxAttempts, i, j, id, cutoff);
    InvAlongRun(trace, steps, maxAttempts, j + 1, id);
  }

  // ------------------------------------------------------------------- opt-outs

  ghost predicate NotLifted(steps: seq<Step>, i: nat, j: nat, key: Key)
    requires i <= j <= |steps|
  {
    forall n :: i <= n < j ==> steps[n].event != LiftSuppression(key)
  }

  /** A permanent suppression survives everything but an explicit delete, with its first reason. */
  lemma {:induction false} PermanentAlong(
      trace: seq<State>, steps: seq<Step>, maxAttempts: int, i: nat, j: nat, key: Key)
    requires Run(trace, steps, maxAttempts) && i <= j < |trace|
    requires Permanent(trace[i].suppressions, key) && NotLifted(steps, i, j, key)
    ensures Permanent(trace[j].suppressions, key)
    ensures trace[j].suppressions[key] == trace[i].suppressions[key]
    decreases j
  {
    if i < j {
      PermanentAlong(trace, steps, maxAttempts, i, j - 1, key);
      assert trace[j - 1 + 1] == Next(trace[j - 1], steps[j - 1], maxAttempts);
      assert steps[j - 1].event != LiftSuppression(key);
    }
  }

  /** A session that cannot have read the suppression table before state `t`. */
  predicate Unchecked(t: Tracked, k: nat) {
    k >= |t.sessions| || t.sessions[k].phase.Gating?
  }

  predicate NeverHandsOver(s: Session) {
    (s.phase.Gating? || s.phase.Settled? || s.phase.Over?) && !s.handed
  }

  lemma {:induction false} UncheckedStaysBlocked(
      trace: seq<State>, steps: seq<Step>, maxAttempts: int, i: nat, j: nat, key: Key, id: nat, k: nat)
    requires Run(trace, steps, maxAttempts) && 1 <= maxAttempts
    requires i <= j < |trace| && id < |trace[j].rows| && KeyOf(trace[j].rows[id].row) == key
    requires id < |trace[i].rows| ==> Unchecked(trace[i].rows[id], k)
    requires Permanent(trace[i].suppressions, key) && NotLifted(steps, i, j, key)
    ensures k < |trace[j].rows[id].sessions| ==> NeverHandsOver(trace[j].rows[id].sessions[k])
    decreases j
  {
    hide Inv, Enabled, Next, NotLifted;
    InvAlongRun(trace, steps, maxAttempts, j, id);
    if i == j {
      UncheckedIsBlocked(trace[j].rows[id], k, maxAttempts, trace[j].clock);
    } else {
      var s, step := trace[j - 1], steps[j - 1];
      assert Enabled(s, step) && trace[j - 1 + 1] == Next(s, step, maxAttempts);
      NotLiftedBefore(steps, i, j, key);
      if id < |s.rows| {
        RunIsLater(trace, steps, maxAttempts, j - 1, j, id);
        UncheckedStaysBlocked(trace, steps, maxAttempts, i, j - 1, key, id, k);
        PermanentAlong(trace, steps, maxAttempts, i, j - 1, key);
        InvAlongRun(trace, steps, maxAttempts, j - 1, id);
        BlockedStep(s, step, maxAttempts, key, id, k);
      } else {
        NewRowHasNoSession(s, step, maxAttempts, id);
      }
    }
  }

  lemma NotLiftedBefore(steps: seq<Step>, i: nat, j: nat, key: Key)
    requires i < j <= |steps| && NotLifted(steps, i, j, key)
    ensures NotLifted(steps, i, j - 1, key)
  {
  }

  lemma UncheckedIsBlocked(t: Tracked, k: nat, maxAttempts: int, now: int)
    requires Inv(t, maxAttempts, now) && Unchecked(t, k)
    ensures k < |t.sessions| ==> NeverHandsOver(t.sessions[k])
  {
    if k < |t.sessions| {
      assert t.sessions[k] in t.sessions;
      assert SessionOk(t.sessions[k]);
    }
  }

  lemma NewRowHasNoSession(s: State, step: Step, maxAttempts: int, id: nat)
    requires Enabled(s, step) && |s.rows| <= id < |Next(s, step, maxAttempts).rows|
    ensures Next(s, step, maxAttempts).rows[id].sessions == []
  {
  }

  /** While its address is suppressed for good, a session that has not passed the gate does not pass it. */
  lemma BlockedStep(s: State, step: Step, maxAttempts: int, key: Key, id: nat, k: nat)
    requires Enabled(s, step) && id < |s.rows| && KeyOf(s.rows[id].row) == key && Permanent(s.suppressions, key)
    requires k < |s.rows[id].sessions| ==> NeverHandsOver(s.rows[id].sessions[k])
    ensures var t := Next(s, step, maxAttempts).rows[id];
      k < |t.sessions| ==> NeverHandsOver(t.sessions[k])
  {
    var a := ActOn(s.rows[id].row, step.event, id);
    var t := Performed(s.rows[id], a, step.now, maxAttempts);
    assert Next(s, step, maxAttempts).rows[id] == t;
    if a.Work? {
      assert step.event.SessionStep? && step.event.id == id;
      hide WriteOf, Fenced, Matches;
    }
  }

  /**
   * A channel-wide opt-out, in every later state: the covered rows are cancelled for good and no epoch that
   * had not passed refreshClaim is handed over.
   */
  lemma OptOutCancelsForGood(trace: seq<State>, steps: seq<Step>, maxAttempts: int, i: nat, j: nat, id: nat)
    requires Run(trace, steps, maxAttempts) && 1 <= maxAttempts
    requires i < j < |trace| && id < |trace[i].rows|
    requires steps[i].event.OptOut?
    requires var e := steps[i].event;
      Covered(trace[i].rows[id].row, e.tenant, e.contact, e.channel, e.category)
    ensures id < |trace[j].rows|
    ensures var t, u := trace[i].rows[id], trace[j].rows[id];
      && u.row.status.Cancelled?
      && |u.sessions| == |t.sessions|
      && forall k :: 0 <= k < |t.sessions| && !t.sessions[k].phase.Approved? ==>
           u.sessions[k].handed == t.sessions[k].handed
  {
    var t := trace[i].rows[id];
    var v := trace[i + 1].rows[id];
    assert v == Performed(t, ActOn(t.row, steps[i].event, id), steps[i].now, maxAttempts);
    assert v.sessions == t.sessions && v.row.status.Cancelled?;
    RunIsLater(trace, steps, maxAttempts, i + 1, j, id);
  }

  predicate AddressedTo(r: Row, key: Key) {
    r.tenant == key.tenant && r.channel == key.channel && r.address == key.address
  }

  /**
   * The address tests suppressed at every instant after the opt-out until it is deleted, and no row of that
   * address, transactional or not, is handed over by a session that had not read the table before.
   */
  lemma OptOutSuppressesUntilLifted(
      trace: seq<State>, steps: seq<Step>, maxAttempts: int, i: nat, j: nat, key: Key, at: int)
    requires Run(trace, steps, maxAttempts) && 1 <= maxAttempts
    requires i < j < |trace|
    requires steps[i].event.OptOut? && steps[i].event.category.None?
    requires key == Key(steps[i].event.tenant, steps[i].event.channel, steps[i].event.address)
    requires NotLifted(steps, i + 1, j, key)
    ensures Active(trace[j].suppressions, key, at).Some?
    ensures forall id: nat, k: nat ::
      id < |trace[j].rows| && AddressedTo(trace[j].rows[id].row, key) && k < |trace[j].rows[id].sessions| ==>
        (id < |trace[i].rows| ==> Unchecked(trace[i].rows[id], k)) ==> !trace[j].rows[id].sessions[k].handed
  {
    assert trace[i + 1] == Next(trace[i], steps[i], maxAttempts);
    PermanentAlong(trace, steps, maxAttempts, i + 1, j, key);
    forall id: nat, k: nat |
      && id < |trace[j].rows| && AddressedTo(trace[j].rows[id].row, key) && k < |trace[j].rows[id].sessions|
      && (id < |trace[i].rows| ==> Unchecked(trace[i].rows[id], k))
      ensures !trace[j].rows[id].sessions[k].handed
    {
      UncheckedStaysBlocked(trace, steps, maxAttempts, i + 1, j, key, id, k);
    }
  }

  // -------------------------------------------------------- one worker's view

  /** A claim, as the worker that took it knows it: the row and the number of its session. */
  datatype Epoch = Epoch(id: nat, k: nat)

  predicate ByEpoch(step: Step, e: Epoch) {
    step.event.SessionStep? && step.event.id == e.id && step.event.k == e.k
  }

  ghost predicate Holds(s: State, e: Epoch) {
    e.id < |s.rows| && e.k < |s.rows[e.id].sessions|
  }

  ghost function SessionOf(s: State, e: Epoch): Session
    requires Holds(s, e)
  {
    s.rows[e.id].sessions[e.k]
  }

  /** Nobody but the worker itself moves its session. */
  lemma {:induction false} SessionIsPrivate(
      trace: seq<State>, steps: seq<Step>, maxAttempts: int, i: nat, j: nat, e: Epoch)
    requires Run(trace, steps, maxAttempts) && i <= j < |trace|
    requires Holds(trace[i], e)
    requires forall n :: i <= n < j ==> !ByEpoch(steps[n], e)
    ensures Holds(trace[j], e) && SessionOf(trace[j], e) == SessionOf(trace[i], e)
    ensures SameMessage(trace[i].rows[e.id].row, trace[j].rows[e.id].row)
    decreases j
  {
    hide Enabled, Next, SameMessage;
    if i < j {
      SessionIsPrivate(trace, steps, maxAttempts, i, j - 1, e);
      assert Enabled(trace[j - 1], steps[j - 1]);
      assert trace[j - 1 + 1] == Next(trace[j - 1], steps[j - 1], maxAttempts);
      assert !ByEpoch(steps[j - 1], e);
      PrivateStep(trace[j - 1], steps[j - 1], maxAttempts, e);
      SameMessageOn(trace[i].rows[e.id].row, trace[j - 1].rows[e.id].row, trace[j].rows[e.id].row);
    } else {
      SameMessageOn(trace[i].rows[e.id].row, trace[i].rows[e.id].row, trace[i].rows[e.id].row);
    }
  }

  lemma SameMessageOn(r: Row, q: Row, p: Row)
    ensures SameMessage(r, r)
    ensures SameMessage(r, q) && SameMessage(q, p) ==> SameMessage(r, p)
  {
  }

  lemma PrivateStep(s: State, step: Step, maxAttempts: int, e: Epoch)
    requires Enabled(s, step) && Holds(s, e) && !ByEpoch(step, e)
    ensures Holds(Next(s, step, maxAttempts), e) && SessionOf(Next(s, step, maxAttempts), e) == SessionOf(s, e)
    ensures SameMessage(s.rows[e.id].row, Next(s, step, maxAttempts).rows[e.id].row)
  {
    var t, a := s.rows[e.id], ActOn(s.rows[e.id].row, step.event, e.id);
    assert Next(s, step, maxAttempts).rows[e.id] == Performed(t, a, step.now, maxAttempts);
    if a.Work? {
      WriteIsLater(t.row, t.sessions[a.k], a.op, maxAttempts, step.now);
      hide WriteOf, Fenced;
    }
  }
}
