/**
 * The worker's code, as it is written: one statement after another, with every other worker,
 * reclaim, cancellation and receipt free to run in between. Each statement it issues is a step
 * of the delivery protocol, so everything proved about runs holds of the code.
 */
module Orchestrator {
  import opened Prelude
  import opened MessageQueue
  import opened Consent
  import opened Delivery
  import opened DeliveryRuns
  import opened DeliveryWrites

  datatype Outcome = SentOut | FailedOut | Skipped | PutOff | AlreadyClaimed

  /** The result of a stretch of gates. */
  datatype Verdict = Pass | NotNow(until: int) | Never(code: string)

  datatype ProviderResult = Accepted(id: string) | Refused(code: string, message: string)

  /** Where an exception escapes, if one does. */
  datatype Fault = NoFault | Loading | Evaluating | Resolving | Refreshing | Sending | Recording | Reporting

  /** Everything one delivery is given by code this model does not look into. */
  datatype Circumstances = Circumstances(
    loaded: bool,
    before: Verdict,        // the gates ahead of notSuppressed
    after: Verdict,         // the gates behind it
    sender: bool,
    provider: string,
    result: ProviderResult,
    class_: ErrorClass,
    providerMax: int,
    delayMs: int,
    fault: Fault,
    recordFails: bool)      // the write that records an escaped exception fails too

  function RowsOf(s: State): (rows: seq<Row>)
    ensures |rows| == |s.rows|
    ensures forall i :: 0 <= i < |rows| ==> rows[i] == s.rows[i].row
  {
    seq(|s.rows|, i requires 0 <= i < |s.rows| => s.rows[i].row)
  }

  function Ids(epochs: seq<Epoch>): seq<nat> {
    seq(|epochs|, i requires 0 <= i < |epochs| => epochs[i].id)
  }

  function Opened(t: Tracked, worker: WorkerId, now: int): Tracked {
    Tracked(Claimed(t.row, worker, now), t.sessions + [Session(worker, t.row.attempts + 1, Gating, false, false)])
  }

  function ClaimedState(s: State, taken: set<nat>, worker: WorkerId, now: int): (s': State)
    ensures |s'.rows| == |s.rows|
  {
    State(seq(|s.rows|, i requires 0 <= i < |s.rows| => if i in taken then Opened(s.rows[i], worker, now) else s.rows[i]),
          s.suppressions, now)
  }

  function NewestEpochs(s: State, ids: seq<nat>): seq<Epoch>
    requires forall i :: 0 <= i < |ids| ==> ids[i] < |s.rows| && s.rows[ids[i]].sessions != []
  {
    seq(|ids|, i requires 0 <= i < |ids| => Epoch(ids[i], |s.rows[ids[i]].sessions| - 1))
  }

  /** The claiming statement is one step of the protocol. */
  lemma ClaimIsStep(s: State, taken: set<nat>, worker: WorkerId, now: int, maxAttempts: int)
    requires s.clock <= now
    requires forall t, x :: t in s.rows && x in t.sessions ==> x.phase.Over? || x.worker != worker
    requires forall i :: i in taken ==> i < |s.rows| && Claimable(s.rows[i].row, now)
    ensures Enabled(s, Step(ClaimRows(taken, worker), now))
    ensures Next(s, Step(ClaimRows(taken, worker), now), maxAttempts) == ClaimedState(s, taken, worker, now)
  {
    var step := Step(ClaimRows(taken, worker), now);
    forall i: nat | i < |s.rows| ensures Can(s.rows[i], ActOn(s.rows[i].row, step.event, i), now) {
      assert s.rows[i] in s.rows;
    }
    assert Next(s, step, maxAttempts).rows == ClaimedState(s, taken, worker, now).rows;
  }

  ghost predicate Owns(s: State, e: Epoch) {
    Holds(s, e) && SessionOf(s, e).phase.Gating? && !SessionOf(s, e).handed
  }

  /** Each row taken carries one new session, and the worker holds it. */
  lemma NewestAreOwned(s: State, ids: seq<nat>, taken: set<nat>, worker: WorkerId, now: int)
    requires forall i :: 0 <= i < |ids| ==> ids[i] < |s.rows| && ids[i] in taken
    requires forall i, j :: 0 <= i < j < |ids| ==> ids[i] != ids[j]
    ensures forall i :: 0 <= i < |ids| ==> ClaimedState(s, taken, worker, now).rows[ids[i]].sessions != []
    ensures var s' := ClaimedState(s, taken, worker, now);
      var epochs := NewestEpochs(s', ids);
      && Ids(epochs) == ids
      && (forall i, j :: 0 <= i < j < |epochs| ==> epochs[i] != epochs[j])
      && forall i :: 0 <= i < |epochs| ==> Owns(s', epochs[i]) && SessionOf(s', epochs[i]).worker == worker
  {
    var s' := ClaimedState(s, taken, worker, now);
    forall i | 0 <= i < |ids| ensures s'.rows[ids[i]] == Opened(s.rows[ids[i]], worker, now) {
    }
  }

  /** A step that is enabled now lengthens the run. */
  lemma RunExtends(trace: seq<State>, steps: seq<Step>, maxAttempts: int, step: Step)
    requires Run(trace, steps, maxAttempts) && Enabled(trace[|trace| - 1], step)
    ensures Run(trace + [Next(trace[|trace| - 1], step, maxAttempts)], steps + [step], maxAttempts)
  {
    var trace' := trace + [Next(trace[|trace| - 1], step, maxAttempts)];
    var steps' := steps + [step];
    forall i {:trigger steps'[i]} | 0 <= i < |steps'|
      ensures Enabled(trace'[i], steps'[i]) && trace'[i + 1] == Next(trace'[i], steps'[i], maxAttempts)
    {
      if i < |steps| {
        assert steps'[i] == steps[i];
      }
    }
  }

  /** The claim of the earliest candidates lengthens the run, and opens a session on each row for the worker. */
  lemma ClaimExtends(trace: seq<State>, steps: seq<Step>, maxAttempts: int, s: State, unlocked: set<nat>, batchSize: nat,
                     ids: seq<nat>, taken: set<nat>, worker: WorkerId, now: int)
    requires Run(trace, steps, maxAttempts) && s == trace[|trace| - 1] && s.clock <= now
    requires forall t, x :: t in s.rows && x in t.sessions ==> x.phase.Over? || x.worker != worker
    requires IsEarliest(RowsOf(s), Candidates(RowsOf(s), unlocked, now), batchSize, ids)
    requires taken == set i | 0 <= i < |RowsOf(s)| && i in ids
    ensures
      var s' := ClaimedState(s, taken, worker, now);
      && Run(trace + [s'], steps + [Step(ClaimRows(taken, worker), now)], maxAttempts)
      && (forall i :: 0 <= i < |ids| ==> ids[i] < |s'.rows| && s'.rows[ids[i]].sessions != [])
      && var epochs := NewestEpochs(s', ids);
         (Ids(epochs) == ids
         && (forall i, j :: 0 <= i < j < |epochs| ==> epochs[i] != epochs[j])
         && forall i :: 0 <= i < |epochs| ==> Owns(s', epochs[i]) && SessionOf(s', epochs[i]).worker == worker)
  {
    CandidatesTaken(s, unlocked, batchSize, ids, taken, now);
    hide Run, Claimable, IsEarliest, Candidates, ClaimedState, NewestEpochs, Owns, SessionOf, Ids;
    ClaimIsStep(s, taken, worker, now, maxAttempts);
    RunExtends(trace, steps, maxAttempts, Step(ClaimRows(taken, worker), now));
    NewestAreOwned(s, ids, taken, worker, now);
  }

  lemma CandidatesTaken(s: State, unlocked: set<nat>, batchSize: nat, ids: seq<nat>, taken: set<nat>, now: int)
    requires IsEarliest(RowsOf(s), Candidates(RowsOf(s), unlocked, now), batchSize, ids)
    requires taken == set i | 0 <= i < |RowsOf(s)| && i in ids
    ensures forall i :: i in taken ==> i < |s.rows| && Claimable(s.rows[i].row, now)
    ensures forall i :: 0 <= i < |ids| ==> ids[i] < |s.rows| && ids[i] in taken
    ensures forall i, j :: 0 <= i < j < |ids| ==> ids[i] != ids[j]
  {
    hide Claimable, NoLater;
  }

  /** The database as a worker sees it. The trace is ghost: it records every state since the queue was empty. */
  class Database {
    var state: State
    const maxAttempts: int
    ghost var trace: seq<State>
    ghost var steps: seq<Step>

    ghost predicate Valid()
      reads this
    {
      1 <= maxAttempts && Run(trace, steps, maxAttempts) && state == trace[|trace| - 1]
    }

    constructor (maxAttempts: int, suppressions: Suppressions, clock: int)
      requires 1 <= maxAttempts
      ensures Valid() && this.maxAttempts == maxAttempts && state.rows == []
    {
      this.maxAttempts := maxAttempts;
      state := State([], suppressions, clock);
      trace, steps := [State([], suppressions, clock)], [];
    }

    /** One statement (or, for `Send` and the suppression gate, one call) of the session `e`. */
    method Issue(e: Epoch, op: Op, now: int) returns (matched: bool)
      requires Valid() && state.clock <= now
      requires Holds(state, e) && Allowed(SessionOf(state, e), op)
      requires op.PassSuppression? ==> Active(state.suppressions, KeyOf(state.rows[e.id].row), now).None?
      modifies this
      ensures Valid()
      ensures steps == old(steps) + [Step(SessionStep(e.id, e.k, op), now)]
      ensures old(trace) <= trace
      ensures Holds(state, e)
      ensures matched == Matches(old(state).rows[e.id].row, old(SessionOf(state, e)), op, now, maxAttempts)
      ensures SessionOf(state, e) == Advanced(old(SessionOf(state, e)), op, matched)
    {
      var t := state.rows[e.id];
      matched := Matches(t.row, t.sessions[e.k], op, now, maxAttempts);
      ghost var step := Step(SessionStep(e.id, e.k, op), now);
      ghost var before := state;
      assert Enabled(before, step);
      state := State(state.rows[e.id := Worked(t, e.k, op, now, maxAttempts)], state.suppressions, now);
      assert state.rows == Next(before, step, maxAttempts).rows;
      RunExtends(trace, steps, maxAttempts, step);
      trace, steps := trace + [state], steps + [step];
    }

    /**
     * Everyone else runs: any number of steps of any kind, except steps of the caller's own sessions. Callers know
     * the contract only, which allows all of them; that nothing happens is the one run this body picks.
     */
    method Others(ghost mine: set<Epoch>)
      requires Valid()
      modifies this
      ensures Valid()
      ensures Since(old(trace), old(steps), trace, steps, mine)
    {
    }

    /** claimBatch: one atomic step that opens one session on each row it takes. */
    method ClaimBatch(worker: WorkerId, batchSize: nat, unlocked: set<nat>, now: int) returns (epochs: seq<Epoch>)
      requires Valid() && state.clock <= now
      requires forall t, s :: t in state.rows && s in t.sessions ==> s.phase.Over? || s.worker != worker
      modifies this
      ensures Valid()
      ensures old(trace) <= trace
      ensures IsEarliest(RowsOf(old(state)), Candidates(RowsOf(old(state)), unlocked, now), batchSize, Ids(epochs))
      ensures forall i, j :: 0 <= i < j < |epochs| ==> epochs[i] != epochs[j]
      ensures forall i :: 0 <= i < |epochs| ==>
        Owns(state, epochs[i]) && SessionOf(state, epochs[i]).worker == worker
    {
      hide Run, Claimable, IsEarliest, ClaimedState, NewestEpochs, Owns, SessionOf, Ids;
      var rows := RowsOf(state);
      var ids := SelectEarliest(rows, Candidates(rows, unlocked, now), batchSize);
      var taken := set i | 0 <= i < |rows| && i in ids;
      ClaimExtends(trace, steps, maxAttempts, state, unlocked, batchSize, ids, taken, worker, now);
      state := ClaimedState(state, taken, worker, now);
      trace, steps := trace + [state], steps + [Step(ClaimRows(taken, worker), now)];
      epochs := NewestEpochs(state, ids);
    }

    method Now() returns (now: int)
      ensures state.clock <= now
    {
      now := state.clock;
    }
  }

  /** The history grew, and `untouched` sessions took no step in the new part. */
  ghost predicate Since(trace: seq<State>, steps: seq<Step>, trace': seq<State>, steps': seq<Step>, untouched: set<Epoch>) {
    && trace <= trace' && steps <= steps'
    && forall n, e :: |steps| <= n < |steps'| && e in untouched ==> !ByEpoch(steps'[n], e)
  }

  /** A session the caller owns is where the caller left it. */
  lemma StillThere(db: Database, trace: seq<State>, steps: seq<Step>, e: Epoch)
    requires db.Valid() && |trace| == |steps| + 1
    requires Since(trace, steps, db.trace, db.steps, {e})
    requires Holds(trace[|trace| - 1], e)
    ensures Holds(db.state, e) && SessionOf(db.state, e) == SessionOf(trace[|trace| - 1], e)
    ensures SameMessage(trace[|trace| - 1].rows[e.id].row, db.state.rows[e.id].row)
  {
    assert db.trace[|trace| - 1] == trace[|trace| - 1];
    SessionIsPrivate(db.trace, db.steps, db.maxAttempts, |trace| - 1, |db.trace| - 1, e);
  }

  /** Between two statements of the session `e`. */
  method Interleave(db: Database, e: Epoch, ghost mine: set<Epoch>) returns (now: int)
    requires db.Valid() && e in mine && Holds(db.state, e)
    modifies db
    ensures db.Valid() && Since(old(db.trace), old(db.steps), db.trace, db.steps, mine)
    ensures Holds(db.state, e) && SessionOf(db.state, e) == old(SessionOf(db.state, e))
    ensures db.state.clock <= now
  {
    ghost var trace, steps := db.trace, db.steps;
    db.Others(mine);
    StillThere(db, trace, steps, e);
    now := db.Now();
  }

  /** The number of the present state. */
  ghost function Here(trace: seq<State>): nat {
    if trace == [] then 0 else |trace| - 1
  }

  /** The last thing the session `e` did. */
  ghost function LastOp(steps: seq<Step>, e: Epoch): Option<Op> {
    if steps == [] then None
    else
      var last := steps[|steps| - 1];
      if ByEpoch(last, e) then Some(last.event.op) else LastOp(steps[..|steps| - 1], e)
  }

  /** One statement of the session, after everyone else had a chance to run. */
  method Proceed(db: Database, e: Epoch, op: Op, ghost mine: set<Epoch>) returns (matched: bool)
    requires db.Valid() && e in mine && Holds(db.state, e)
    requires Allowed(SessionOf(db.state, e), op) && !op.PassSuppression?
    modifies db
    ensures db.Valid() && Since(old(db.trace), old(db.steps), db.trace, db.steps, mine - {e})
    ensures Holds(db.state, e) && SessionOf(db.state, e) == Advanced(old(SessionOf(db.state, e)), op, matched)
    ensures LastOp(db.steps, e) == Some(op)
    ensures Here(old(db.trace)) + 1 < |db.trace| && IssuedLast(db.trace, db.steps, e, op, matched)
  {
    RunLength(db.trace, db.steps, db.maxAttempts);
    var now := Interleave(db, e, mine);
    ghost var before := db.state;
    InvAlongRun(db.trace, db.steps, db.maxAttempts, |db.trace| - 1, e.id);
    MatchesWhileHeld(before.rows[e.id], e.k, op, db.maxAttempts, before.clock, now);
    matched := db.Issue(e, op, now);
  }

  /** The last step is this statement, and it matched if it is a write on a row the worker held at that moment. */
  ghost predicate IssuedLast(trace: seq<State>, steps: seq<Step>, e: Epoch, op: Op, matched: bool) {
    && |trace| == |steps| + 1 && steps != []
    && ByEpoch(steps[|steps| - 1], e) && steps[|steps| - 1].event.op == op
    && (matched <==> Writes(op) && HeldIn(trace[|trace| - 2], e))
  }

  /** What the provider's answer asks the worker to write. */
  function WriteFor(c: Circumstances): Op {
    match c.result
    case Accepted(id) => RecordSuccess(c.provider, id)
    case Refused(code, message) => RecordError(c.provider, code, message, c.class_, c.providerMax, c.delayMs)
  }

  /** No attempt is left to a refused message. */
  predicate GivesUp(c: Circumstances, attempts: int, maxAttempts: int) {
    c.class_.Terminal? || attempts >= Min(c.providerMax, maxAttempts)
  }

  /** At this moment the row's address is suppressed, for this reason. */
  ghost predicate SuppressedIn(s: State, id: nat, reason: Reason) {
    id < |s.rows| &&
    var r := s.rows[id].row;
    var found := Active(s.suppressions, Key(r.tenant, r.channel, r.address), s.clock);
    found.Some? && found.value.reason == reason
  }

  /** In some state from number `from` on it was. */
  ghost predicate WasSuppressed(trace: seq<State>, from: nat, id: nat, reason: Reason) {
    exists n: nat {:trigger SuppressedIn(trace[n], id, reason)} ::
      from <= n < |trace| && SuppressedIn(trace[n], id, reason)
  }

  lemma StillWasSuppressed(trace: seq<State>, trace': seq<State>, from: nat, from': nat, id: nat, reason: Reason)
    requires WasSuppressed(trace, from, id, reason) && trace <= trace' && from' <= from
    ensures WasSuppressed(trace', from', id, reason)
  {
    var n: nat :| from <= n < |trace| && SuppressedIn(trace[n], id, reason);
    assert trace'[n] == trace[n];
  }

  /** The gate's refusal names a reason for which the address was suppressed when the gate read the table. */
  ghost predicate RefusedBySuppression(trace: seq<State>, from: nat, id: nat, v: Verdict) {
    exists reason {:trigger ReasonCode(reason)} ::
      v == Never(ReasonCode(reason)) && WasSuppressed(trace, from, id, reason)
  }

  lemma StillRefused(trace: seq<State>, trace': seq<State>, from: nat, from': nat, id: nat, v: Verdict)
    requires RefusedBySuppression(trace, from, id, v) && trace <= trace' && from' <= from
    ensures RefusedBySuppression(trace', from', id, v)
  {
    hide WasSuppressed;
    var reason {:trigger ReasonCode(reason)} :| v == Never(ReasonCode(reason)) && WasSuppressed(trace, from, id, reason);
    StillWasSuppressed(trace, trace', from, from', id, reason);
    assert v == Never(ReasonCode(reason));
  }

  /** The outcome of one delivery, and the last statement it issued, are the ones its circumstances call for. */
  ghost predicate Reports(c: Circumstances, s: Session, maxAttempts: int, o: Outcome, op: Op,
                          trace: seq<State>, from: nat, id: nat) {
    if !c.loaded then o.Skipped? && op == CancelClaimed("recipient_not_found")
    else if c.before.NotNow? then o.PutOff? && op == DeferClaimed(c.before.until)
    else if c.before.Never? then o.Skipped? && op == CancelClaimed(c.before.code)
    else if s.handed then
      && op == WriteFor(c)
      && o == (if c.result.Accepted? then SentOut else if GivesUp(c, s.attempts, maxAttempts) then FailedOut else PutOff)
    else
      match o
      case AlreadyClaimed => c.after.Pass? && c.sender && op == RefreshClaim
      case PutOff => c.after.NotNow? && op == DeferClaimed(c.after.until)
      case Skipped =>
        && op.CancelClaimed?
        && (|| RefusedBySuppression(trace, from, id, Never(op.reason))
            || (c.after.Never? && op.reason == c.after.code)
            || (c.after.Pass? && !c.sender && op.reason == "no_recipient_address"))
      case _ => false
  }

  /** The suppression gate: it passes an address that is not in force when read, and refuses only one that is. */
  method NotSuppressed(db: Database, e: Epoch, ghost mine: set<Epoch>) returns (v: Verdict)
    requires db.Valid() && e in mine && Holds(db.state, e) && SessionOf(db.state, e).phase.Gating?
    modifies db
    ensures db.Valid() && Since(old(db.trace), old(db.steps), db.trace, db.steps, mine - {e})
    ensures Holds(db.state, e)
    ensures SessionOf(db.state, e) ==
      if v.Pass? then old(SessionOf(db.state, e)).(phase := Cleared) else old(SessionOf(db.state, e))
    ensures v.Pass? || RefusedBySuppression(db.trace, Here(old(db.trace)), e.id, v)
  {
    var now := Interleave(db, e, mine);
    var found := Active(db.state.suppressions, KeyOf(db.state.rows[e.id].row), now);
    if found.Some? {
      assert SuppressedIn(db.trace[|db.trace| - 1], e.id, found.value.reason);
      return Never(ReasonCode(found.value.reason));
    }
    var _ := db.Issue(e, PassSuppression, now);
    v := Pass;
  }

  /** runGates: the first gate that does not pass decides. */
  method RunGates(db: Database, e: Epoch, c: Circumstances, ghost mine: set<Epoch>) returns (v: Verdict)
    requires db.Valid() && e in mine && Holds(db.state, e) && SessionOf(db.state, e).phase.Gating?
    modifies db
    ensures db.Valid() && Since(old(db.trace), old(db.steps), db.trace, db.steps, mine - {e})
    ensures Holds(db.state, e)
    ensures var s := SessionOf(db.state, e);
      && s == old(SessionOf(db.state, e)).(phase := s.phase)
      && (s.phase.Gating? || s.phase.Cleared?)
      && (v.Pass? ==> s.phase.Cleared? && c.before.Pass? && c.after.Pass?)
    ensures if !c.before.Pass? then v == c.before
            else v == c.after || (v.Never? && RefusedBySuppression(db.trace, Here(old(db.trace)), e.id, v))
  {
    if !c.before.Pass? {
      return c.before;
    }
    v := NotSuppressed(db, e, mine);
    if v.Pass? {
      v := c.after;
    }
  }

  /**
   * The write that ends a delivery, and the decision log after it. Either may throw: before the write happened, or
   * after it did.
   */
  method Conclude(db: Database, e: Epoch, op: Op, o: Outcome, c: Circumstances, logged: bool, ghost mine: set<Epoch>)
    returns (r: Result<Outcome, string>)
    requires db.Valid() && e in mine && Holds(db.state, e) && Allowed(SessionOf(db.state, e), op)
    requires op.CancelClaimed? || op.DeferClaimed? || op.RecordSuccess? || op.RecordError?
    modifies db
    ensures db.Valid() && Since(old(db.trace), old(db.steps), db.trace, db.steps, mine - {e})
    ensures Holds(db.state, e)
    ensures SessionOf(db.state, e).handed == old(SessionOf(db.state, e)).handed
    ensures SessionOf(db.state, e).attempts == old(SessionOf(db.state, e)).attempts
    ensures if c.fault.Recording? then r.Err? && SessionOf(db.state, e) == old(SessionOf(db.state, e))
            else SessionOf(db.state, e).phase.Settled? && LastOp(db.steps, e) == Some(op)
    ensures r == Ok(o) || (r.Err? && (c.fault.Recording? || (logged && c.fault.Reporting?)))
  {
    if c.fault.Recording? {
      SinceItself(db.trace, db.steps, mine - {e});
      return Err("write");
    }
    var _ := Proceed(db, e, op, mine);
    if logged && c.fault.Reporting? {
      return Err("recordDecision");
    }
    r := Ok(o);
  }

  lemma SinceItself(trace: seq<State>, steps: seq<Step>, untouched: set<Epoch>)
    ensures Since(trace, steps, trace, steps, untouched)
  {
  }

  lemma SinceThen(trace: seq<State>, steps: seq<Step>, trace': seq<State>, steps': seq<Step>,
                  trace'': seq<State>, steps'': seq<Step>, untouched: set<Epoch>)
    requires Since(trace, steps, trace', steps', untouched) && Since(trace', steps', trace'', steps'', untouched)
    ensures Since(trace, steps, trace'', steps'', untouched)
  {
  }

  /**
   * deliverClaimed. An error result is an exception that escapes. The message is handed over at most once,
   * only after every gate passed and the refreshed claim matched.
   */
  method DeliverClaimed(db: Database, e: Epoch, c: Circumstances, ghost mine: set<Epoch>)
    returns (r: Result<Outcome, string>)
    requires db.Valid() && e in mine && Holds(db.state, e)
    requires SessionOf(db.state, e).phase.Gating? && !SessionOf(db.state, e).handed
    modifies db
    ensures db.Valid() && Since(old(db.trace), old(db.steps), db.trace, db.steps, mine - {e})
    ensures Holds(db.state, e)
    ensures var s := SessionOf(db.state, e);
      && !s.phase.Over?
      && (r.Ok? ==> s.phase.Settled?)
      && (s.handed ==> c.loaded && c.before.Pass? && c.after.Pass? && c.sender)
      && s.attempts == old(SessionOf(db.state, e)).attempts
      && (r.Ok? ==> LastOp(db.steps, e).Some?
                    && Reports(c, s, db.maxAttempts, r.value, LastOp(db.steps, e).value,
                               db.trace, Here(old(db.trace)), e.id))
    ensures r.Err? ==> !c.fault.NoFault?
  {
    hide Since, Run, Holds, RefusedBySuppression, LastOp;
    ghost var trace, steps := db.trace, db.steps;
    SinceItself(trace, steps, mine - {e});
    if c.fault.Loading? {
      return Err("loadContext");
    }
    if !c.loaded {
      r := Conclude(db, e, CancelClaimed("recipient_not_found"), Skipped, c, false, mine);
      return;
    }
    if c.fault.Evaluating? {
      return Err("gate");
    }
    var gate := RunGates(db, e, c, mine);
    ghost var trace', steps' := db.trace, db.steps;
    match gate {
      case NotNow(until) =>
        r := Conclude(db, e, DeferClaimed(until), PutOff, c, true, mine);
      case Never(code) =>
        r := Conclude(db, e, CancelClaimed(code), Skipped, c, true, mine);
        if c.before.Pass? && gate != c.after {
          TracesGrow(trace', steps', db.trace, db.steps, mine - {e});
          StillRefused(trace', db.trace, Here(trace), Here(trace), e.id, gate);
        }
      case Pass =>
        r := SendIfStillOurs(db, e, c, mine);
    }
    SinceThen(trace, steps, trace', steps', db.trace, db.steps, mine - {e});
  }

  lemma TracesGrow(trace: seq<State>, steps: seq<Step>, trace': seq<State>, steps': seq<Step>, untouched: set<Epoch>)
    requires Since(trace, steps, trace', steps', untouched)
    ensures trace <= trace'
  {
  }

  /** deliverClaimed once every gate has passed. */
  method SendIfStillOurs(db: Database, e: Epoch, c: Circumstances, ghost mine: set<Epoch>)
    returns (r: Result<Outcome, string>)
    requires db.Valid() && e in mine && Holds(db.state, e)
    requires SessionOf(db.state, e).phase.Cleared? && !SessionOf(db.state, e).handed
    modifies db
    ensures db.Valid() && Since(old(db.trace), old(db.steps), db.trace, db.steps, mine - {e})
    ensures Holds(db.state, e)
    ensures var s := SessionOf(db.state, e);
      && !s.phase.Over? && (r.Ok? ==> s.phase.Settled? && LastOp(db.steps, e).Some?)
      && s.attempts == old(SessionOf(db.state, e)).attempts
      && (s.handed ==> c.sender)
      && (r.Ok? && s.handed ==> LastOp(db.steps, e) == Some(WriteFor(c)))
      && (r.Ok? && s.handed ==> r.value == if c.result.Accepted? then SentOut
                                           else if GivesUp(c, s.attempts, db.maxAttempts) then FailedOut else PutOff)
      && (r.Ok? && !s.handed && c.sender ==> r.value.AlreadyClaimed? && LastOp(db.steps, e) == Some(RefreshClaim))
      && (r.Ok? && !c.sender ==>
            r.value.Skipped? && LastOp(db.steps, e) == Some(CancelClaimed("no_recipient_address")))
    ensures r.Err? ==> !c.fault.NoFault?
  {
    hide Since, Run, Holds, LastOp;
    ghost var trace, steps := db.trace, db.steps;
    SinceItself(trace, steps, mine - {e});
    if c.fault.Resolving? {
      return Err("resolveSender");
    }
    if !c.sender {
      r := Conclude(db, e, CancelClaimed("no_recipient_address"), Skipped, c, true, mine);
      return;
    }
    if c.fault.Refreshing? {
      return Err("refreshClaim");
    }
    var stillOurs := Proceed(db, e, RefreshClaim, mine);
    if !stillOurs {
      return if c.fault.Reporting? then Err("recordDecision") else Ok(AlreadyClaimed);
    }
    ghost var trace', steps' := db.trace, db.steps;
    r := HandOver(db, e, c, mine);
    SinceThen(trace, steps, trace', steps', db.trace, db.steps, mine - {e});
  }

  /** The rest of deliverClaimed: the irreversible call and the record of its result. */
  method HandOver(db: Database, e: Epoch, c: Circumstances, ghost mine: set<Epoch>) returns (r: Result<Outcome, string>)
    requires db.Valid() && e in mine && Holds(db.state, e) && SessionOf(db.state, e).phase.Approved?
    modifies db
    ensures db.Valid() && Since(old(db.trace), old(db.steps), db.trace, db.steps, mine - {e})
    ensures Holds(db.state, e)
    ensures var s := SessionOf(db.state, e);
      && s.handed && !s.phase.Over?
      && s.attempts == old(SessionOf(db.state, e)).attempts
      && (r.Ok? ==> s.phase.Settled? && LastOp(db.steps, e) == Some(WriteFor(c)))
      && (r.Ok? ==> r.value == if c.result.Accepted? then SentOut
                               else if GivesUp(c, s.attempts, db.maxAttempts) then FailedOut else PutOff)
    ensures r.Err? ==> !c.fault.NoFault?
  {
    hide Since, Run, Holds, LastOp;
    ghost var trace, steps := db.trace, db.steps;
    var snapshot := AttemptsOf(db, e);
    var _ := Proceed(db, e, Send, mine);
    if c.fault.Sending? {
      return Err("send");
    }
    ghost var trace', steps' := db.trace, db.steps;
    match c.result {
      case Accepted(id) =>
        r := Conclude(db, e, RecordSuccess(c.provider, id), SentOut, c, true, mine);
      case Refused(code, message) =>
        var givesUp := c.class_.Terminal? || snapshot >= Min(c.providerMax, db.maxAttempts);
        r := Conclude(db, e, RecordError(c.provider, code, message, c.class_, c.providerMax, c.delayMs),
                      if givesUp then FailedOut else PutOff, c, true, mine);
    }
    SinceThen(trace, steps, trace', steps', db.trace, db.steps, mine - {e});
  }

  /** message.attempts, as claimed. */
  method AttemptsOf(db: Database, e: Epoch) returns (attempts: int)
    requires Holds(db.state, e)
    ensures attempts == SessionOf(db.state, e).attempts
  {
    attempts := db.state.rows[e.id].sessions[e.k].attempts;
  }

  /** deliverOneSafely: never an exception. A caught one is recorded, unless the row is no longer ours to record on. */
  method DeliverOneSafely(db: Database, e: Epoch, c: Circumstances, ghost mine: set<Epoch>) returns (outcome: Outcome)
    requires db.Valid() && e in mine && Holds(db.state, e)
    requires SessionOf(db.state, e).phase.Gating? && !SessionOf(db.state, e).handed
    modifies db
    ensures db.Valid() && Since(old(db.trace), old(db.steps), db.trace, db.steps, mine - {e})
    ensures Holds(db.state, e) && SessionOf(db.state, e).phase.Over?
    ensures SessionOf(db.state, e).handed ==> c.before.Pass? && c.after.Pass? && c.sender
    ensures Witnessed(db.trace, Here(old(db.trace)), db.state, e, c, outcome)
  {
    hide Since, Run, RefusedBySuppression, LastOp;
    ghost var trace, steps := db.trace, db.steps;
    var claimed := db.state.rows[e.id].row;
    var r := DeliverClaimed(db, e, c, mine);
    ghost var trace', steps' := db.trace, db.steps;
    ghost var s := SessionOf(db.state, e);
    match r {
      case Ok(o) =>
        ghost var op := LastOp(db.steps, e).value;
        var _ := Proceed(db, e, Finish, mine);
        outcome := o;
        TracesGrow(trace', steps', db.trace, db.steps, mine - {e});
        ReportIsWitnessed(c, s, db.maxAttempts, o, op, trace', db.trace, Here(trace), e.id);
      case Err(message) =>
        if c.recordFails {
          // The row stays as it is, for reclaimStale to find.
          var _ := Proceed(db, e, Crash, mine);
          SinceThen(trace, steps, trace', steps', db.trace, db.steps, mine - {e});
          return FailedOut;
        }
        var provider := if claimed.provider.Some? then claimed.provider.value else "unknown";
        var recorded := Proceed(db, e, Throw(provider, message), mine);
        outcome := if recorded then FailedOut else SentOut;
        TracesGrow(trace, steps, trace', steps', mine - {e});
        TracesGrow(trace', steps', db.trace, db.steps, mine - {e});
        RunLength(trace, steps, db.maxAttempts);
        assert db.trace[Here(trace)] == trace[Here(trace)];
        CaughtNow(db.trace, db.steps, db.maxAttempts, Here(trace), e, provider, message, recorded, c);
    }
    SinceThen(trace, steps, trace', steps', db.trace, db.steps, mine - {e});
  }

  datatype Summary = Summary(claimed: nat, sent: nat, failed: nat, deferred: nat, skipped: nat, refusedWithoutClaim: bool)

  ghost predicate Finished(s: State, e: Epoch) {
    Holds(s, e) && SessionOf(s, e).phase.Over?
  }

  function Tally(os: seq<Outcome>): Summary {
    Summary(|os|, Count((o: Outcome) => o.SentOut?, os), Count((o: Outcome) => o.FailedOut?, os),
            Count((o: Outcome) => o.PutOff?, os),
            Count((o: Outcome) => o.Skipped? || o.AlreadyClaimed?, os), false)
  }

  lemma TallyStep(os: seq<Outcome>, o: Outcome)
    ensures
      var t := Tally(os);
      Tally(os + [o]) == Summary(t.claimed + 1,
        t.sent + (if o.SentOut? then 1 else 0), t.failed + (if o.FailedOut? then 1 else 0),
        t.deferred + (if o.PutOff? then 1 else 0), t.skipped + (if o.Skipped? || o.AlreadyClaimed? then 1 else 0), false)
  {
    CountAppend((x: Outcome) => x.SentOut?, os, o);
    CountAppend((x: Outcome) => x.FailedOut?, os, o);
    CountAppend((x: Outcome) => x.PutOff?, os, o);
    CountAppend((x: Outcome) => x.Skipped? || x.AlreadyClaimed?, os, o);
  }

  /** Why a row may be skipped without being sent. */
  ghost predicate SkipCalledFor(c: Circumstances, trace: seq<State>, from: nat, id: nat) {
    !c.loaded || c.before.Never? || c.after.Never? || !c.sender
    || exists reason :: WasSuppressed(trace, from, id, reason)
  }

  /** What an outcome means, when nothing was thrown, of a session that ended with or without a hand-over. */
  ghost predicate Means(handed: bool, c: Circumstances, o: Outcome, trace: seq<State>, from: nat, id: nat) {
    match o
    case SentOut => handed && c.result.Accepted?
    case FailedOut => handed && c.result.Refused?
    case PutOff => if handed then c.result.Refused? else c.before.NotNow? || c.after.NotNow?
    case Skipped => !handed && SkipCalledFor(c, trace, from, id)
    case AlreadyClaimed => !handed && c.before.Pass? && c.after.Pass? && c.sender
  }

  /**
   * The write that records a caught exception: the row failed, for good, with that code, and under the provider it
   * had in an earlier state.
   */
  ghost predicate FailedInside(trace: seq<State>, from: nat, m: nat, n: nat, id: nat) {
    && from <= m <= n < |trace| && id < |trace[m].rows| && id < |trace[n].rows|
    && var was, r := trace[m].rows[id].row.provider, trace[n].rows[id].row;
       (r.status.Failed? && r.errorCode == Some("internal_error") && r.errorClass == Some(Terminal)
       && r.provider == if was.None? then Some("unknown") else was)
  }

  ghost predicate WasLost(trace: seq<State>, from: nat, e: Epoch) {
    exists n: nat {:trigger HeldIn(trace[n], e)} :: from <= n < |trace| && !HeldIn(trace[n], e)
  }

  ghost predicate HasFailedInside(trace: seq<State>, from: nat, id: nat) {
    exists m: nat, n: nat :: FailedInside(trace, from, m, n, id)
  }

  /**
   * What the outcome of a caught exception says: failed, when the row was the worker's to record on (or when that
   * write failed too), and sent when the row was no longer in its hands.
   */
  ghost predicate CaughtAs(trace: seq<State>, from: nat, e: Epoch, c: Circumstances, o: Outcome) {
    match o
    case SentOut => WasLost(trace, from, e)
    case FailedOut => c.recordFails || HasFailedInside(trace, from, e.id)
    case _ => false
  }

  ghost predicate Witnessed(trace: seq<State>, from: nat, s: State, e: Epoch, c: Circumstances, o: Outcome) {
    && Holds(s, e)
    && (|| Means(SessionOf(s, e).handed, c, o, trace, from, e.id)
        || (!c.fault.NoFault? && CaughtAs(trace, from, e, c, o)))
  }

  lemma StillCaught(trace: seq<State>, trace': seq<State>, from: nat, from': nat, e: Epoch, c: Circumstances, o: Outcome)
    requires CaughtAs(trace, from, e, c, o) && trace <= trace' && from' <= from
    ensures CaughtAs(trace', from', e, c, o)
  {
    hide HeldIn;
    if o.SentOut? {
      var n: nat :| from <= n < |trace| && !HeldIn(trace[n], e);
      assert trace'[n] == trace[n];
    } else if !c.recordFails {
      var m: nat, n: nat :| FailedInside(trace, from, m, n, e.id);
      assert trace'[m] == trace[m] && trace'[n] == trace[n];
      assert FailedInside(trace', from', m, n, e.id);
    }
  }

  /** The statement that records a caught exception has just been issued. */
  lemma CaughtNow(trace: seq<State>, steps: seq<Step>, maxAttempts: int, from: nat, e: Epoch, provider: string,
                  message: string, matched: bool, c: Circumstances)
    requires Run(trace, steps, maxAttempts) && 1 <= maxAttempts && from + 1 < |trace| && e.id < |trace[from].rows|
    requires var was := trace[from].rows[e.id].row.provider; provider == if was.Some? then was.value else "unknown"
    requires IssuedLast(trace, steps, e, Throw(provider, message), matched)
    ensures CaughtAs(trace, from, e, c, if matched then FailedOut else SentOut)
  {
    var n := |steps| - 1;
    hide Inv;
    WriteLeaves(trace, steps, maxAttempts, n);
    if matched {
      assert FailedInside(trace, from, from, n + 1, e.id);
    } else {
      assert !HeldIn(trace[n], e);
    }
  }

  lemma ReportIsWitnessed(c: Circumstances, s: Session, maxAttempts: int, o: Outcome, op: Op,
                          trace: seq<State>, trace': seq<State>, from: nat, id: nat)
    requires Reports(c, s, maxAttempts, o, op, trace, from, id) && trace <= trace'
    requires s.handed ==> c.loaded && c.before.Pass? && c.after.Pass? && c.sender
    ensures Means(s.handed, c, o, trace', from, id)
  {
    if o.Skipped? && !s.handed && op.CancelClaimed? && RefusedBySuppression(trace, from, id, Never(op.reason)) {
      StillRefused(trace, trace', from, from, id, Never(op.reason));
      var reason {:trigger ReasonCode(reason)} :|
        Never(op.reason) == Never(ReasonCode(reason)) && WasSuppressed(trace', from, id, reason);
    }
  }

  lemma StillMeans(handed: bool, c: Circumstances, o: Outcome, trace: seq<State>, trace': seq<State>,
                   from: nat, from': nat, id: nat)
    requires Means(handed, c, o, trace, from, id) && trace <= trace' && from' <= from
    ensures Means(handed, c, o, trace', from', id)
  {
    hide WasSuppressed;
    forall reason | WasSuppressed(trace, from, id, reason) ensures WasSuppressed(trace', from', id, reason) {
      StillWasSuppressed(trace, trace', from, from', id, reason);
    }
    assert SkipCalledFor(c, trace, from, id) ==> SkipCalledFor(c, trace', from', id);
  }

  /** The loop of processQueue and flushMessages. Whatever goes wrong with one row, every claimed row is finished. */
  method Drain(db: Database, epochs: seq<Epoch>, circumstances: seq<Circumstances>)
    returns (summary: Summary, ghost outcomes: seq<Outcome>)
    requires db.Valid() && |circumstances| == |epochs|
    requires forall i, j :: 0 <= i < j < |epochs| ==> epochs[i] != epochs[j]
    requires forall i :: 0 <= i < |epochs| ==> Owns(db.state, epochs[i])
    modifies db
    ensures db.Valid() && old(db.trace) <= db.trace
    ensures forall i :: 0 <= i < |epochs| ==> Finished(db.state, epochs[i])
    ensures |outcomes| == |epochs| && summary == Tally(outcomes)
    ensures summary.claimed == summary.sent + summary.failed + summary.deferred + summary.skipped
    ensures forall i :: 0 <= i < |epochs| ==>
      Witnessed(db.trace, Here(old(db.trace)), db.state, epochs[i], circumstances[i], outcomes[i])
  {
    hide Tally, Run, Since, Holds;
    ghost var mine := set e | e in epochs;
    ghost var from := Here(db.trace);
    var sent, failed, deferred, skipped := 0, 0, 0, 0;
    outcomes := [];
    NothingTallied();
    for n := 0 to |epochs|
      invariant db.Valid() && old(db.trace) <= db.trace && from <= Here(db.trace)
      invariant |outcomes| == n && Tally(outcomes) == Summary(n, sent, failed, deferred, skipped, false)
      invariant n == sent + failed + deferred + skipped
      invariant forall i :: 0 <= i < n ==> Settles(db.trace, from, db.state, epochs[i], circumstances[i], outcomes[i])
      invariant forall i :: n <= i < |epochs| ==> Owns(db.state, epochs[i])
    {
      ghost var trace, steps, before := db.trace, db.steps, db.state;
      RunLength(trace, steps, db.maxAttempts);
      var outcome := DeliverOneSafely(db, epochs[n], circumstances[n], mine);
      TracesGrow(trace, steps, db.trace, db.steps, mine - {epochs[n]});
      OthersStay(db, trace, steps, before, epochs, n, mine);
      forall i | 0 <= i < n ensures Settles(db.trace, from, db.state, epochs[i], circumstances[i], outcomes[i]) {
        SettlesStays(trace, db.trace, from, before, db.state, epochs[i], circumstances[i], outcomes[i]);
      }
      SettlesNow(db.trace, Here(trace), from, db.state, epochs[n], circumstances[n], outcome);
      match outcome {
        case SentOut => sent := sent + 1;
        case FailedOut => failed := failed + 1;
        case PutOff => deferred := deferred + 1;
        case _ => skipped := skipped + 1;
      }
      TallyStep(outcomes, outcome);
      outcomes := outcomes + [outcome];
    }
    summary := Summary(|epochs|, sent, failed, deferred, skipped, false);
  }

  ghost predicate Settles(trace: seq<State>, from: nat, s: State, e: Epoch, c: Circumstances, o: Outcome) {
    Finished(s, e) && Witnessed(trace, from, s, e, c, o)
  }

  lemma RunLength(trace: seq<State>, steps: seq<Step>, maxAttempts: int)
    requires Run(trace, steps, maxAttempts)
    ensures |trace| == |steps| + 1
  {
  }

  lemma NothingTallied()
    ensures Tally([]) == Summary(0, 0, 0, 0, 0, false)
  {
  }

  lemma SettlesStays(trace: seq<State>, trace': seq<State>, from: nat, s: State, s': State,
                     e: Epoch, c: Circumstances, o: Outcome)
    requires Settles(trace, from, s, e, c, o) && trace <= trace'
    requires Holds(s', e) && SessionOf(s', e) == SessionOf(s, e)
    ensures Settles(trace', from, s', e, c, o)
  {
    hide Means, CaughtAs;
    if Means(SessionOf(s, e).handed, c, o, trace, from, e.id) {
      StillMeans(SessionOf(s, e).handed, c, o, trace, trace', from, from, e.id);
    } else {
      StillCaught(trace, trace', from, from, e, c, o);
    }
  }

  lemma WitnessedSince(trace: seq<State>, from: nat, from': nat, s: State, e: Epoch, c: Circumstances, o: Outcome)
    requires Witnessed(trace, from, s, e, c, o) && from' <= from
    ensures Witnessed(trace, from', s, e, c, o)
  {
    hide Means, CaughtAs;
    if Means(SessionOf(s, e).handed, c, o, trace, from, e.id) {
      StillMeans(SessionOf(s, e).handed, c, o, trace, trace, from, from', e.id);
    } else {
      StillCaught(trace, trace, from, from', e, c, o);
    }
  }

  lemma SettlesNow(trace: seq<State>, from: nat, from': nat, s: State, e: Epoch, c: Circumstances, o: Outcome)
    requires Settles(trace, from, s, e, c, o) && from' <= from
    ensures Settles(trace, from', s, e, c, o)
  {
    hide Witnessed;
    WitnessedSince(trace, from, from', s, e, c, o);
  }

  /** One delivery moves no session but its own. */
  lemma OthersStay(db: Database, trace: seq<State>, steps: seq<Step>, before: State,
                   epochs: seq<Epoch>, n: nat, mine: set<Epoch>)
    requires db.Valid() && |trace| == |steps| + 1 && before == trace[|trace| - 1]
    requires n < |epochs| && mine == set e | e in epochs
    requires forall i, j :: 0 <= i < j < |epochs| ==> epochs[i] != epochs[j]
    requires Since(trace, steps, db.trace, db.steps, mine - {epochs[n]})
    requires forall i :: 0 <= i < |epochs| ==> Holds(before, epochs[i])
    ensures forall i :: 0 <= i < |epochs| && i != n ==>
      Holds(db.state, epochs[i]) && SessionOf(db.state, epochs[i]) == SessionOf(before, epochs[i])
  {
    hide Run, Holds;
    forall i | 0 <= i < |epochs| && i != n
      ensures Holds(db.state, epochs[i]) && SessionOf(db.state, epochs[i]) == SessionOf(before, epochs[i])
    {
      assert epochs[i] in mine - {epochs[n]};
      StillThere(db, trace, steps, epochs[i]);
    }
  }

  /** processQueue. A worker that may not send live claims nothing, so it burns no attempt. */
  method ProcessQueue(db: Database, liveSendAllowed: bool, worker: WorkerId, batchSize: nat, unlocked: set<nat>,
                      circumstances: nat -> Circumstances)
    returns (summary: Summary, ghost epochs: seq<Epoch>, ghost outcomes: seq<Outcome>)
    requires db.Valid()
    requires forall t, s :: t in db.state.rows && s in t.sessions ==> s.phase.Over? || s.worker != worker
    modifies db
    ensures db.Valid() && old(db.trace) <= db.trace
    ensures summary.refusedWithoutClaim <==> !liveSendAllowed
    ensures !liveSendAllowed ==> db.state == old(db.state) && summary.claimed == 0
    ensures summary.claimed == summary.sent + summary.failed + summary.deferred + summary.skipped
    ensures liveSendAllowed ==> |outcomes| == |epochs| && summary == Tally(outcomes)
    ensures liveSendAllowed ==>
      IsEarliest(RowsOf(old(db.state)), Candidates(RowsOf(old(db.state)), unlocked, old(db.state).clock), batchSize,
                 Ids(epochs))
    ensures |epochs| == summary.claimed <= batchSize
    ensures forall i :: 0 <= i < |epochs| ==>
      Witnessed(db.trace, Here(old(db.trace)), db.state, epochs[i], circumstances(i), outcomes[i])
    ensures forall i :: 0 <= i < |epochs| ==> Finished(db.state, epochs[i])
  {
    if !liveSendAllowed {
      return Summary(0, 0, 0, 0, 0, true), [], [];
    }
    var now := db.state.clock;
    var claimed := db.ClaimBatch(worker, batchSize, unlocked, now);
    ghost var from := Here(db.trace);
    summary, outcomes := Drain(db, claimed, seq(|claimed|, i requires 0 <= i => circumstances(i)));
    epochs := claimed;
    forall i | 0 <= i < |epochs|
      ensures Witnessed(db.trace, Here(old(db.trace)), db.state, epochs[i], circumstances(i), outcomes[i])
    {
      WitnessedSince(db.trace, from, Here(old(db.trace)), db.state, epochs[i], circumstances(i), outcomes[i]);
    }
  }

  /** flushMessages: the same, for the rows the caller names. */
  method FlushMessages(db: Database, liveSendAllowed: bool, worker: WorkerId, ids: seq<nat>, batchSize: nat,
                       unlocked: set<nat>, circumstances: nat -> Circumstances)
    returns (summary: Summary, ghost epochs: seq<Epoch>, ghost outcomes: seq<Outcome>)
    requires db.Valid()
    requires forall t, s :: t in db.state.rows && s in t.sessions ==> s.phase.Over? || s.worker != worker
    modifies db
    ensures db.Valid() && old(db.trace) <= db.trace
    ensures summary.refusedWithoutClaim <==> !liveSendAllowed
    ensures !liveSendAllowed || ids == [] ==> db.state == old(db.state) && summary.claimed == 0
    ensures liveSendAllowed ==> |outcomes| == |epochs| && summary == Tally(outcomes)
    ensures liveSendAllowed ==> forall i: nat :: i in Ids(epochs) <==>
      && (exists n :: 0 <= n < |ids| && n < batchSize && ids[n] == i)
      && i in Candidates(RowsOf(old(db.state)), unlocked, old(db.state).clock)
    ensures |epochs| == summary.claimed
    ensures forall i :: 0 <= i < |epochs| ==> Finished(db.state, epochs[i])
    ensures forall i :: 0 <= i < |epochs| ==>
      Witnessed(db.trace, Here(old(db.trace)), db.state, epochs[i], circumstances(i), outcomes[i])
  {
    hide Run, Witnessed, Finished, Owns;
    NothingTallied();
    if !liveSendAllowed {
      return Summary(0, 0, 0, 0, 0, true), [], [];
    }
    if ids == [] {
      return Summary(0, 0, 0, 0, 0, false), [], [];
    }
    var wanted := Named(ids, batchSize) * unlocked;
    var now := db.state.clock;
    var claimed := db.ClaimBatch(worker, |wanted| + 1, wanted, now);
    CardinalityOfDistinct(Ids(claimed), wanted);
    ghost var from := Here(db.trace);
    summary, outcomes := Drain(db, claimed, seq(|claimed|, i requires 0 <= i => circumstances(i)));
    epochs := claimed;
    forall i | 0 <= i < |epochs|
      ensures Witnessed(db.trace, Here(old(db.trace)), db.state, epochs[i], circumstances(i), outcomes[i])
    {
      WitnessedSince(db.trace, from, Here(old(db.trace)), db.state, epochs[i], circumstances(i), outcomes[i]);
    }
  }

  /** ids.slice(0, batchSize) */
  function Named(ids: seq<nat>, batchSize: nat): set<nat> {
    set i | i in ids[..Min(|ids|, batchSize)]
  }

  // ---------------------------------------------------------------- a run that gets through

  /** One more step on the only row. */
  lemma OneStep(trace: seq<State>, steps: seq<Step>, op: Op, s: Session, row: Row)
    returns (trace': seq<State>, steps': seq<Step>)
    requires Run(trace, steps, 1) && trace[|trace| - 1] == State([Tracked(row, [s])], map[], 0)
    requires Allowed(s, op)
    ensures Run(trace', steps', 1) && steps' == steps + [Step(SessionStep(0, 0, op), 0)]
    ensures
      var matched := Matches(row, s, op, 0, 1);
      var w := WriteOf(s, op, 0, 1);
      trace'[|trace'| - 1] ==
      State([Tracked(if matched then Written(row, w.value) else row, [Advanced(s, op, matched)])], map[], 0)
  {
    var before := trace[|trace| - 1];
    var step := Step(SessionStep(0, 0, op), 0);
    assert before.rows[0].sessions[0] == s;
    assert Enabled(before, step);
    RunExtends(trace, steps, 1, step);
    trace', steps' := trace + [Next(before, step, 1)], steps + [step];
    var advanced := Advanced(s, op, Matches(row, s, op, 0, 1));
    assert [s][0 := advanced] == [advanced];
    assert Next(before, step, 1).rows == [Worked(before.rows[0], 0, op, 0, 1)];
    assert trace'[|trace'| - 1] == Next(before, step, 1);
  }

  lemma GetsThrough(trace: seq<State>, steps: seq<Step>, worker: WorkerId, held: Row)
    returns (trace': seq<State>, steps': seq<Step>)
    requires Run(trace, steps, 1) && HeldBy(held, worker) && held.sentAt.None?
    requires trace[|trace| - 1] == State([Tracked(held, [Session(worker, 1, Gating, false, false)])], map[], 0)
    ensures Run(trace', steps', 1) && |trace'[|trace'| - 1].rows| == 1
    ensures var t := trace'[|trace'| - 1].rows[0];
      && t.row.status.Sent? && t.row.providerMessageId == Some("id") && Sends(t) == 1 && Inv(t, 1, 0)
  {
    hide Run, Inv;
    var gating := Session(worker, 1, Gating, false, false);
    trace', steps' := OneStep(trace, steps, PassSuppression, gating, held);
    var cleared := gating.(phase := Cleared);
    trace', steps' := OneStep(trace', steps', RefreshClaim, cleared, held);
    var stamped, approved := held.(claimedAt := Some(0)), cleared.(phase := Approved);
    trace', steps' := OneStep(trace', steps', Send, approved, stamped);
    var handed := approved.(phase := Handed, handed := true);
    trace', steps' := OneStep(trace', steps', RecordSuccess("p", "id"), handed, stamped);
    InvAlongRun(trace', steps', 1, |trace'| - 1, 0);
    var settled := handed.(phase := Settled);
    assert [settled][..0] == [];
    assert Count(WasHanded, [settled]) == Count(WasHanded, []) + 1;
  }

  /** The rules of the system leave room for a message to be sent, and recorded as sent, at the first attempt. */
  lemma AMessageGetsThrough(worker: WorkerId) returns (trace: seq<State>, steps: seq<Step>)
    ensures Run(trace, steps, 1) && |trace[|trace| - 1].rows| == 1
    ensures var t := trace[|trace| - 1].rows[0];
      && t.row.status.Sent? && t.row.providerMessageId == Some("id") && Sends(t) == 1 && Inv(t, 1, 0)
  {
    var row := Row("t", "c", Email, Lifecycle, "a", "d", At(0), Pending, None, None, 0, None, 0, None, None, None,
                   None, None, None, None, None);
    var s0 := State([], map[], 0);
    var enqueue, claim := Step(Enqueue(row), 0), Step(ClaimRows({0}, worker), 0);
    trace, steps := [s0], [];
    RunExtends(trace, steps, 1, enqueue);
    var s1 := State([Tracked(row, [])], map[], 0);
    assert Next(s0, enqueue, 1) == s1;
    trace, steps := trace + [s1], steps + [enqueue];
    assert Enabled(s1, claim);
    RunExtends(trace, steps, 1, claim);
    var held, session := Claimed(row, worker, 0), Session(worker, 1, Gating, false, false);
    var s2 := State([Tracked(held, [session])], map[], 0);
    assert [] + [session] == [session];
    assert Next(s1, claim, 1).rows == [Performed(s1.rows[0], Claim(worker), 0, 1)];
    assert Next(s1, claim, 1).rows == s2.rows;
    trace, steps := trace + [s2], steps + [claim];
    hide Run;
    trace, steps := GetsThrough(trace, steps, worker, held);
  }
}
