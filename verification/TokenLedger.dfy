/** A tenant's monthly token budget: pessimistic reservations, settled by what was used. */
module TokenLedger {
  import opened Prelude

  // ------------------------------------------------------------------------ the statements

  /** tokens_used of the ledger's row for one tenant and period; no row before the first reservation. */
  type Row = Option<int>

  function Used(row: Row): int {
    if row.Some? then row.value else 0
  }

  /** The upsert: nothing comes back when the sum would pass the budget. */
  function Reserved(row: Row, budget: int, tokens: int): Option<Row> {
    var asked := Max(0, tokens);
    if Used(row) + asked <= budget then Some(Some(Used(row) + asked)) else None
  }

  function Settled(row: Row, reserved: int, actual: int): Row {
    if row.None? then None else Some(Max(0, row.value + (actual - reserved)))
  }

  function Released(row: Row, tokens: int): Row {
    if row.None? then None else Some(Max(0, row.value - Max(0, tokens)))
  }

  datatype Outcome = Response(tokens: nat) | VendorError

  datatype CallResult = Exceeded | Failed | Done(tokens: nat)

  class Ledger {
    var row: Row
    var budget: int

    constructor (budget: int)
      ensures row == None && this.budget == budget
    {
      row := None;
      this.budget := budget;
    }

    method Reserve(tokens: int) returns (ok: bool)
      modifies this`row
      ensures ok <==> Reserved(old(row), budget, tokens).Some?
      ensures row == if ok then Reserved(old(row), budget, tokens).value else old(row)
    {
      var asked := Max(0, tokens);
      if row.None? {
        if asked > budget { return false; }
        row := Some(asked);
        return true;
      }
      if row.value + asked > budget { return false; }
      row := Some(row.value + asked);
      ok := true;
    }

    method Settle(reserved: int, actual: int)
      modifies this`row
      ensures row == Settled(old(row), reserved, actual)
    {
      var delta := actual - reserved;
      if row.Some? { row := Some(Max(0, row.value + delta)); }
    }

    method Release(tokens: int)
      modifies this`row
      ensures row == Released(old(row), tokens)
    {
      if row.Some? { row := Some(Max(0, row.value - Max(0, tokens))); }
    }

    /** callWithBudget, with no other call in between: what was used is charged, and nothing else. */
    method CallWithBudget(inputTokens: nat, maxOutputTokens: nat, model: Outcome) returns (r: CallResult)
      requires row.Some? ==> row.value >= 0
      modifies this`row
      ensures r == Exceeded <==> Used(old(row)) + inputTokens + maxOutputTokens > budget
      ensures r != Exceeded ==> r == (match model case Response(n) => Done(n) case VendorError => Failed)
      ensures r == Exceeded ==> row == old(row)
      ensures r != Exceeded ==> row == Some(Used(old(row)) + (match model case Response(n) => n case VendorError => 0))
    {
      var reserved := inputTokens + maxOutputTokens;
      var ok := Reserve(reserved);
      if !ok { return Exceeded; }
      match model {
        case VendorError =>
          Release(reserved);
          return Failed;
        case Response(n) =>
          Settle(reserved, n);
          return Done(n);
      }
    }
  }

  // ---------------------------------------------------------- calls of many workers, interleaved

  /** A call that stays Holding for ever is one whose worker crashed. */
  datatype Call =
    | Waiting
    | Holding(reserved: nat)
    | Finished(reserved: nat, actual: nat)
    | GaveBack
    | Refused

  datatype State = State(row: Row, calls: seq<Call>)

  datatype Step =
    | DoReserve(call: nat, tokens: nat)
    | DoSettle(call: nat, actual: nat)
    | DoRelease(call: nat)

  /** What each step needs: a call reserves once, then settles or releases once. */
  predicate Enabled(s: State, step: Step) {
    step.call < |s.calls| &&
    match step
    case DoReserve(i, _) => s.calls[i].Waiting?
    case DoSettle(i, _) => s.calls[i].Holding?
    case DoRelease(i) => s.calls[i].Holding?
  }

  function Next(s: State, budget: int, step: Step): State
    requires Enabled(s, step)
  {
    match step
    case DoReserve(i, tokens) =>
      (match Reserved(s.row, budget, tokens)
       case Some(row) => State(row, s.calls[i := Holding(tokens)])
       case None => State(s.row, s.calls[i := Refused]))
    case DoSettle(i, actual) =>
      State(Settled(s.row, s.calls[i].reserved, actual), s.calls[i := Finished(s.calls[i].reserved, actual)])
    case DoRelease(i) =>
      State(Released(s.row, s.calls[i].reserved), s.calls[i := GaveBack])
  }

  function Initial(n: nat): State {
    State(None, seq(n, i => Waiting))
  }

  predicate IsRun(s: State, budget: int, steps: seq<Step>)
    decreases |steps|
  {
    steps == [] || (Enabled(s, steps[0]) && IsRun(Next(s, budget, steps[0]), budget, steps[1..]))
  }

  function After(s: State, budget: int, steps: seq<Step>): State
    requires IsRun(s, budget, steps)
    decreases |steps|
  {
    if steps == [] then s else After(Next(s, budget, steps[0]), budget, steps[1..])
  }

  /** What a call has on the ledger: its reservation while it runs, then what it used. */
  function Charge(c: Call): nat {
    match c
    case Holding(r) => r
    case Finished(_, a) => a
    case _ => 0
  }

  /** By how much a call used more than it had reserved. */
  function Overshoot(c: Call): nat {
    match c
    case Finished(r, a) => Max(0, a - r)
    case _ => 0
  }

  function Sum(f: Call -> nat, cs: seq<Call>): nat {
    if cs == [] then 0 else Sum(f, cs[..|cs| - 1]) + f(cs[|cs| - 1])
  }

  lemma {:induction false} SumUpdate(f: Call -> nat, cs: seq<Call>, i: nat, c: Call)
    requires i < |cs|
    ensures Sum(f, cs[i := c]) == Sum(f, cs) - f(cs[i]) + f(c)
  {
    var n := |cs| - 1;
    if i == n {
      assert cs[i := c][..n] == cs[..n];
    } else {
      assert cs[i := c][..n] == cs[..n][i := c];
      SumUpdate(f, cs[..n], i, c);
    }
  }

  lemma {:induction false} SumInitial(f: Call -> nat, n: nat)
    requires f(Waiting) == 0
    ensures Sum(f, Initial(n).calls) == 0
  {
    if n > 0 {
      assert Initial(n).calls[..n - 1] == Initial(n - 1).calls;
      SumInitial(f, n - 1);
    }
  }

  /** The ledger is exact, and over budget by no more than calls used beyond their reservations. */
  predicate Inv(s: State, budget: int) {
    && Used(s.row) == Sum(Charge, s.calls)
    && (s.row.None? ==> forall i :: 0 <= i < |s.calls| ==> !s.calls[i].Holding?)
    && Used(s.row) <= Max(0, budget) + Sum(Overshoot, s.calls)
  }

  /** The arguments of the clamp, when a step has one. */
  function Unclamped(s: State, step: Step): int
    requires Enabled(s, step)
  {
    match step
    case DoReserve(_, _) => Used(s.row)
    case DoSettle(i, actual) => Used(s.row) + (actual - s.calls[i].reserved)
    case DoRelease(i) => Used(s.row) - s.calls[i].reserved
  }

  lemma StepKeepsInv(s: State, budget: int, step: Step)
    requires Inv(s, budget) && Enabled(s, step)
    ensures Inv(Next(s, budget, step), budget)
    ensures Unclamped(s, step) >= 0
  {
    var i := step.call;
    var after := match step
      case DoReserve(_, tokens) => if Reserved(s.row, budget, tokens).Some? then Holding(tokens) else Refused
      case DoSettle(_, actual) => Finished(s.calls[i].reserved, actual)
      case DoRelease(_) => GaveBack;
    SumUpdate(Charge, s.calls, i, after);
    SumUpdate(Overshoot, s.calls, i, after);
    assert Next(s, budget, step).calls == s.calls[i := after];
  }

  /**
   * Along every interleaving of any number of calls, crashes included: tokens_used is what settled calls used
   * plus what running ones reserved, the clamp at zero never acts, and the budget is passed only by what calls
   * used beyond their own reservations.
   */
  lemma {:induction false} LedgerIsExact(s: State, budget: int, steps: seq<Step>)
    requires Inv(s, budget) && IsRun(s, budget, steps)
    ensures Inv(After(s, budget, steps), budget)
    ensures forall k: nat :: k < |steps| ==> ClampIdle(s, budget, steps, k)
    decreases |steps|
  {
    if steps != [] {
      StepKeepsInv(s, budget, steps[0]);
      LedgerIsExact(Next(s, budget, steps[0]), budget, steps[1..]);
      forall k: nat | k < |steps| ensures ClampIdle(s, budget, steps, k) {
        if k > 0 {
          assert ClampIdle(Next(s, budget, steps[0]), budget, steps[1..], k - 1);
          assert steps[..k][1..] == steps[1..][..k - 1] && steps[..k][0] == steps[0];
        } else {
          assert steps[..k] == [];
        }
      }
    }
  }

  /** The `k`th step of the run finds nothing to clamp. */
  predicate ClampIdle(s: State, budget: int, steps: seq<Step>, k: nat)
    requires k < |steps|
  {
    && IsRun(s, budget, steps[..k])
    && Enabled(After(s, budget, steps[..k]), steps[k])
    && Unclamped(After(s, budget, steps[..k]), steps[k]) >= 0
  }

  /** No call used more than it had reserved. */
  predicate Frugal(cs: seq<Call>) {
    forall i :: 0 <= i < |cs| && cs[i].Finished? ==> cs[i].actual <= cs[i].reserved
  }

  lemma {:induction false} NoOvershoot(cs: seq<Call>)
    requires Frugal(cs)
    ensures Sum(Overshoot, cs) == 0
  {
    if cs != [] {
      NoOvershoot(cs[..|cs| - 1]);
    }
  }

  /** From an empty ledger, every run charges exactly, and stays within the budget while calls are frugal. */
  lemma WithinBudget(n: nat, budget: nat, steps: seq<Step>)
    requires IsRun(Initial(n), budget, steps)
    ensures
      var s := After(Initial(n), budget, steps);
      && Used(s.row) == Sum(Charge, s.calls)
      && Used(s.row) <= budget + Sum(Overshoot, s.calls)
      && (Frugal(s.calls) ==> Used(s.row) <= budget)
  {
    SumInitial(Charge, n);
    SumInitial(Overshoot, n);
    LedgerIsExact(Initial(n), budget, steps);
    var s := After(Initial(n), budget, steps);
    if Frugal(s.calls) {
      NoOvershoot(s.calls);
    }
  }
}
