/** The API's fixed-window limiter, swept lazily. */
module RateLimiter {
  import opened Prelude

  const SWEEP_EVERY := 500

  datatype Window = Window(count: nat, resetAt: int)

  type Windows = map<string, Window>

  datatype Request = Request(key: string, windowMs: int, now: int)

  function Swept(ws: Windows, now: int): Windows {
    map k | k in ws && ws[k].resetAt > now :: ws[k]
  }

  /** The window a request falls into, with the request counted. */
  function Counted(ws: Windows, r: Request): Window {
    if r.key in ws && ws[r.key].resetAt > r.now then ws[r.key].(count := ws[r.key].count + 1)
    else Window(1, r.now + r.windowMs)
  }

  datatype State = State(windows: Windows, sinceSweep: nat)

  function Before(s: State, now: int): State {
    if s.sinceSweep + 1 >= 500 then State(Swept(s.windows, now), 0) else State(s.windows, s.sinceSweep + 1)
  }

  function Next(s: State, r: Request): State {
    var b := Before(s, r.now);
    State(b.windows[r.key := Counted(b.windows, r)], b.sinceSweep)
  }

  datatype Verdict = Pass(remaining: nat) | TooMany(retryAfterSeconds: int)

  class Limiter {
    var windows: Windows
    var sinceSweep: nat

    ghost function Contents(): State
      reads this
    {
      State(windows, sinceSweep)
    }

    constructor ()
      ensures Contents() == State(map[], 0)
    {
      windows := map[];
      sinceSweep := 0;
    }

    method Sweep(now: int)
      modifies this`windows
      ensures windows == Swept(old(windows), now)
    {
      ghost var was := windows;
      var todo := windows.Keys;
      while todo != {}
        invariant todo <= windows.Keys
        invariant forall k :: k in windows <==> k in was && (k in todo || was[k].resetAt > now)
        invariant forall k :: k in windows ==> windows[k] == was[k]
        decreases |todo|
      {
        var k :| k in todo;
        if windows[k].resetAt <= now { windows := windows - {k}; }
        todo := todo - {k};
      }
    }

    /** check. */
    method Check(r: Request) returns (w: Window)
      modifies this
      ensures Contents() == Next(old(Contents()), r)
      ensures w == Contents().windows[r.key] == Counted(Before(old(Contents()), r.now).windows, r)
    {
      sinceSweep := sinceSweep + 1;
      if sinceSweep >= SWEEP_EVERY {
        sinceSweep := 0;
        Sweep(r.now);
      }
      if r.key !in windows || windows[r.key].resetAt <= r.now {
        var created := Window(1, r.now + r.windowMs);
        windows := windows[r.key := created];
        return created;
      }
      windows := windows[r.key := windows[r.key].(count := windows[r.key].count + 1)];
      w := windows[r.key];
    }

    /** The middleware: a request beyond the limit is told when its window ends, and no sooner. */
    method RateLimit(r: Request, limit: nat) returns (v: Verdict)
      requires r.windowMs > 0
      modifies this
      ensures Contents() == Next(old(Contents()), r)
      ensures
        var w := Contents().windows[r.key];
        && (v.Pass? <==> w.count <= limit)
        && (v.Pass? ==> v.remaining == limit - w.count)
        && (v.TooMany? ==> v.retryAfterSeconds >= 1 && r.now + v.retryAfterSeconds * 1000 >= w.resetAt
                           && r.now + (v.retryAfterSeconds - 1) * 1000 < w.resetAt)
    {
      var w := Check(r);
      if w.count > limit {
        var left := w.resetAt - r.now;
        return TooMany(Max(1, (left + 999) / 1000));
      }
      v := Pass(limit - w.count);
    }
  }

  // ------------------------------------------------------------- the limiter that never sweeps

  function Unswept(ws: Windows, r: Request): Windows {
    ws[r.key := Counted(ws, r)]
  }

  predicate Nondecreasing(rs: seq<Request>) {
    forall i, j :: 0 <= i < j < |rs| ==> rs[i].now <= rs[j].now
  }

  function Answers(s: State, rs: seq<Request>): seq<Window>
    decreases |rs|
  {
    if rs == [] then [] else [Next(s, rs[0]).windows[rs[0].key]] + Answers(Next(s, rs[0]), rs[1..])
  }

  function PlainAnswers(ws: Windows, rs: seq<Request>): seq<Window>
    decreases |rs|
  {
    if rs == [] then [] else [Counted(ws, rs[0])] + PlainAnswers(Unswept(ws, rs[0]), rs[1..])
  }

  /** What was swept away had ended. */
  predicate Same(swept: Windows, plain: Windows, now: int) {
    && (forall k :: k in swept ==> k in plain && swept[k] == plain[k])
    && (forall k :: k in plain && k !in swept ==> plain[k].resetAt <= now)
  }

  lemma SameAnswer(s: State, plain: Windows, r: Request)
    requires Same(s.windows, plain, r.now)
    ensures Next(s, r).windows[r.key] == Counted(plain, r)
    ensures Same(Next(s, r).windows, Unswept(plain, r), r.now)
  {
  }

  /** Sweeping is never noticed: every request sees the window it would see if nothing were ever deleted. */
  lemma {:induction false} SweepingIsInvisible(s: State, plain: Windows, rs: seq<Request>)
    requires Nondecreasing(rs) && (rs != [] ==> Same(s.windows, plain, rs[0].now))
    ensures Answers(s, rs) == PlainAnswers(plain, rs)
    decreases |rs|
  {
    if rs != [] {
      SameAnswer(s, plain, rs[0]);
      SweepingIsInvisible(Next(s, rs[0]), Unswept(plain, rs[0]), rs[1..]);
    }
  }

  // ------------------------------------------------------------------------ how many pass

  /** Requests of one key that pass, from time `s` to just before `e`. */
  function Passed(answers: seq<Window>, rs: seq<Request>, key: string, limit: nat, s: int, e: int): nat
    requires |answers| == |rs|
  {
    if rs == [] then 0
    else
      (if rs[0].key == key && s <= rs[0].now < e && answers[0].count <= limit then 1 else 0)
      + Passed(answers[1..], rs[1..], key, limit, s, e)
  }

  lemma {:induction false} AnswerCount(ws: Windows, rs: seq<Request>)
    ensures |PlainAnswers(ws, rs)| == |rs|
    decreases |rs|
  {
    if rs != [] {
      AnswerCount(Unswept(ws, rs[0]), rs[1..]);
    }
  }

  function PlainPassed(ws: Windows, rs: seq<Request>, key: string, limit: nat, s: int, e: int): nat {
    AnswerCount(ws, rs);
    Passed(PlainAnswers(ws, rs), rs, key, limit, s, e)
  }

  lemma PlainPassedStep(ws: Windows, rs: seq<Request>, key: string, limit: nat, s: int, e: int)
    requires rs != []
    ensures
      var r := rs[0];
      PlainPassed(ws, rs, key, limit, s, e) ==
      (if r.key == key && s <= r.now < e && Counted(ws, r).count <= limit then 1 else 0)
      + PlainPassed(Unswept(ws, r), rs[1..], key, limit, s, e)
  {
    AnswerCount(ws, rs);
    AnswerCount(Unswept(ws, rs[0]), rs[1..]);
    assert PlainAnswers(ws, rs)[1..] == PlainAnswers(Unswept(ws, rs[0]), rs[1..]);
  }

  predicate OneLength(rs: seq<Request>, key: string, windowMs: int) {
    forall i :: 0 <= i < |rs| && rs[i].key == key ==> rs[i].windowMs == windowMs
  }

  /** While one window stays open, at most what it has left can pass. */
  lemma {:induction false} OneWindow(ws: Windows, rs: seq<Request>, key: string, limit: nat, s: int, e: int)
    requires Nondecreasing(rs) && key in ws && e <= ws[key].resetAt
    ensures PlainPassed(ws, rs, key, limit, s, e) <= Max(0, limit - ws[key].count)
    decreases |rs|
  {
    if rs != [] {
      PlainPassedStep(ws, rs, key, limit, s, e);
      if rs[0].now < e {
        OneWindow(Unswept(ws, rs[0]), rs[1..], key, limit, s, e);
      } else {
        NothingLater(Unswept(ws, rs[0]), rs[1..], key, limit, s, e);
      }
    }
  }

  lemma {:induction false} NothingLater(ws: Windows, rs: seq<Request>, key: string, limit: nat, s: int, e: int)
    requires forall i :: 0 <= i < |rs| ==> rs[i].now >= e
    ensures PlainPassed(ws, rs, key, limit, s, e) == 0
    decreases |rs|
  {
    if rs != [] {
      PlainPassedStep(ws, rs, key, limit, s, e);
      NothingLater(Unswept(ws, rs[0]), rs[1..], key, limit, s, e);
    }
  }

  /** An interval as long as a window meets at most two of them. */
  lemma {:induction false} TwoWindows(ws: Windows, rs: seq<Request>, key: string, limit: nat, windowMs: int, s: int)
    requires Nondecreasing(rs) && OneLength(rs, key, windowMs)
    requires forall i :: 0 <= i < |rs| ==> rs[i].now >= s
    ensures PlainPassed(ws, rs, key, limit, s, s + windowMs)
            <= limit + (if rs != [] && key in ws && ws[key].resetAt > rs[0].now then Max(0, limit - ws[key].count) else 0)
    decreases |rs|
  {
    if rs != [] {
      var r, e := rs[0], s + windowMs;
      PlainPassedStep(ws, rs, key, limit, s, e);
      if r.key == key && !(key in ws && ws[key].resetAt > r.now) {
        OneWindow(Unswept(ws, r), rs[1..], key, limit, s, e);
      } else {
        TwoWindows(Unswept(ws, r), rs[1..], key, limit, windowMs, s);
      }
    }
  }

  /** At most twice the limit passes in any interval as long as a window, whatever came before it. */
  lemma {:induction false} AtMostTwiceTheLimit(ws: Windows, rs: seq<Request>, key: string, limit: nat, windowMs: int, s: int)
    requires Nondecreasing(rs) && OneLength(rs, key, windowMs)
    ensures PlainPassed(ws, rs, key, limit, s, s + windowMs) <= 2 * limit
    decreases |rs|
  {
    if rs != [] {
      if rs[0].now < s {
        PlainPassedStep(ws, rs, key, limit, s, s + windowMs);
        AtMostTwiceTheLimit(Unswept(ws, rs[0]), rs[1..], key, limit, windowMs, s);
      } else {
        TwoWindows(ws, rs, key, limit, windowMs, s);
      }
    }
  }

  /** Requests of one key that pass in the window ending at `resetAt`. */
  function PassedIn(answers: seq<Window>, rs: seq<Request>, key: string, limit: nat, resetAt: int): nat
    requires |answers| == |rs|
  {
    if rs == [] then 0
    else
      (if rs[0].key == key && answers[0].resetAt == resetAt && answers[0].count <= limit then 1 else 0)
      + PassedIn(answers[1..], rs[1..], key, limit, resetAt)
  }

  /** What the window ending at `resetAt` may still let through. */
  function LeftIn(ws: Windows, key: string, limit: nat, resetAt: int): nat {
    if key !in ws || ws[key].resetAt < resetAt then limit
    else if ws[key].resetAt > resetAt then 0
    else Max(0, limit - ws[key].count)
  }

  lemma {:induction false} WindowHolds(ws: Windows, rs: seq<Request>, key: string, limit: nat, windowMs: int, resetAt: int)
    requires OneLength(rs, key, windowMs) && windowMs > 0
    ensures |PlainAnswers(ws, rs)| == |rs|
    ensures PassedIn(PlainAnswers(ws, rs), rs, key, limit, resetAt) <= LeftIn(ws, key, limit, resetAt)
    decreases |rs|
  {
    AnswerCount(ws, rs);
    if rs != [] {
      assert PlainAnswers(ws, rs)[1..] == PlainAnswers(Unswept(ws, rs[0]), rs[1..]);
      WindowHolds(Unswept(ws, rs[0]), rs[1..], key, limit, windowMs, resetAt);
    }
  }

  /** From an empty limiter, sweeping as it goes: at most the limit in each window, twice that across two. */
  lemma LimiterHolds(rs: seq<Request>, key: string, limit: nat, windowMs: int, s: int)
    requires Nondecreasing(rs) && OneLength(rs, key, windowMs) && windowMs > 0
    ensures |Answers(State(map[], 0), rs)| == |rs|
    ensures Passed(Answers(State(map[], 0), rs), rs, key, limit, s, s + windowMs) <= 2 * limit
    ensures forall resetAt :: PassedIn(Answers(State(map[], 0), rs), rs, key, limit, resetAt) <= limit
  {
    AnswerCount(map[], rs);
    forall resetAt ensures PassedIn(PlainAnswers(map[], rs), rs, key, limit, resetAt) <= limit {
      WindowHolds(map[], rs, key, limit, windowMs, resetAt);
    }
    SweepingIsInvisible(State(map[], 0), map[], rs);
    AtMostTwiceTheLimit(map[], rs, key, limit, windowMs, s);
  }
}
