/** The provider rate limit: one token bucket row, in real arithmetic, stored to four decimals. */
module RateBucket {
  import opened Prelude

  datatype Config = Config(capacity: real, rate: real)

  // ------------------------------------------------------------- real arithmetic, kept apart

  function RealMin(a: real, b: real): real { if a <= b then a else b }

  function RealMax(a: real, b: real): real { if a >= b then a else b }

  /** What a rate yields over a stretch of time. */
  function Accrued(rate: real, elapsed: real): real {
    rate * elapsed
  }

  lemma AccruedAdds(rate: real, a: real, b: real)
    ensures Accrued(rate, a + b) == Accrued(rate, a) + Accrued(rate, b)
  {
  }

  lemma AccruedGrows(rate: real, a: real, b: real)
    requires rate > 0.0 && a <= b
    ensures Accrued(rate, a) <= Accrued(rate, b)
  {
    var d := b - a;
    assert rate * d >= 0.0;
    assert b == a + d;
    AccruedAdds(rate, a, d);
  }

  lemma AccruedNothing(rate: real)
    ensures Accrued(rate, 0.0) == 0.0
  {
  }

  lemma AccruedByRate(slow: real, fast: real, elapsed: real)
    requires slow <= fast && elapsed >= 0.0
    ensures Accrued(slow, elapsed) <= Accrued(fast, elapsed)
  {
    var d := fast - slow;
    assert d * elapsed >= 0.0;
    assert fast == slow + d;
    assert (slow + d) * elapsed == slow * elapsed + d * elapsed;
  }

  lemma AccruedOver(rate: real, amount: real)
    requires rate > 0.0
    ensures Accrued(rate, amount / rate) == amount
    ensures amount >= 0.0 ==> amount / rate >= 0.0
  {
  }

  /** NUMERIC(12,4): the nearest ten-thousandth, halves up. */
  function Stored(x: real): real {
    (x * 10000.0 + 0.5).Floor as real / 10000.0
  }

  lemma StoredIsNear(x: real)
    ensures x - 0.00005 < Stored(x) <= x + 0.00005
  {
    var f := (x * 10000.0 + 0.5).Floor as real;
    assert x * 10000.0 - 0.5 < f <= x * 10000.0 + 0.5;
    assert Stored(x) * 10000.0 == f;
  }

  lemma StoredKeepsOrder(x: real, whole: int)
    requires x >= whole as real
    ensures Stored(x) >= whole as real
  {
    var f := (x * 10000.0 + 0.5).Floor;
    assert f >= whole * 10000;
    assert Stored(x) * 10000.0 == f as real;
  }

  // ------------------------------------------------------------------------ the statements

  /** A row of provider_rate_buckets. Instants are in seconds. */
  datatype Bucket = Bucket(tokens: real, capacity: real, rate: real, updatedAt: real)

  /** The guard at the top, and the table's own: columns of twelve digits, capacity and rate above zero as stored. */
  predicate ValidConfig(c: Config) {
    c.capacity > 0.0 && c.rate > 0.0 && Storable(c)
  }

  predicate Storable(c: Config) {
    && 0.0 < Stored(c.capacity) < 100000000.0
    && 0.0 < Stored(c.rate) < 100000000.0
  }

  /** LEAST(capacity, tokens + GREATEST(elapsed, 0) * rate) */
  function Balance(capacity: real, rate: real, b: Bucket, now: real): real {
    RealMin(capacity, b.tokens + Accrued(rate, RealMax(now - b.updatedAt, 0.0)))
  }

  /** The table's CHECK constraint. */
  predicate Sane(row: Option<Bucket>) {
    row.Some? ==> row.value.capacity > 0.0 && row.value.rate > 0.0 && row.value.tokens >= 0.0
  }

  datatype Answer = Allowed | Denied(retryAfterMs: int)

  datatype Refusal = NotPositive | ConstraintViolated

  /** Math.max(1, Math.ceil(waitSeconds * 1000)) */
  function RetryAfter(wait: real): (ms: int)
    ensures ms >= 1 && ms as real >= wait * 1000.0
  {
    Max(1, -((-(wait * 1000.0)).Floor))
  }

  /** No fewer milliseconds, but for one at least, are as long as the wait. */
  lemma RetryAfterIsLeast(wait: real, ms: int)
    requires ms >= 1 && ms as real >= wait * 1000.0
    ensures RetryAfter(wait) <= ms
  {
  }

  function NewBucket(c: Config, now: real): Bucket {
    Bucket(Stored(c.capacity), Stored(c.capacity), Stored(c.rate), now)
  }

  function Ensured(row: Option<Bucket>, c: Config, now: real): Bucket {
    if row.Some? then row.value else NewBucket(c, now)
  }

  function Wait(b: Bucket, now: real): real
    requires b.rate > 0.0
  {
    RealMax(0.0, 1.0 - Balance(b.capacity, b.rate, b, now)) / b.rate
  }

  datatype Attempt = Attempt(bucket: Bucket, answer: Answer)

  /** One attempt: a token is taken and the clock moves, or nothing changes and the caller learns how long to wait. */
  function Acquire(row: Option<Bucket>, c: Config, now: real): (a: Attempt)
    requires ValidConfig(c) && Sane(row)
    ensures Sane(Some(a.bucket))
  {
    var b := Ensured(row, c, now);
    var refilled := Balance(c.capacity, c.rate, b, now);
    if refilled >= 1.0 then
      StoredKeepsOrder(refilled - 1.0, 0);
      Attempt(Bucket(Stored(refilled - 1.0), Stored(c.capacity), Stored(c.rate), now), Allowed)
    else Attempt(b, Denied(RetryAfter(Wait(b, now))))
  }

  /** The table holds at most one row for the key. */
  class Buckets {
    var row: Option<Bucket>

    constructor ()
      ensures row == None
    {
      row := None;
    }

    /** INSERT ... ON CONFLICT DO NOTHING: a new bucket is full. */
    method Ensure(c: Config, now: real)
      modifies this
      ensures row == Some(Ensured(old(row), c, now))
    {
      if row.None? {
        row := Some(Bucket(Stored(c.capacity), Stored(c.capacity), Stored(c.rate), now));
      }
    }

    /** tryAcquire. */
    method TryAcquire(c: Config, now: real) returns (r: Result<Answer, Refusal>)
      requires Sane(row)
      modifies this
      ensures Sane(row)
      ensures r == Err(NotPositive) <==> c.capacity <= 0.0 || c.rate <= 0.0
      ensures r.Err? <==> !ValidConfig(c)
      ensures r.Err? ==> row == old(row)
      ensures r.Ok? ==> r.value == Acquire(old(row), c, now).answer && row == Some(Acquire(old(row), c, now).bucket)
    {
      hide Stored, Accrued, RetryAfter;
      if c.capacity <= 0.0 || c.rate <= 0.0 { return Err(NotPositive); }
      if !Storable(c) { return Err(ConstraintViolated); }
      Ensure(c, now);
      var b := row.value;
      var refilled := Balance(c.capacity, c.rate, b, now);
      if refilled >= 1.0 {
        StoredKeepsOrder(refilled - 1.0, 0);
        row := Some(Bucket(Stored(refilled - 1.0), Stored(c.capacity), Stored(c.rate), now));
        return Ok(Allowed);
      }
      var wait := RealMax(0.0, 1.0 - Balance(b.capacity, b.rate, b, now)) / b.rate;
      r := Ok(Denied(RetryAfter(wait)));
    }
  }

  // ---------------------------------------------------------------------- runs of attempts

  /** A row that was last spent no later than `now`. */
  predicate Past(row: Option<Bucket>, now: real) {
    Sane(row) && (row.Some? ==> row.value.updatedAt <= now)
  }

  predicate Nondecreasing(times: seq<real>) {
    forall i, j :: 0 <= i < j < |times| ==> times[i] <= times[j]
  }

  /** The answers to attempts at these times. */
  function Answers(row: Option<Bucket>, c: Config, times: seq<real>): seq<Answer>
    requires ValidConfig(c) && Sane(row)
    decreases |times|
  {
    if times == [] then []
    else
      var a := Acquire(row, c, times[0]);
      [a.answer] + Answers(Some(a.bucket), c, times[1..])
  }

  /** How many of them are granted between `s` and `t`. */
  function GrantsBetween(row: Option<Bucket>, c: Config, times: seq<real>, s: real, t: real): nat
    requires ValidConfig(c) && Sane(row)
    decreases |times|
  {
    if times == [] then 0
    else
      var a := Acquire(row, c, times[0]);
      (if a.answer.Allowed? && s <= times[0] <= t then 1 else 0) + GrantsBetween(Some(a.bucket), c, times[1..], s, t)
  }

  /** What an attempt at `now` would find. */
  function Available(row: Option<Bucket>, c: Config, now: real): real {
    Balance(c.capacity, c.rate, Ensured(row, c, now), now)
  }

  /** A grant takes a whole token, less what rounding the remainder may give back. */
  const SPENT := 0.99995

  lemma AvailableGrows(row: Option<Bucket>, c: Config, s: real, u: real)
    requires ValidConfig(c) && Past(row, s) && s <= u
    ensures 0.0 <= Available(row, c, s) <= c.capacity
    ensures Available(row, c, u) <= Available(row, c, s) + Accrued(c.rate, u - s)
  {
    hide Accrued, Stored;
    AccruedNothing(c.rate);
    AccruedGrows(c.rate, 0.0, u - s);
    if row.Some? {
      var b := row.value;
      AccruedGrows(c.rate, 0.0, s - b.updatedAt);
      AccruedAdds(c.rate, s - b.updatedAt, u - s);
      assert (s - b.updatedAt) + (u - s) == u - b.updatedAt;
    }
  }

  lemma AcquireSpends(row: Option<Bucket>, c: Config, now: real)
    requires ValidConfig(c) && Past(row, now)
    ensures
      var a := Acquire(row, c, now);
      && Past(Some(a.bucket), now)
      && Available(Some(a.bucket), c, now) <= Available(row, c, now) - (if a.answer.Allowed? then SPENT else 0.0)
  {
    hide Accrued, Stored, RetryAfter;
    AccruedNothing(c.rate);
    StoredIsNear(Available(row, c, now) - 1.0);
  }

  /** One attempt of a run: it counts when it is granted inside the interval. */
  lemma GrantsStep(row: Option<Bucket>, c: Config, times: seq<real>, s: real, t: real)
    requires ValidConfig(c) && Sane(row) && times != [] && s <= times[0] <= t
    ensures
      var a := Acquire(row, c, times[0]);
      GrantsBetween(row, c, times, s, t) ==
      (if a.answer.Allowed? then 1 else 0) + GrantsBetween(Some(a.bucket), c, times[1..], s, t)
  {
    hide Acquire;
  }

  lemma {:induction false} GrantsFromNow(row: Option<Bucket>, c: Config, times: seq<real>, s: real, t: real)
    requires ValidConfig(c) && Past(row, s) && s <= t
    requires Nondecreasing(times) && (times != [] ==> s <= times[0])
    ensures GrantsBetween(row, c, times, s, t) as real * SPENT <= Available(row, c, s) + Accrued(c.rate, t - s)
    decreases |times|
  {
    hide Acquire, Available, Accrued, GrantsBetween, Stored;
    if times == [] || times[0] > t {
      NoneAfter(row, c, times, s, t);
      AvailableGrows(row, c, s, t);
      AccruedGrows(c.rate, 0.0, t - s);
      AccruedNothing(c.rate);
    } else {
      var u := times[0];
      var a := Acquire(row, c, u);
      AvailableGrows(row, c, s, u);
      AcquireSpends(row, c, u);
      GrantsFromNow(Some(a.bucket), c, times[1..], u, t);
      SameAfter(Some(a.bucket), c, times[1..], s, u, t);
      GrantsStep(row, c, times, s, t);
      AccruedAdds(c.rate, u - s, t - u);
      assert (u - s) + (t - u) == t - s;
    }
  }

  /** Attempts after the interval are not counted in it. */
  lemma {:induction false} NoneAfter(row: Option<Bucket>, c: Config, times: seq<real>, s: real, t: real)
    requires ValidConfig(c) && Sane(row) && Nondecreasing(times) && (times != [] ==> times[0] > t)
    ensures GrantsBetween(row, c, times, s, t) == 0
    decreases |times|
  {
    hide Acquire, Stored;
    if times != [] {
      NoneAfter(Some(Acquire(row, c, times[0]).bucket), c, times[1..], s, t);
    }
  }

  lemma {:induction false} SameAfter(row: Option<Bucket>, c: Config, times: seq<real>, s: real, u: real, t: real)
    requires ValidConfig(c) && Sane(row) && s <= u
    requires forall i :: 0 <= i < |times| ==> times[i] >= u
    ensures GrantsBetween(row, c, times, s, t) == GrantsBetween(row, c, times, u, t)
    decreases |times|
  {
    hide Acquire, Stored;
    if times != [] {
      SameAfter(Some(Acquire(row, c, times[0]).bucket), c, times[1..], s, u, t);
    }
  }

  /**
   * However attempts are spaced, an interval never grants more than a full bucket and what accrues meanwhile,
   * and for each grant what rounding may give back.
   */
  lemma GrantsBounded(row: Option<Bucket>, c: Config, times: seq<real>, s: real, t: real)
    requires ValidConfig(c) && Nondecreasing(times) && s <= t
    requires Past(row, if times == [] then s else times[0])
    ensures
      var grants := GrantsBetween(row, c, times, s, t) as real;
      grants <= c.capacity + c.rate * (t - s) + grants * 0.00005
  {
    hide Acquire, GrantsBetween, Stored, Balance;
    GrantsBoundedAccrued(row, c, times, s, t);
    assert Accrued(c.rate, t - s) == c.rate * (t - s);
  }

  lemma {:induction false} GrantsBoundedAccrued(row: Option<Bucket>, c: Config, times: seq<real>, s: real, t: real)
    requires ValidConfig(c) && Nondecreasing(times) && s <= t
    requires Past(row, if times == [] then s else times[0])
    ensures GrantsBetween(row, c, times, s, t) as real * SPENT <= c.capacity + Accrued(c.rate, t - s)
    decreases |times|
  {
    hide Acquire, Accrued, Available, Stored;
    AccruedNothing(c.rate);
    AccruedGrows(c.rate, 0.0, t - s);
    if times != [] {
      var u := times[0];
      if u < s {
        AcquireSpends(row, c, u);
        GrantsBoundedAccrued(Some(Acquire(row, c, u).bucket), c, times[1..], s, t);
      } else if u <= t {
        hide GrantsBetween;
        SameAfter(row, c, times, s, u, t);
        GrantsFromNow(row, c, times, u, t);
        AvailableGrows(row, c, u, u);
        AccruedGrows(c.rate, t - u, t - s);
      } else {
        NoneAfter(row, c, times, s, t);
      }
    }
  }

  // -------------------------------------------------------------------------- denials

  /** A new bucket that holds less than a token answers the same whenever it was created, and never grants. */
  lemma {:induction false} FullBucketIsNoBucket(b: Bucket, c: Config, times: seq<real>, created: real)
    requires ValidConfig(c) && c.capacity < 1.0 && b == NewBucket(c, created)
    requires Nondecreasing(times) && (times != [] ==> created <= times[0])
    ensures Answers(Some(b), c, times) == Answers(None, c, times)
    decreases |times|
  {
    hide Accrued, Stored, RetryAfter;
    if times != [] {
      var u := times[0];
      AccruedNothing(b.rate);
      AccruedGrows(b.rate, 0.0, u - created);
      var full := NewBucket(c, u);
      assert Acquire(None, c, u).bucket == full;
      assert Acquire(Some(b), c, u) == Attempt(b, Acquire(None, c, u).answer);
      FullBucketIsNoBucket(b, c, times[1..], created);
      FullBucketIsNoBucket(full, c, times[1..], u);
    }
  }

  /** An attempt that is denied leaves no trace: all that follows is answered as if it had not been made. */
  lemma DenialIsInvisible(row: Option<Bucket>, c: Config, now: real, later: seq<real>)
    requires ValidConfig(c) && Past(row, now)
    requires Nondecreasing(later) && (later != [] ==> now <= later[0])
    ensures Acquire(row, c, now).answer.Denied? ==>
      Answers(Some(Acquire(row, c, now).bucket), c, later) == Answers(row, c, later)
  {
    hide Answers, Accrued, Stored, RetryAfter;
    if row.None? && Acquire(row, c, now).answer.Denied? {
      AccruedNothing(c.rate);
      if c.capacity >= 1.0 { StoredKeepsOrder(c.capacity, 1); }
      FullBucketIsNoBucket(NewBucket(c, now), c, later, now);
    }
  }

  /** The row carries this configuration, as the columns store it. */
  predicate KeptBy(row: Option<Bucket>, c: Config) {
    row.Some? ==> row.value.capacity == Stored(c.capacity) && row.value.rate == Stored(c.rate)
  }

  /**
   * The wait that a denial names is enough exactly when the bucket can ever hold a whole token, as long as the
   * stored rate, from which the wait is computed, is not rounded above the rate that refills.
   */
  lemma RetryIsHonoured(row: Option<Bucket>, c: Config, now: real, later: real)
    requires ValidConfig(c) && Past(row, now) && KeptBy(row, c) && Acquire(row, c, now).answer.Denied?
    requires Stored(c.rate) <= c.rate
    requires later >= now + Acquire(row, c, now).answer.retryAfterMs as real / 1000.0
    ensures Acquire(Some(Acquire(row, c, now).bucket), c, later).answer.Allowed? <==> c.capacity >= 1.0
  {
    hide Stored, Accrued, RetryAfter;
    var b := Ensured(row, c, now);
    assert Acquire(row, c, now).bucket == b;
    if c.capacity >= 1.0 {
      StoredKeepsOrder(c.capacity, 1);
      EnoughAccrues(b, c, now, later);
    }
  }

  lemma EnoughAccrues(b: Bucket, c: Config, now: real, later: real)
    requires b.rate > 0.0 && b.updatedAt <= now && b.rate <= c.rate && c.capacity >= 1.0 && b.capacity >= 1.0
    requires Balance(c.capacity, c.rate, b, now) < 1.0 && later >= now + Wait(b, now)
    ensures Balance(c.capacity, c.rate, b, later) >= 1.0
  {
    hide Accrued;
    var before, wait := now - b.updatedAt, Wait(b, now);
    AccruedByRate(b.rate, c.rate, before);
    var have := b.tokens + Accrued(b.rate, before);
    assert Balance(b.capacity, b.rate, b, now) == have < 1.0;
    AccruedOver(b.rate, 1.0 - have);
    AccruedAdds(b.rate, before, wait);
    AccruedGrows(b.rate, before + wait, later - b.updatedAt);
    AccruedByRate(b.rate, c.rate, later - b.updatedAt);
  }

  /**
   * With any stored rate: the wait named is what is missing, over the stored rate, and an attempt after it succeeds
   * exactly when the configured rate has made that up. The two part where the stored rate is rounded up.
   */
  lemma RetryAtAnyRate(b: Bucket, c: Config, now: real, later: real)
    requires ValidConfig(c) && c.capacity >= 1.0 && KeptBy(Some(b), c) && Past(Some(b), now) && now <= later
    requires Acquire(Some(b), c, now).answer.Denied?
    ensures b.rate > 0.0
    ensures
      var missing := 1.0 - (b.tokens + Accrued(b.rate, now - b.updatedAt));
      Acquire(Some(b), c, now) == Attempt(b, Denied(RetryAfter(RealMax(0.0, missing) / b.rate)))
    ensures Acquire(Some(b), c, later).answer.Allowed? <==> b.tokens + Accrued(c.rate, later - b.updatedAt) >= 1.0
  {
    StoredKeepsOrder(c.capacity, 1);
    hide Stored, RetryAfter, Accrued;
  }

  /** Six tokens in a hundred thousand seconds are stored as ten: the wait named is 10,000 seconds, and not enough. */
  lemma RoundedUpRateWaitsTooShort(now: real)
    ensures
      var c := Config(1.0, 0.00006);
      var b := Bucket(0.0, Stored(1.0), Stored(0.00006), now);
      && ValidConfig(c) && Sane(Some(b))
      && Acquire(Some(b), c, now).answer == Denied(10000000)
      && Acquire(Some(b), c, now + 10000.0).answer.Denied?
  {
    var c := Config(1.0, 0.00006);
    var b := Bucket(0.0, Stored(1.0), Stored(0.00006), now);
    assert (0.00006 * 10000.0 + 0.5).Floor == 1;
    assert Stored(0.00006) == 0.0001;
    assert Balance(c.capacity, c.rate, b, now) == 0.0;
    RetryAtAnyRate(b, c, now, now + 10000.0);
    assert 1.0 / b.rate == 10000.0;
    assert RetryAfter(10000.0) == 10000000;
    assert Accrued(c.rate, 10000.0) == 0.6;
    assert now + 10000.0 - now == 10000.0;
  }

  /** A bucket that cannot hold a whole token never grants one. */
  lemma GrantsSometimes(row: Option<Bucket>, c: Config)
    requires ValidConfig(c) && Sane(row)
    ensures (exists now: real :: Acquire(row, c, now).answer.Allowed?) <==> c.capacity >= 1.0
  {
    hide Stored, Accrued, RetryAfter;
    if c.capacity >= 1.0 {
      StoredKeepsOrder(c.capacity, 1);
      AccruedOver(c.rate, 1.0);
      AccruedNothing(c.rate);
      var now := if row.Some? then row.value.updatedAt + 1.0 / c.rate else 0.0;
      assert Acquire(row, c, now).answer.Allowed?;
    }
  }
}
