/**
 The token bucket that gates ingest, one bucket a key. Amounts and times are
 exact: seconds and tokens are real numbers.
 */
module RateLimit {
  import opened Wrappers

  const BUCKET_CAPACITY: real := 120.0
  const REFILL_PER_MINUTE: real := 60.0

  /** Capacity and refill rate; what the script demands of them. */
  datatype Limits = Limits(capacity: real, refill: real) {
    predicate Valid() {
      capacity > 0.0 && refill > 0.0
    }

    /** Idle time after which the key expires. */
    function Ttl(): real
      requires Valid()
    {
      (capacity / refill).Floor as real + 60.0
    }
  }

  const INGEST := Limits(BUCKET_CAPACITY, REFILL_PER_MINUTE / 60.0)

  /** Tokens left and when they were last counted. */
  datatype Bucket = Bucket(tokens: real, ts: real)

  datatype Outcome = Outcome(allowed: bool, tokens: real)

  function Min(a: real, b: real): (m: real)
    ensures m == a || m == b
    ensures m <= a && m <= b
  {
    if a <= b then a else b
  }

  // ---------------------------------------------------------------------
  // One call
  // ---------------------------------------------------------------------

  /** Tokens that accrue in a span of time. */
  function Accrued(l: Limits, elapsed: real): real {
    elapsed * l.refill
  }

  /** Tokens available at `now`; a missing bucket is a full one. */
  function Level(l: Limits, b: Option<Bucket>, now: real): real {
    match b
    case None => l.capacity
    case Some(Bucket(tokens, ts)) =>
      var elapsed := if now - ts < 0.0 then 0.0 else now - ts;
      Min(l.capacity, tokens + Accrued(l, elapsed))
  }

  /** The script: refill, decide on one token, write back. */
  function Take(l: Limits, b: Option<Bucket>, now: real): (Outcome, Bucket) {
    var level := Level(l, b, now);
    if level >= 1.0 then (Outcome(true, level - 1.0), Bucket(level - 1.0, now))
    else (Outcome(false, level), Bucket(level, now))
  }

  /** Every call renews the expiry, so a bucket lives for `Ttl` after its last call. */
  function Expire(l: Limits, b: Option<Bucket>, now: real): Option<Bucket>
    requires l.Valid()
  {
    if b.Some? && now - b.value.ts >= l.Ttl() then None else b
  }

  // ---------------------------------------------------------------------
  // Runs
  // ---------------------------------------------------------------------

  predicate NonDecreasing(times: seq<real>) {
    forall i, j :: 0 <= i < j < |times| ==> times[i] <= times[j]
  }

  /** The bucket was written no later than the first of `times`. */
  predicate Before(b: Option<Bucket>, times: seq<real>) {
    b.Some? ==> forall i :: 0 <= i < |times| ==> b.value.ts <= times[i]
  }

  predicate InRange(l: Limits, b: Option<Bucket>) {
    b.Some? ==> 0.0 <= b.value.tokens <= l.capacity
  }

  /** The outcomes of a run in which idle buckets expire. */
  function Outcomes(l: Limits, b: Option<Bucket>, times: seq<real>): seq<Outcome>
    requires l.Valid()
    decreases |times|
  {
    if times == [] then []
    else
      var (outcome, after) := Take(l, Expire(l, b, times[0]), times[0]);
      [outcome] + Outcomes(l, Some(after), times[1..])
  }

  /** The outcomes of a run in which nothing ever expires. */
  function Unexpired(l: Limits, b: Option<Bucket>, times: seq<real>): seq<Outcome>
    decreases |times|
  {
    if times == [] then []
    else
      var (outcome, after) := Take(l, b, times[0]);
      [outcome] + Unexpired(l, Some(after), times[1..])
  }

  lemma AccruedSum(l: Limits, a: real, b: real)
    ensures Accrued(l, a) + Accrued(l, b) == Accrued(l, a + b)
  {
  }

  lemma AccruedMonotone(l: Limits, a: real, b: real)
    requires l.Valid()
    ensures a <= b <==> Accrued(l, a) <= Accrued(l, b)
    ensures Accrued(l, 0.0) == 0.0
  {
    if a < b {
      assert (b - a) * l.refill > 0.0;
    } else if a > b {
      assert (a - b) * l.refill > 0.0;
    }
  }

  /** The time a number of tokens takes to accrue. */
  lemma AccruedQuotient(l: Limits, tokens: real)
    requires l.Valid()
    ensures Accrued(l, tokens / l.refill) == tokens
  {
  }

  lemma TakeInRange(l: Limits, b: Option<Bucket>, now: real)
    requires l.Valid() && InRange(l, b)
    ensures 0.0 <= Level(l, b, now) <= l.capacity
    ensures InRange(l, Some(Take(l, b, now).1))
  {
    hide Accrued;
    if b.Some? {
      AccruedMonotone(l, 0.0, now - b.value.ts);
    }
  }

  // ---------------------------------------------------------------------
  // Expiry is invisible
  // ---------------------------------------------------------------------

  /** By the time a bucket expires it would have refilled. */
  lemma TtlRefills(l: Limits, elapsed: real)
    requires l.Valid() && elapsed >= l.Ttl()
    ensures Accrued(l, elapsed) >= l.capacity && elapsed >= 0.0
  {
    hide Accrued;
    AccruedQuotient(l, l.capacity);
    AccruedMonotone(l, l.capacity / l.refill, elapsed);
    assert l.capacity / l.refill >= 0.0;
  }

  lemma ExpiryKeepsLevel(l: Limits, b: Option<Bucket>, now: real)
    requires l.Valid() && InRange(l, b)
    ensures Level(l, Expire(l, b, now), now) == Level(l, b, now)
    ensures Take(l, Expire(l, b, now), now) == Take(l, b, now)
  {
    hide Accrued;
    if b.Some? && now - b.value.ts >= l.Ttl() {
      TtlRefills(l, now - b.value.ts);
    }
  }

  /** A bucket with expiry makes the same decisions, and reports the same levels, as one that never expires. */
  lemma {:induction false} ExpiryIsInvisible(l: Limits, b: Option<Bucket>, times: seq<real>)
    requires l.Valid() && InRange(l, b)
    ensures Outcomes(l, b, times) == Unexpired(l, b, times)
    decreases |times|
  {
    hide InRange, Take, Expire;
    if times != [] {
      ExpiryKeepsLevel(l, b, times[0]);
      TakeInRange(l, b, times[0]);
      ExpiryIsInvisible(l, Some(Take(l, b, times[0]).1), times[1..]);
    }
  }

  // ---------------------------------------------------------------------
  // A denied call is unobservable
  // ---------------------------------------------------------------------

  lemma DeniedKeepsLevel(l: Limits, b: Option<Bucket>, t: real, u: real)
    requires l.Valid() && InRange(l, b) && (b.Some? ==> b.value.ts <= t) && t <= u
    requires !Take(l, b, t).0.allowed
    ensures Level(l, Some(Take(l, b, t).1), u) == Level(l, b, u)
  {
    hide Accrued;
    AccruedMonotone(l, 0.0, u - t);
    if b.Some? {
      AccruedMonotone(l, 0.0, t - b.value.ts);
      AccruedSum(l, t - b.value.ts, u - t);
    }
  }

  /** Two states with the same level at the next call have the same outcomes from then on. */
  lemma SameLevelSameOutcomes(l: Limits, b: Option<Bucket>, c: Option<Bucket>, times: seq<real>)
    requires times != [] ==> Level(l, b, times[0]) == Level(l, c, times[0])
    ensures Unexpired(l, b, times) == Unexpired(l, c, times)
  {
  }

  lemma DeniedFirst(l: Limits, b: Option<Bucket>, t: real, post: seq<real>)
    requires l.Valid() && InRange(l, b)
    requires NonDecreasing([t] + post) && Before(b, [t] + post)
    requires !Take(l, b, t).0.allowed
    ensures Unexpired(l, b, [t] + post) == [Take(l, b, t).0] + Unexpired(l, b, post)
  {
    hide Level, Take, InRange;
    var times := [t] + post;
    assert times[1..] == post && times[0] == t;
    if post != [] {
      assert times[1] == post[0];
      DeniedKeepsLevel(l, b, t, post[0]);
    }
    SameLevelSameOutcomes(l, Some(Take(l, b, t).1), b, post);
  }

  function StateAfter(l: Limits, b: Option<Bucket>, times: seq<real>): Option<Bucket>
    decreases |times|
  {
    if times == [] then b else StateAfter(l, Some(Take(l, b, times[0]).1), times[1..])
  }

  /** A run splits at any point. */
  lemma {:induction false} UnexpiredConcat(l: Limits, b: Option<Bucket>, pre: seq<real>, post: seq<real>)
    ensures |Unexpired(l, b, pre)| == |pre|
    ensures Unexpired(l, b, pre + post) == Unexpired(l, b, pre) + Unexpired(l, StateAfter(l, b, pre), post)
    decreases |pre|
  {
    hide Take;
    if pre == [] {
      assert pre + post == post;
    } else {
      assert (pre + post)[0] == pre[0] && (pre + post)[1..] == pre[1..] + post;
      UnexpiredConcat(l, Some(Take(l, b, pre[0]).1), pre[1..], post);
    }
  }

  lemma {:induction false} StateAfterKept(l: Limits, b: Option<Bucket>, pre: seq<real>, post: seq<real>)
    requires l.Valid() && InRange(l, b) && NonDecreasing(pre + post) && Before(b, pre + post)
    ensures InRange(l, StateAfter(l, b, pre))
    ensures NonDecreasing(post) && Before(StateAfter(l, b, pre), post)
    decreases |pre|
  {
    hide InRange, Level;
    if pre == [] {
      assert pre + post == post;
    } else {
      assert (pre + post)[0] == pre[0] && (pre + post)[1..] == pre[1..] + post;
      TakeInRange(l, b, pre[0]);
      TailOrdered(l, b, pre + post);
      StateAfterKept(l, Some(Take(l, b, pre[0]).1), pre[1..], post);
    }
  }

  lemma DeniedDropped(l: Limits, b: Option<Bucket>, pre: seq<real>, t: real, post: seq<real>)
    requires l.Valid() && InRange(l, b)
    requires NonDecreasing(pre + [t] + post) && Before(b, pre + [t] + post)
    requires |Unexpired(l, b, pre + [t] + post)| > |pre| && !Unexpired(l, b, pre + [t] + post)[|pre|].allowed
    ensures var whole := Unexpired(l, b, pre + [t] + post);
            Unexpired(l, b, pre + post) == whole[..|pre|] + whole[|pre| + 1..]
  {
    hide InRange, Before, NonDecreasing, StateAfter, Take;
    var at := StateAfter(l, b, pre);
    assert pre + [t] + post == pre + ([t] + post);
    UnexpiredConcat(l, b, pre, [t] + post);
    UnexpiredConcat(l, b, pre, post);
    StateAfterKept(l, b, pre, [t] + post);
    assert Unexpired(l, at, [t] + post)[0] == Take(l, at, t).0;
    hide Unexpired;
    DeniedFirst(l, at, t, post);
  }

  lemma TailOrdered(l: Limits, b: Option<Bucket>, times: seq<real>)
    requires times != [] && NonDecreasing(times)
    ensures NonDecreasing(times[1..]) && Before(Some(Take(l, b, times[0]).1), times[1..])
  {
    assert forall i :: 0 <= i < |times| - 1 ==> times[1..][i] == times[i + 1];
  }

  lemma {:induction false} OutcomesLength(l: Limits, b: Option<Bucket>, times: seq<real>)
    requires l.Valid()
    ensures |Outcomes(l, b, times)| == |times|
    decreases |times|
  {
    hide Take, Expire;
    if times != [] {
      OutcomesLength(l, Some(Take(l, Expire(l, b, times[0]), times[0]).1), times[1..]);
    }
  }

  /** Removing a denied call from a run changes no other decision and no other reported level. */
  lemma DeniedIsUnobservable(l: Limits, b: Option<Bucket>, pre: seq<real>, t: real, post: seq<real>)
    requires l.Valid() && InRange(l, b)
    requires NonDecreasing(pre + [t] + post) && Before(b, pre + [t] + post)
    ensures |Outcomes(l, b, pre + [t] + post)| == |pre| + 1 + |post|
    ensures var whole := Outcomes(l, b, pre + [t] + post);
            !whole[|pre|].allowed ==> Outcomes(l, b, pre + post) == whole[..|pre|] + whole[|pre| + 1..]
  {
    OutcomesLength(l, b, pre + [t] + post);
    ExpiryIsInvisible(l, b, pre + [t] + post);
    ExpiryIsInvisible(l, b, pre + post);
    if !Outcomes(l, b, pre + [t] + post)[|pre|].allowed {
      DeniedDropped(l, b, pre, t, post);
    }
  }

  // ---------------------------------------------------------------------
  // Rate bound
  // ---------------------------------------------------------------------

  function Admitted(outcomes: seq<Outcome>): nat {
    if outcomes == [] then 0
    else (if outcomes[0].allowed then 1 else 0) + Admitted(outcomes[1..])
  }

  lemma {:induction false} AdmittedBound(l: Limits, b: Option<Bucket>, times: seq<real>, end: real)
    requires l.Valid() && InRange(l, b) && times != [] && NonDecreasing(times)
    requires forall i :: 0 <= i < |times| ==> times[i] <= end
    ensures Admitted(Unexpired(l, b, times)) as real <= Level(l, b, times[0]) + Accrued(l, end - times[0])
    decreases |times|
  {
    hide InRange, Accrued;
    var after := Take(l, b, times[0]).1;
    var outcomes := Unexpired(l, b, times);
    assert outcomes[1..] == Unexpired(l, Some(after), times[1..]);
    TakeInRange(l, b, times[0]);
    AccruedMonotone(l, 0.0, end - times[0]);
    if |times| > 1 {
      TailOrdered(l, b, times);
      AdmittedBound(l, Some(after), times[1..], end);
      AccruedSum(l, times[1] - times[0], end - times[1]);
    } else {
      assert times[1..] == [];
    }
  }

  /** Any run inside [from, to] admits at most the capacity plus what refills in that time. */
  lemma RateBound(l: Limits, b: Option<Bucket>, times: seq<real>, from: real, to: real)
    requires l.Valid() && InRange(l, b) && NonDecreasing(times) && from <= to
    requires forall i :: 0 <= i < |times| ==> from <= times[i] <= to
    ensures Admitted(Outcomes(l, b, times)) as real <= l.capacity + Accrued(l, to - from)
  {
    AccruedMonotone(l, 0.0, to - from);
    if times != [] {
      hide Level, Accrued, InRange, Outcomes, Unexpired, Admitted;
      ExpiryIsInvisible(l, b, times);
      AdmittedBound(l, b, times, to);
      TakeInRange(l, b, times[0]);
      AccruedMonotone(l, to - times[0], to - from);
    }
  }

  predicate Spaced(times: seq<real>, gap: real) {
    forall i :: 0 <= i < |times| - 1 ==> times[i + 1] - times[i] >= gap
  }

  /** The rate is also granted: calls spaced by the refill interval are never denied once one is admitted. */
  lemma SustainedRateAdmitted(l: Limits, b: Option<Bucket>, times: seq<real>)
    requires l.Valid() && l.capacity >= 1.0 && InRange(l, b)
    requires Spaced(times, 1.0 / l.refill)
    requires times != [] ==> Level(l, b, times[0]) >= 1.0
    ensures Admitted(Outcomes(l, b, times)) == |times|
  {
    hide InRange, Level, Outcomes, Unexpired, Admitted, Spaced;
    ExpiryIsInvisible(l, b, times);
    SustainedUnexpired(l, b, times);
    AllAdmitted(Unexpired(l, b, times));
  }

  lemma {:induction false} AllAdmitted(outcomes: seq<Outcome>)
    requires forall i :: 0 <= i < |outcomes| ==> outcomes[i].allowed
    ensures Admitted(outcomes) == |outcomes|
  {
    if outcomes != [] {
      AllAdmitted(outcomes[1..]);
    }
  }

  lemma {:induction false} SustainedUnexpired(l: Limits, b: Option<Bucket>, times: seq<real>)
    requires l.Valid() && l.capacity >= 1.0 && InRange(l, b)
    requires Spaced(times, 1.0 / l.refill)
    requires times != [] ==> Level(l, b, times[0]) >= 1.0
    ensures |Unexpired(l, b, times)| == |times|
    ensures forall i :: 0 <= i < |times| ==> Unexpired(l, b, times)[i].allowed
    decreases |times|
  {
    hide InRange, Level, Accrued;
    if times != [] {
      var after := Take(l, b, times[0]).1;
      var outcomes := Unexpired(l, b, times);
      TakeInRange(l, b, times[0]);
      assert outcomes == [outcomes[0]] + Unexpired(l, Some(after), times[1..]);
      if |times| > 1 {
        assert times[0 + 1] - times[0] >= 1.0 / l.refill;
        LevelAfterInterval(l, after, times[1]);
      }
      SpacedTail(times, 1.0 / l.refill);
      SustainedUnexpired(l, Some(after), times[1..]);
    }
  }

  lemma LevelAfterInterval(l: Limits, b: Bucket, now: real)
    requires l.Valid() && l.capacity >= 1.0 && InRange(l, Some(b)) && now - b.ts >= 1.0 / l.refill
    ensures Level(l, Some(b), now) >= 1.0
  {
    hide Accrued;
    AccruedQuotient(l, 1.0);
    AccruedMonotone(l, 1.0 / l.refill, now - b.ts);
    AccruedMonotone(l, 0.0, now - b.ts);
  }

  lemma SpacedTail(times: seq<real>, gap: real)
    requires times != [] && Spaced(times, gap)
    ensures Spaced(times[1..], gap)
  {
    assert forall i :: 0 <= i < |times| - 2 ==> times[1..][i + 1] - times[1..][i] == times[(i + 1) + 1] - times[i + 1];
  }

  // ---------------------------------------------------------------------
  // Retry-After
  // ---------------------------------------------------------------------

  function Ceiling(x: real): (n: int)
    ensures x <= n as real < x + 1.0
  {
    -((-x).Floor)
  }

  function RetryAfter(tokens: real, refill: real): int
    requires refill > 0.0
  {
    var deficit := 1.0 - tokens;
    if deficit <= 0.0 then 0
    else
      var wait := Ceiling(deficit / refill);
      if wait > 1 then wait else 1
  }

  /**
   After a denial the advertised wait is the least positive whole number of
   seconds after which a retry, with no call in between, is admitted
   (the Retry-After of RFC 9110 section 10.2.3).
   */
  lemma RetryAfterIsLeast(l: Limits, b: Option<Bucket>, now: real, wait: int)
    requires l.Valid() && l.capacity >= 1.0 && InRange(l, b)
    requires !Take(l, Expire(l, b, now), now).0.allowed && wait >= 1
    ensures var (outcome, after) := Take(l, Expire(l, b, now), now);
            var retry := now + wait as real;
            Take(l, Expire(l, Some(after), retry), retry).0.allowed <==> wait >= RetryAfter(outcome.tokens, l.refill)
  {
    hide Accrued, Level, InRange, Ceiling;
    ExpiryKeepsLevel(l, b, now);
    TakeInRange(l, b, now);
    var after := Take(l, b, now).1;
    ExpiryKeepsLevel(l, Some(after), now + wait as real);
    RetryLevel(l, after, wait);
    CeilingIsLeast((1.0 - after.tokens) / l.refill, wait);
  }

  lemma CeilingIsLeast(x: real, n: int)
    ensures n >= Ceiling(x) <==> n as real >= x
  {
  }

  lemma RetryLevel(l: Limits, b: Bucket, wait: int)
    requires l.Valid() && l.capacity >= 1.0 && wait >= 1
    ensures Level(l, Some(b), b.ts + wait as real) >= 1.0 <==> wait as real >= (1.0 - b.tokens) / l.refill
  {
    hide Accrued;
    AccruedQuotient(l, 1.0 - b.tokens);
    AccruedMonotone(l, (1.0 - b.tokens) / l.refill, wait as real);
    assert b.ts + wait as real - b.ts == wait as real;
  }

  // ---------------------------------------------------------------------
  // The limiter, one bucket a key
  // ---------------------------------------------------------------------

  datatype Decision = Decision(allowed: bool, retryAfter: int)

  class RateLimiter {
    const limits: Limits
    var buckets: map<string, Bucket>

    constructor ()
      ensures limits == INGEST && buckets == map[]
    {
      limits := INGEST;
      buckets := map[];
    }

    ghost predicate Valid()
      reads this
    {
      limits.Valid() && forall k :: k in buckets ==> InRange(limits, Some(buckets[k]))
    }

    ghost function BucketOf(key: string): Option<Bucket>
      reads this
    {
      if key in buckets then Some(buckets[key]) else None
    }

    /** The script against one key: the key is gone once its expiry has passed. */
    method Eval(key: string, now: real) returns (outcome: Outcome)
      requires Valid()
      modifies this`buckets
      ensures Valid()
      ensures var (expected, after) := Take(limits, Expire(limits, old(BucketOf(key)), now), now);
              outcome == expected && buckets == old(buckets)[key := after]
    {
      hide Accrued;
      AccruedMonotone(limits, 0.0, 0.0);
      var tokens, ts := limits.capacity, now;
      if key in buckets && now - buckets[key].ts < limits.Ttl() {
        tokens, ts := buckets[key].tokens, buckets[key].ts;
      }
      ghost var state := Expire(limits, BucketOf(key), now);
      TakeInRange(limits, state, now);
      var elapsed := now - ts;
      if elapsed < 0.0 {
        elapsed := 0.0;
      }
      tokens := Min(limits.capacity, tokens + Accrued(limits, elapsed));
      var allowed := false;
      if tokens >= 1.0 {
        tokens := tokens - 1.0;
        allowed := true;
      }
      buckets := buckets[key := Bucket(tokens, now)];
      outcome := Outcome(allowed, tokens);
    }

    /** A denied caller is told the least whole wait; a denial is of this key alone. */
    method CheckRateLimit(keyId: string, now: real) returns (d: Decision)
      requires Valid()
      modifies this`buckets
      ensures Valid()
      ensures var (expected, after) := Take(limits, Expire(limits, old(BucketOf(keyId)), now), now);
              && buckets == old(buckets)[keyId := after]
              && d.allowed == expected.allowed
              && d.retryAfter == (if expected.allowed then 0 else RetryAfter(expected.tokens, limits.refill))
              && (!d.allowed ==> d.retryAfter >= 1)
    {
      var outcome := Eval(keyId, now);
      if outcome.allowed {
        return Decision(true, 0);
      }
      return Decision(false, RetryAfter(outcome.tokens, limits.refill));
    }
  }
}
