/** What a call costs and what a burst gets: the token account of a bucket, exactly. */
module RateLaws {
  import opened Wrappers
  import opened RateLimit

  // ---------------------------------------------------------------------
  // The account
  // ---------------------------------------------------------------------

  /** The tokens a bucket would hold at `now` if it could hold any number: a missing bucket is a full one. */
  function Uncapped(l: Limits, b: Option<Bucket>, now: real): real {
    match b
    case None => l.capacity
    case Some(Bucket(tokens, ts)) => tokens + (now - ts) * l.refill
  }

  lemma AccruedIs(l: Limits, elapsed: real)
    ensures Accrued(l, elapsed) == elapsed * l.refill
  {
  }

  lemma UncappedIs(l: Limits, b: Option<Bucket>, now: real)
    ensures Uncapped(l, b, now) == match b case None => l.capacity case Some(k) => k.tokens + Accrued(l, now - k.ts)
  {
    hide Accrued;
    if b.Some? { AccruedIs(l, now - b.value.ts); }
  }

  /** Never more than the capacity. */
  lemma LevelIsCapped(l: Limits, b: Option<Bucket>, now: real)
    requires l.Valid() && (b.Some? ==> b.value.ts <= now)
    ensures Level(l, b, now) <= l.capacity && Level(l, b, now) <= Uncapped(l, b, now)
    ensures Level(l, b, now) == l.capacity || Level(l, b, now) == Uncapped(l, b, now)
  {
    hide Accrued, Uncapped;
    UncappedIs(l, b, now);
  }

  /** An admitted call costs one token and a denied one none; only a bucket without a whole token denies. */
  lemma OneCallOneToken(l: Limits, b: Option<Bucket>, now: real)
    ensures var (outcome, after) := Take(l, b, now);
            && (outcome.allowed <==> Level(l, b, now) >= 1.0)
            && outcome.tokens == Level(l, b, now) - (if outcome.allowed then 1.0 else 0.0)
            && after.tokens == outcome.tokens && after.ts == now
  {
    hide Level;
  }

  function CountTo(outcomes: seq<Outcome>, n: nat): nat
    requires n <= |outcomes|
  {
    Admitted(outcomes[..n])
  }

  lemma CountFirst(outcomes: seq<Outcome>, n: nat)
    requires 0 < n <= |outcomes|
    ensures CountTo(outcomes, n) == (if outcomes[0].allowed then 1 else 0) + CountTo(outcomes[1..], n - 1)
  {
    assert outcomes[..n][1..] == outcomes[1..][..n - 1];
  }

  /** The account before call `i`: what was there, what accrued since, less one for each call admitted. */
  function Account(l: Limits, start: real, outcomes: seq<Outcome>, times: seq<real>, i: nat): real
    requires i < |times| && i <= |outcomes|
  {
    start + (times[i] - times[0]) * l.refill - CountTo(outcomes, i) as real
  }

  predicate BelowCap(l: Limits, start: real, outcomes: seq<Outcome>, times: seq<real>, i: nat)
    requires i < |times| && i < |outcomes|
  {
    forall j: nat :: j <= i ==> Account(l, start, outcomes, times, j) <= l.capacity
  }

  /** The account moves on by one call. */
  lemma AccountFirst(l: Limits, start: real, outcomes: seq<Outcome>, times: seq<real>, i: nat)
    requires 0 < i < |times| && i <= |outcomes|
    ensures var spent := if outcomes[0].allowed then 1.0 else 0.0;
            Account(l, start, outcomes, times, i)
            == Account(l, start - spent + (times[1] - times[0]) * l.refill, outcomes[1..], times[1..], i - 1)
  {
    CountFirst(outcomes, i);
    Distribute(times[1] - times[0], times[i] - times[1], l.refill);
  }

  lemma Distribute(a: real, b: real, c: real)
    ensures (a + b) * c == a * c + b * c
  {
  }

  lemma AccountStart(l: Limits, start: real, outcomes: seq<Outcome>, times: seq<real>)
    requires times != []
    ensures Account(l, start, outcomes, times, 0) == start
  {
    assert outcomes[..0] == [];
  }

  lemma UnexpiredFirst(l: Limits, b: Option<Bucket>, times: seq<real>)
    requires times != []
    ensures var outcomes, (outcome, after) := Unexpired(l, b, times), Take(l, b, times[0]);
            |outcomes| > 0 && outcomes[0] == outcome && outcomes[1..] == Unexpired(l, Some(after), times[1..])
  {
  }

  /** The exact account, on the times alone: while no refill meets the cap, the level is the account. */
  lemma {:induction false} LevelIsAccount(l: Limits, b: Option<Bucket>, start: real, times: seq<real>, i: nat)
    requires l.Valid() && NonDecreasing(times) && i < |times| && Before(b, times)
    requires start == Uncapped(l, b, times[0])
    requires |Unexpired(l, b, times)| == |times| && BelowCap(l, start, Unexpired(l, b, times), times, i)
    ensures var outcomes := Unexpired(l, b, times);
            && (outcomes[i].allowed <==> Account(l, start, outcomes, times, i) >= 1.0)
            && outcomes[i].tokens == Account(l, start, outcomes, times, i) - (if outcomes[i].allowed then 1.0 else 0.0)
    decreases i
  {
    hide Level, Unexpired, NonDecreasing, Account;
    var outcomes := Unexpired(l, b, times);
    LevelIsCapped(l, b, times[0]);
    OneCallOneToken(l, b, times[0]);
    UnexpiredFirst(l, b, times);
    AccountStart(l, start, outcomes, times);
    assert Account(l, start, outcomes, times, 0) <= l.capacity;
    assert Level(l, b, times[0]) == start by { CappedUnder(l, b, times[0]); }
    if i > 0 {
      var after := Take(l, b, times[0]).1;
      TailOrdered(l, b, times);
      var next := start - (if outcomes[0].allowed then 1.0 else 0.0) + (times[1] - times[0]) * l.refill;
      forall j: nat | j <= i - 1 ensures Account(l, next, outcomes[1..], times[1..], j) <= l.capacity {
        AccountFirst(l, start, outcomes, times, j + 1);
        assert Account(l, start, outcomes, times, j + 1) <= l.capacity;
      }
      AccountFirst(l, start, outcomes, times, i);
      LevelIsAccount(l, Some(after), next, times[1..], i - 1);
    }
  }

  lemma CappedUnder(l: Limits, b: Option<Bucket>, now: real)
    requires l.Valid() && (b.Some? ==> b.value.ts <= now) && Uncapped(l, b, now) <= l.capacity
    ensures Level(l, b, now) == Uncapped(l, b, now)
  {
    hide Accrued, Uncapped;
    UncappedIs(l, b, now);
  }

  /** The same of a bucket whose idle keys expire. */
  lemma OutcomesAccount(l: Limits, b: Option<Bucket>, times: seq<real>, i: nat)
    requires l.Valid() && InRange(l, b) && NonDecreasing(times) && i < |times| && Before(b, times)
    ensures |Outcomes(l, b, times)| == |times|
    ensures var outcomes, start := Outcomes(l, b, times), Uncapped(l, b, times[0]);
            BelowCap(l, start, outcomes, times, i) ==>
              && (outcomes[i].allowed <==> Account(l, start, outcomes, times, i) >= 1.0)
              && outcomes[i].tokens == Account(l, start, outcomes, times, i) - (if outcomes[i].allowed then 1.0 else 0.0)
  {
    hide Outcomes, Unexpired, Account, BelowCap, InRange, NonDecreasing;
    OutcomesLength(l, b, times);
    ExpiryIsInvisible(l, b, times);
    if BelowCap(l, Uncapped(l, b, times[0]), Outcomes(l, b, times), times, i) {
      LevelIsAccount(l, b, Uncapped(l, b, times[0]), times, i);
    }
  }

  // ---------------------------------------------------------------------
  // What is guaranteed
  // ---------------------------------------------------------------------

  /** As many calls as there are whole tokens at the first are all admitted, however they are timed. */
  lemma {:induction false} TokensAreGranted(l: Limits, b: Option<Bucket>, times: seq<real>, i: nat)
    requires l.Valid() && InRange(l, b) && NonDecreasing(times) && Before(b, times) && i < |times|
    requires Level(l, b, times[0]) >= (i + 1) as real
    ensures |Unexpired(l, b, times)| == |times| && Unexpired(l, b, times)[i].allowed
    decreases i
  {
    hide Level, Accrued, InRange, NonDecreasing;
    var outcomes := Unexpired(l, b, times);
    UnexpiredLength(l, b, times);
    OneCallOneToken(l, b, times[0]);
    UnexpiredFirst(l, b, times);
    if i > 0 {
      var after := Take(l, b, times[0]).1;
      TakeInRange(l, b, times[0]);
      OrderedFirst(times);
      TailOrdered(l, b, times);
      LevelOnlyGrows(l, after, times[1]);
      TokensAreGranted(l, Some(after), times[1..], i - 1);
      assert outcomes[i] == outcomes[1..][i - 1];
    }
  }

  lemma OrderedFirst(times: seq<real>)
    requires |times| > 1 && NonDecreasing(times)
    ensures times[0] <= times[1]
  {
  }

  lemma LevelOnlyGrows(l: Limits, b: Bucket, now: real)
    requires l.Valid() && InRange(l, Some(b)) && b.ts <= now
    ensures Level(l, Some(b), now) >= b.tokens
  {
    hide Accrued;
    AccruedMonotone(l, 0.0, now - b.ts);
  }

  lemma UnexpiredLength(l: Limits, b: Option<Bucket>, times: seq<real>)
    ensures |Unexpired(l, b, times)| == |times|
  {
    UnexpiredConcat(l, b, times, []);
  }

  /** Any run admits at least as many calls as it has, or as there are whole tokens at its start. */
  lemma AtLeastTheTokens(l: Limits, b: Option<Bucket>, times: seq<real>)
    requires l.Valid() && InRange(l, b) && NonDecreasing(times) && Before(b, times) && times != []
    ensures var tokens := Level(l, b, times[0]).Floor;
            Admitted(Outcomes(l, b, times)) >= if |times| <= tokens then |times| else tokens
  {
    hide Level, InRange, Outcomes, Unexpired, Admitted, NonDecreasing, Before;
    ExpiryIsInvisible(l, b, times);
    TakeInRange(l, b, times[0]);
    UnexpiredLength(l, b, times);
    var outcomes := Unexpired(l, b, times);
    var tokens := Level(l, b, times[0]).Floor;
    var n: nat := if |times| <= tokens then |times| else tokens;
    forall i | 0 <= i < n ensures outcomes[i].allowed {
      TokensAreGranted(l, b, times, i);
    }
    AdmittedPrefix(outcomes, n);
  }

  lemma {:induction false} AdmittedPrefix(outcomes: seq<Outcome>, n: nat)
    requires n <= |outcomes| && forall i :: 0 <= i < n ==> outcomes[i].allowed
    ensures Admitted(outcomes) >= n
  {
    if n > 0 {
      AdmittedPrefix(outcomes[1..], n - 1);
    }
  }

  // ---------------------------------------------------------------------
  // Bursts
  // ---------------------------------------------------------------------

  /** `n` calls at one instant. */
  function Burst(n: nat, now: real): (times: seq<real>)
    ensures |times| == n && forall i :: 0 <= i < n ==> times[i] == now
  {
    seq(n, i => now)
  }

  /** A bucket just written holds what was written. */
  lemma LevelAtOnce(l: Limits, tokens: real, now: real)
    requires tokens <= l.capacity
    ensures Level(l, Some(Bucket(tokens, now)), now) == tokens
  {
  }

  lemma {:induction false} BurstUnexpired(l: Limits, b: Option<Bucket>, n: nat, now: real, i: nat)
    requires l.Valid() && InRange(l, b) && i < n
    ensures |Unexpired(l, b, Burst(n, now))| == n
    ensures Unexpired(l, b, Burst(n, now))[i].allowed <==> Level(l, b, now) >= (i + 1) as real
    ensures Unexpired(l, b, Burst(n, now))[i].allowed ==>
              Unexpired(l, b, Burst(n, now))[i].tokens == Level(l, b, now) - (i + 1) as real
    decreases n
  {
    hide Level, InRange;
    var times := Burst(n, now);
    UnexpiredLength(l, b, times);
    UnexpiredFirst(l, b, times);
    OneCallOneToken(l, b, now);
    TakeInRange(l, b, now);
    if i > 0 {
      assert times[1..] == Burst(n - 1, now);
      var after := Take(l, b, now).1;
      LevelAtOnce(l, after.tokens, now);
      BurstUnexpired(l, Some(after), n - 1, now, i - 1);
      assert Unexpired(l, b, times)[i] == Unexpired(l, b, times)[1..][i - 1];
    }
  }

  /** Of calls at one instant exactly the whole tokens there are admitted, one each, and the next is denied. */
  lemma BurstGetsTheTokens(l: Limits, b: Option<Bucket>, n: nat, now: real, i: nat)
    requires l.Valid() && InRange(l, b) && i < n
    ensures |Outcomes(l, b, Burst(n, now))| == n
    ensures Outcomes(l, b, Burst(n, now))[i].allowed <==> Level(l, b, now) >= (i + 1) as real
    ensures Outcomes(l, b, Burst(n, now))[i].allowed ==>
              Outcomes(l, b, Burst(n, now))[i].tokens == Level(l, b, now) - (i + 1) as real
  {
    hide Outcomes, Unexpired, Level, InRange;
    ExpiryIsInvisible(l, b, Burst(n, now));
    BurstUnexpired(l, b, n, now, i);
  }

  /** The ingest limits: a new key gets 120 calls at once; with nothing left the wait is one second; a key idle for 180 seconds is dropped. */
  lemma IngestBurst(n: nat, now: real, i: nat)
    requires i < n
    ensures |Outcomes(INGEST, None, Burst(n, now))| == n
    ensures Outcomes(INGEST, None, Burst(n, now))[i].allowed <==> i < 120
    ensures i < 120 ==> Outcomes(INGEST, None, Burst(n, now))[i].tokens == (119 - i) as real
    ensures RetryAfter(0.0, INGEST.refill) == 1 && INGEST.refill == 1.0 && INGEST.Ttl() == 180.0
  {
    hide Outcomes;
    BurstGetsTheTokens(INGEST, None, n, now, i);
  }

  /** An ingest key is dropped exactly when it has been idle for three minutes, long after it is full again. */
  lemma IngestExpiry(b: Bucket, now: real)
    ensures Expire(INGEST, Some(b), now).None? <==> now - b.ts >= 180.0
    ensures Expire(INGEST, Some(b), now).Some? ==> Expire(INGEST, Some(b), now) == Some(b)
    ensures InRange(INGEST, Some(b)) && now - b.ts >= 120.0 ==> Level(INGEST, Some(b), now) == 120.0
  {
  }
}
