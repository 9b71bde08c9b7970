/** The per-account login lockout. Attempts are atomic; password verification is a boolean input. */
module Lockout {
  import opened Wrappers

  /** Microseconds. */
  type Time = int

  const LOCKOUT_THRESHOLD: nat := 10
  const LOCKOUT_DURATION: Time := 15 * 60 * 1_000_000

  datatype Account = Account(failedCount: nat, lockedUntil: Option<Time>, lastLogin: Option<Time>)

  const FRESH := Account(0, None, None)

  /** `Refused` spends no password verification. */
  datatype Outcome = Refused | Failed | LoggedIn

  datatype Attempt = Attempt(now: Time, passwordOk: bool)

  predicate Locked(a: Account, now: Time) {
    a.lockedUntil.Some? && a.lockedUntil.value > now
  }

  function Step(a: Account, t: Attempt): (Account, Outcome) {
    if Locked(a, t.now) then (a, Refused)
    else if t.passwordOk then (Account(0, None, Some(t.now)), LoggedIn)
    else
      var count := (if a.lockedUntil.Some? then 0 else a.failedCount) + 1;
      (a.(failedCount := count,
          lockedUntil := if count >= LOCKOUT_THRESHOLD then Some(t.now + LOCKOUT_DURATION) else None),
       Failed)
  }

  function Run(a: Account, attempts: seq<Attempt>): Account
    decreases |attempts|
  {
    if attempts == [] then a else Run(Step(a, attempts[0]).0, attempts[1..])
  }

  function Results(a: Account, attempts: seq<Attempt>): (results: seq<Outcome>)
    ensures |results| == |attempts|
    decreases |attempts|
  {
    if attempts == [] then [] else [Step(a, attempts[0]).1] + Results(Step(a, attempts[0]).0, attempts[1..])
  }

  class User {
    var failedLoginCount: nat
    var lockedUntil: Option<Time>
    var lastLoginAt: Option<Time>

    ghost function View(): Account
      reads this
    {
      Account(failedLoginCount, lockedUntil, lastLoginAt)
    }

    constructor ()
      ensures View() == FRESH
    {
      failedLoginCount, lockedUntil, lastLoginAt := 0, None, None;
    }

    method Authenticate(now: Time, passwordOk: bool) returns (success: bool, verified: bool)
      modifies this
      ensures var (after, result) := Step(old(View()), Attempt(now, passwordOk));
              View() == after && success == result.LoggedIn? && verified == !result.Refused?
    {
      if lockedUntil.Some? && lockedUntil.value > now {
        return false, false;
      }
      var effectiveCount := failedLoginCount;
      if lockedUntil.Some? && lockedUntil.value <= now {
        effectiveCount := 0;
      }
      if passwordOk {
        failedLoginCount := 0;
        lockedUntil := None;
        lastLoginAt := Some(now);
        return true, true;
      }
      var newCount := effectiveCount + 1;
      failedLoginCount := newCount;
      if newCount >= LOCKOUT_THRESHOLD {
        lockedUntil := Some(now + LOCKOUT_DURATION);
      } else {
        lockedUntil := None;
      }
      return false, true;
    }
  }

  // ---------------------------------------------------------------------
  // Invariant
  // ---------------------------------------------------------------------

  /** The count stays within the threshold, and a lock is recorded exactly when it is reached. */
  predicate Inv(a: Account) {
    a.failedCount <= LOCKOUT_THRESHOLD && (a.lockedUntil.Some? <==> a.failedCount == LOCKOUT_THRESHOLD)
  }

  lemma {:induction false} RunKeepsInv(a: Account, attempts: seq<Attempt>)
    requires Inv(a)
    ensures Inv(Run(a, attempts))
    decreases |attempts|
  {
    if attempts != [] {
      RunKeepsInv(Step(a, attempts[0]).0, attempts[1..]);
    }
  }

  // ---------------------------------------------------------------------
  // The lockout bound
  // ---------------------------------------------------------------------

  predicate NonDecreasing(attempts: seq<Attempt>) {
    forall i, j :: 0 <= i < j < |attempts| ==> attempts[i].now <= attempts[j].now
  }

  /** Attempts whose password is verified. */
  function Verified(results: seq<Outcome>): nat {
    if results == [] then 0 else (if results[0].Refused? then 0 else 1) + Verified(results[1..])
  }

  predicate NoLogin(results: seq<Outcome>) {
    forall i :: 0 <= i < |results| ==> !results[i].LoggedIn?
  }

  /** The verifications an account can still allow before `end` without a success. */
  function Budget(a: Account, end: Time): nat
    requires Inv(a)
  {
    if a.lockedUntil.None? then LOCKOUT_THRESHOLD - a.failedCount
    else if a.lockedUntil.value > end then 0
    else LOCKOUT_THRESHOLD
  }

  lemma {:induction false} VerifiedWithinBudget(a: Account, attempts: seq<Attempt>, end: Time)
    requires Inv(a) && NonDecreasing(attempts)
    requires forall i :: 0 <= i < |attempts| ==> attempts[i].now <= end
    requires attempts != [] ==> end - attempts[0].now < LOCKOUT_DURATION
    requires NoLogin(Results(a, attempts))
    ensures Verified(Results(a, attempts)) <= Budget(a, end)
    decreases |attempts|
  {
    if attempts != [] {
      var (after, result) := Step(a, attempts[0]);
      var results := Results(a, attempts);
      var rest := Results(after, attempts[1..]);
      assert results[0] == result && results[1..] == rest;
      assert forall i :: 0 <= i < |rest| ==> rest[i] == results[i + 1];
      assert forall i :: 0 <= i < |attempts| - 1 ==> attempts[1..][i] == attempts[i + 1];
      VerifiedWithinBudget(after, attempts[1..], end);
    }
  }

  /** The first `n` outcomes and the rest. */
  lemma {:induction false} ResultsSplit(a: Account, before: seq<Attempt>, window: seq<Attempt>)
    ensures Results(a, before + window) == Results(a, before) + Results(Run(a, before), window)
    decreases |before|
  {
    hide Step;
    if before == [] {
      assert before + window == window;
    } else {
      assert (before + window)[0] == before[0] && (before + window)[1..] == before[1..] + window;
      ResultsSplit(Step(a, before[0]).0, before[1..], window);
    }
  }

  /** How many of the attempts come less than a lockout duration after `start`. */
  function Within(attempts: seq<Attempt>, start: Time): (n: nat)
    ensures n <= |attempts|
    ensures forall i :: 0 <= i < n ==> attempts[i].now - start < LOCKOUT_DURATION
    ensures n < |attempts| ==> attempts[n].now - start >= LOCKOUT_DURATION
  {
    if attempts == [] || attempts[0].now - start >= LOCKOUT_DURATION then 0
    else 1 + Within(attempts[1..], start)
  }

  lemma SplitOrdered(attempts: seq<Attempt>, n: nat)
    requires n <= |attempts| && NonDecreasing(attempts)
    ensures NonDecreasing(attempts[..n]) && NonDecreasing(attempts[n..])
  {
  }

  lemma NoLoginParts(a: seq<Outcome>, b: seq<Outcome>)
    requires NoLogin(a + b)
    ensures NoLogin(a) && NoLogin(b)
  {
    assert forall i :: 0 <= i < |a| ==> a[i] == (a + b)[i];
    assert forall i :: 0 <= i < |b| ==> b[i] == (a + b)[|a| + i];
  }

  /** Each lockout duration of a stretch without a login verifies at most the threshold. */
  lemma {:induction false} VerifiedPerDuration(a: Account, attempts: seq<Attempt>, k: nat)
    requires Inv(a) && NonDecreasing(attempts)
    requires attempts != [] ==> attempts[|attempts| - 1].now - attempts[0].now < k * LOCKOUT_DURATION
    requires NoLogin(Results(a, attempts))
    ensures Verified(Results(a, attempts)) <= k * LOCKOUT_THRESHOLD
    decreases k
  {
    hide Step, Inv, NoLogin, NonDecreasing, Results, Verified, Run;
    if attempts == [] {
      NothingVerified(a);
    } else {
      var n := Within(attempts, attempts[0].now);
      var first, rest := attempts[..n], attempts[n..];
      assert first + rest == attempts;
      ResultsSplit(a, first, rest);
      var after := Run(a, first);
      VerifiedConcat(Results(a, first), Results(after, rest));
      RunKeepsInv(a, first);
      SplitOrdered(attempts, n);
      NoLoginParts(Results(a, first), Results(after, rest));
      FirstDuration(a, first);
      OneDurationLess(k);
      VerifiedPerDuration(after, rest, k - 1);
    }
  }

  lemma NothingVerified(a: Account)
    ensures Verified(Results(a, [])) == 0
  {
  }

  lemma FirstDuration(a: Account, attempts: seq<Attempt>)
    requires Inv(a) && NonDecreasing(attempts) && NoLogin(Results(a, attempts))
    requires forall i :: 0 <= i < |attempts| ==> attempts[i].now - attempts[0].now < LOCKOUT_DURATION
    ensures Verified(Results(a, attempts)) <= LOCKOUT_THRESHOLD
  {
    hide Results, Verified, Step, NoLogin;
    if attempts != [] {
      VerifiedWithinBudget(a, attempts, attempts[|attempts| - 1].now);
    } else {
      NothingVerified(a);
    }
  }

  lemma OneDurationLess(k: int)
    ensures (k - 1) * LOCKOUT_DURATION == k * LOCKOUT_DURATION - LOCKOUT_DURATION
    ensures (k - 1) * LOCKOUT_THRESHOLD == k * LOCKOUT_THRESHOLD - LOCKOUT_THRESHOLD
  {
  }

  /**
   In any run from a fresh account, any stretch shorter than k lockout
   durations without a successful login verifies at most k times the threshold
   number of passwords, whatever came before.
   */
  lemma {:induction false} LockoutBound(before: seq<Attempt>, window: seq<Attempt>, k: nat)
    requires NonDecreasing(window)
    requires window != [] ==> window[|window| - 1].now - window[0].now < k * LOCKOUT_DURATION
    requires NoLogin(Results(FRESH, before + window)[|before|..])
    ensures Verified(Results(FRESH, before + window)[|before|..]) <= k * LOCKOUT_THRESHOLD
  {
    hide Step;
    RunKeepsInv(FRESH, before);
    ResultsSplit(FRESH, before, window);
    var a := Run(FRESH, before);
    assert Results(FRESH, before + window)[|before|..] == Results(a, window);
    VerifiedPerDuration(a, window, k);
  }

  // ---------------------------------------------------------------------
  // The bound is reached, and is lost at the full duration
  // ---------------------------------------------------------------------

  function Failures(n: nat, now: Time): (attempts: seq<Attempt>)
    ensures |attempts| == n
    ensures forall i :: 0 <= i < n ==> attempts[i] == Attempt(now, false)
  {
    seq(n, i => Attempt(now, false))
  }

  lemma {:induction false} FailuresCount(a: Account, n: nat, now: Time)
    requires Inv(a) && a.lockedUntil.None? && a.failedCount + n <= LOCKOUT_THRESHOLD
    ensures Verified(Results(a, Failures(n, now))) == n
    ensures forall r :: r in Results(a, Failures(n, now)) ==> r == Failed
    ensures n > 0 ==>
              Run(a, Failures(n, now)).lockedUntil
              == (if a.failedCount + n == LOCKOUT_THRESHOLD then Some(now + LOCKOUT_DURATION) else None)
    decreases n
  {
    if n > 0 {
      var attempts := Failures(n, now);
      assert attempts[1..] == Failures(n - 1, now);
      var after := Step(a, attempts[0]).0;
      if n > 1 { FailuresCount(after, n - 1, now); }
      var results := Results(a, attempts);
      assert results == [Failed] + Results(after, attempts[1..]);
      assert results[1..] == Results(after, attempts[1..]);
    }
  }

  lemma {:induction false} VerifiedConcat(a: seq<Outcome>, b: seq<Outcome>)
    ensures Verified(a + b) == Verified(a) + Verified(b)
  {
    if a == [] {
      assert a + b == b;
    } else {
      assert (a + b)[1..] == a[1..] + b;
      VerifiedConcat(a[1..], b);
    }
  }

  /** The full threshold can be spent at one instant; one verification more fits in a stretch as long as the duration. */
  lemma BoundIsTight(now: Time)
    ensures var window := Failures(LOCKOUT_THRESHOLD, now) + [Attempt(now + LOCKOUT_DURATION, false)];
            && NonDecreasing(window)
            && (forall r :: r in Results(FRESH, window) ==> r == Failed)
            && Verified(Results(FRESH, Failures(LOCKOUT_THRESHOLD, now))) == LOCKOUT_THRESHOLD
            && Verified(Results(FRESH, window)) == LOCKOUT_THRESHOLD + 1
  {
    var first := Failures(LOCKOUT_THRESHOLD, now);
    var last := [Attempt(now + LOCKOUT_DURATION, false)];
    FailuresCount(FRESH, LOCKOUT_THRESHOLD, now);
    ResultsSplit(FRESH, first, last);
    var a := Run(FRESH, first);
    assert last[1..] == [];
    assert Results(a, last) == [Failed];
    VerifiedConcat(Results(FRESH, first), [Failed]);
  }

  /** The threshold number of failures at the start of each of k lockout durations. */
  function Bursts(k: nat, now: Time): seq<Attempt>
    decreases k
  {
    if k == 0 then [] else Failures(LOCKOUT_THRESHOLD, now) + Bursts(k - 1, now + LOCKOUT_DURATION)
  }

  predicate AllFailed(results: seq<Outcome>) {
    forall i :: 0 <= i < |results| ==> results[i] == Failed
  }

  lemma AllFailedConcat(a: seq<Outcome>, b: seq<Outcome>)
    requires AllFailed(a) && AllFailed(b)
    ensures AllFailed(a + b)
  {
  }

  /** A burst fits as soon as an earlier lock has run out. */
  lemma BurstFails(a: Account, now: Time)
    requires Inv(a) && (a.lockedUntil.Some? ==> a.lockedUntil.value <= now)
    requires a.lockedUntil.None? ==> a.failedCount == 0
    ensures Verified(Results(a, Failures(LOCKOUT_THRESHOLD, now))) == LOCKOUT_THRESHOLD
    ensures AllFailed(Results(a, Failures(LOCKOUT_THRESHOLD, now)))
    ensures Run(a, Failures(LOCKOUT_THRESHOLD, now)).lockedUntil == Some(now + LOCKOUT_DURATION)
  {
    var attempts := Failures(LOCKOUT_THRESHOLD, now);
    var after := Step(a, attempts[0]).0;
    assert attempts[1..] == Failures(LOCKOUT_THRESHOLD - 1, now);
    FailuresCount(after, LOCKOUT_THRESHOLD - 1, now);
    var results := Results(a, attempts);
    assert results == [Failed] + Results(after, attempts[1..]);
    assert results[1..] == Results(after, attempts[1..]);
    forall i | 0 <= i < |results| ensures results[i] == Failed {
      if i > 0 { assert results[1..][i - 1] in results[1..]; }
    }
  }

  lemma {:induction false} BurstsOrdered(k: nat, now: Time)
    ensures NonDecreasing(Bursts(k, now))
    ensures forall i :: 0 <= i < |Bursts(k, now)| ==> now <= Bursts(k, now)[i].now < now + k * LOCKOUT_DURATION
    decreases k
  {
    if k > 0 {
      BurstsOrdered(k - 1, now + LOCKOUT_DURATION);
      OneDurationLess(k);
    }
  }

  lemma {:induction false} BurstsVerified(a: Account, k: nat, now: Time)
    requires Inv(a) && (a.lockedUntil.Some? ==> a.lockedUntil.value <= now)
    requires a.lockedUntil.None? ==> a.failedCount == 0
    ensures AllFailed(Results(a, Bursts(k, now)))
    ensures Verified(Results(a, Bursts(k, now))) == k * LOCKOUT_THRESHOLD
    decreases k
  {
    if k == 0 {
      NothingVerified(a);
      assert Results(a, Bursts(0, now)) == [];
    } else {
      hide Step, Run, Verified, Results, Inv, AllFailed;
      var first, rest := Failures(LOCKOUT_THRESHOLD, now), Bursts(k - 1, now + LOCKOUT_DURATION);
      BurstFails(a, now);
      RunKeepsInv(a, first);
      var after := Run(a, first);
      BurstsVerified(after, k - 1, now + LOCKOUT_DURATION);
      ResultsSplit(a, first, rest);
      VerifiedConcat(Results(a, first), Results(after, rest));
      AllFailedConcat(Results(a, first), Results(after, rest));
      OneDurationLess(k);
    }
  }

  /** The bound is reached for every k: k bursts span less than k durations and every one of them is verified. */
  lemma BurstsReachBound(k: nat, now: Time)
    ensures var window := Bursts(k, now);
            && NonDecreasing(window)
            && (window != [] ==> window[|window| - 1].now - window[0].now < k * LOCKOUT_DURATION)
            && NoLogin(Results(FRESH, window))
            && Verified(Results(FRESH, window)) == k * LOCKOUT_THRESHOLD
  {
    hide Results, Verified, NonDecreasing, Bursts;
    BurstsOrdered(k, now);
    BurstsVerified(FRESH, k, now);
  }

  /** While locked even the right password is refused, and nothing about the account changes. */
  lemma {:induction false} LockedRefusesAll(a: Account, attempts: seq<Attempt>)
    requires a.lockedUntil.Some? && forall i :: 0 <= i < |attempts| ==> attempts[i].now < a.lockedUntil.value
    ensures Run(a, attempts) == a
    ensures forall r :: r in Results(a, attempts) ==> r == Refused
    decreases |attempts|
  {
    if attempts != [] {
      LockedRefusesAll(a, attempts[1..]);
    }
  }
}
