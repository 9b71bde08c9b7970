/** When a login succeeds and what it leaves behind, read off the attempts and their outcomes. */
module LockoutHistory {
  import opened Wrappers
  import opened Lockout

  /** Verified failures since the last login. */
  function SinceLogin(results: seq<Outcome>): nat {
    if results == [] then 0
    else
      var front, last := results[..|results| - 1], results[|results| - 1];
      match last
      case LoggedIn => 0
      case Failed => SinceLogin(front) + 1
      case Refused => SinceLogin(front)
  }

  /** When the last attempt of one outcome was. */
  function LastOf(attempts: seq<Attempt>, results: seq<Outcome>, outcome: Outcome): Option<Time>
    requires |results| == |attempts|
  {
    if results == [] then None
    else
      var n := |results| - 1;
      if results[n] == outcome then Some(attempts[n].now) else LastOf(attempts[..n], results[..n], outcome)
  }

  /** Every tenth failure in a row of verified failures locks, for fifteen minutes from that failure. */
  function LockEnd(attempts: seq<Attempt>, results: seq<Outcome>): Option<Time>
    requires |results| == |attempts|
  {
    var failures := SinceLogin(results);
    if failures == 0 || failures % 10 != 0 then None
    else match LastOf(attempts, results, Failed)
      case None => None
      case Some(t) => Some(t + 15 * 60 * 1_000_000)
  }

  /** The failures that count towards the next lock: those since the last login or since the last lock. */
  function Streak(results: seq<Outcome>): nat {
    var failures := SinceLogin(results);
    if failures == 0 then 0 else (failures - 1) % 10 + 1
  }

  /** The account is what the outcomes so far make of it. */
  predicate Told(a: Account, attempts: seq<Attempt>, results: seq<Outcome>)
    requires |results| == |attempts|
  {
    && a.failedCount == Streak(results)
    && a.lockedUntil == LockEnd(attempts, results)
    && a.lastLogin == LastOf(attempts, results, LoggedIn)
  }

  /** What an attempt after these must come to. */
  function Expected(attempts: seq<Attempt>, results: seq<Outcome>, next: Attempt): Outcome
    requires |results| == |attempts|
  {
    var lock := LockEnd(attempts, results);
    if lock.Some? && lock.value > next.now then Refused
    else if next.passwordOk then LoggedIn
    else Failed
  }

  lemma {:induction false} FailedSomeTime(attempts: seq<Attempt>, results: seq<Outcome>)
    requires |results| == |attempts|
    ensures SinceLogin(results) > 0 ==> LastOf(attempts, results, Failed).Some?
  {
    if results != [] {
      var n := |results| - 1;
      FailedSomeTime(attempts[..n], results[..n]);
    }
  }

  lemma FailuresMore(results: seq<Outcome>, r: Outcome)
    ensures SinceLogin(results + [r])
         == match r case LoggedIn => 0 case Failed => SinceLogin(results) + 1 case Refused => SinceLogin(results)
  {
    assert (results + [r])[..|results|] == results;
  }

  lemma LastMore(attempts: seq<Attempt>, results: seq<Outcome>, next: Attempt, r: Outcome, outcome: Outcome)
    requires |results| == |attempts|
    ensures LastOf(attempts + [next], results + [r], outcome)
         == if r == outcome then Some(next.now) else LastOf(attempts, results, outcome)
  {
    assert (results + [r])[..|results|] == results && (attempts + [next])[..|attempts|] == attempts;
  }

  /** One more attempt. */
  lemma ToldStep(a: Account, attempts: seq<Attempt>, results: seq<Outcome>, next: Attempt)
    requires |results| == |attempts| && Told(a, attempts, results)
    ensures Step(a, next).1 == Expected(attempts, results, next)
    ensures Told(Step(a, next).0, attempts + [next], results + [Step(a, next).1])
  {
    hide SinceLogin, LastOf;
    var r := Step(a, next).1;
    FailedSomeTime(attempts, results);
    FailuresMore(results, r);
    LastMore(attempts, results, next, r, Failed);
    LastMore(attempts, results, next, r, LoggedIn);
    NextTen(SinceLogin(results));
  }

  lemma NextTen(n: nat)
    ensures n % 10 == 0 <==> (n == 0 || (n - 1) % 10 + 1 == 10)
    ensures (n + 1 - 1) % 10 + 1 == if n % 10 == 0 then 1 else (n - 1) % 10 + 2
    ensures (n + 1) % 10 == 0 <==> n % 10 == 9
    ensures n % 10 == 9 <==> n > 0 && (n - 1) % 10 + 2 == 10
  {
  }

  lemma RunMore(a: Account, attempts: seq<Attempt>, next: Attempt)
    ensures Run(a, attempts + [next]) == Step(Run(a, attempts), next).0
    ensures Results(a, attempts + [next]) == Results(a, attempts) + [Step(Run(a, attempts), next).1]
    decreases |attempts|
  {
    hide Step;
    ResultsSplit(a, attempts, [next]);
    assert [next][1..] == [];
    assert Results(Run(a, attempts), [next]) == [Step(Run(a, attempts), next).1];
    RunSplit(a, attempts, [next]);
  }

  lemma {:induction false} RunSplit(a: Account, before: seq<Attempt>, after: seq<Attempt>)
    ensures Run(a, before + after) == Run(Run(a, before), after)
    decreases |before|
  {
    hide Step;
    if before == [] {
      assert before + after == after;
    } else {
      assert (before + after)[0] == before[0] && (before + after)[1..] == before[1..] + after;
      RunSplit(Step(a, before[0]).0, before[1..], after);
    }
  }

  /** After any run from a fresh account, count, lock and last login are those the outcomes tell. */
  lemma {:induction false} HistoryTells(attempts: seq<Attempt>)
    ensures Told(Run(FRESH, attempts), attempts, Results(FRESH, attempts))
    decreases |attempts|
  {
    if attempts != [] {
      hide Step, Told;
      var n := |attempts| - 1;
      HistoryTells(attempts[..n]);
      assert attempts[..n] + [attempts[n]] == attempts;
      RunMore(FRESH, attempts[..n], attempts[n]);
      ToldStep(Run(FRESH, attempts[..n]), attempts[..n], Results(FRESH, attempts[..n]), attempts[n]);
    }
  }

  lemma {:induction false} ResultsPrefix(a: Account, attempts: seq<Attempt>, n: nat)
    requires n <= |attempts|
    ensures Results(a, attempts)[..n] == Results(a, attempts[..n])
  {
    hide Step;
    assert attempts[..n] + attempts[n..] == attempts;
    ResultsSplit(a, attempts[..n], attempts[n..]);
  }

  /**
   In any run from a fresh account an attempt is refused exactly while a lock
   from the earlier attempts is running, and otherwise logs in exactly with the
   right password.
   */
  lemma LoginIff(attempts: seq<Attempt>, i: nat)
    requires i < |attempts|
    ensures |Results(FRESH, attempts)[..i]| == i
    ensures Results(FRESH, attempts)[i] == Expected(attempts[..i], Results(FRESH, attempts)[..i], attempts[i])
  {
    hide Step, Told;
    var before := attempts[..i];
    HistoryTells(before);
    ToldStep(Run(FRESH, before), before, Results(FRESH, before), attempts[i]);
    RunMore(FRESH, before, attempts[i]);
    assert attempts[..i + 1] == before + [attempts[i]];
    ResultsPrefix(FRESH, attempts, i + 1);
    ResultsPrefix(FRESH, attempts, i);
    assert Results(FRESH, attempts)[i] == Results(FRESH, attempts)[..i + 1][i];
  }

  /** The run ends with a login. */
  predicate EndsInLogin(attempts: seq<Attempt>) {
    attempts != [] && Results(FRESH, attempts)[|attempts| - 1] == LoggedIn
  }

  lemma AfterLogin(attempts: seq<Attempt>)
    requires EndsInLogin(attempts)
    ensures Run(FRESH, attempts) == Account(0, None, Some(attempts[|attempts| - 1].now))
  {
    hide Step, Told, Run, Results;
    HistoryTells(attempts);
    ToldMeans(Run(FRESH, attempts), attempts, Results(FRESH, attempts));
  }

  lemma ToldMeans(a: Account, attempts: seq<Attempt>, results: seq<Outcome>)
    requires |results| == |attempts| && Told(a, attempts, results)
    requires results != [] && results[|results| - 1] == LoggedIn
    ensures a == Account(0, None, Some(attempts[|attempts| - 1].now))
  {
  }

  /** A login leaves a whole threshold: the time is stamped, no lock is set, and up to nine failures after it set none. */
  lemma LoginRestores(attempts: seq<Attempt>, failures: nat, now: Time)
    requires EndsInLogin(attempts) && failures <= 9
    ensures var a := Run(FRESH, attempts);
            && a == Account(0, None, Some(attempts[|attempts| - 1].now))
            && Run(a, Failures(failures, now)).lockedUntil == None
            && Verified(Results(a, Failures(failures, now))) == failures
  {
    hide Results, Step, Verified, Failures, Run;
    AfterLogin(attempts);
    NineFailures(attempts[|attempts| - 1].now, failures, now);
  }

  lemma NineFailures(login: Time, failures: nat, now: Time)
    requires failures <= 9
    ensures Run(Account(0, None, Some(login)), Failures(failures, now)).lockedUntil == None
    ensures Verified(Results(Account(0, None, Some(login)), Failures(failures, now))) == failures
  {
    hide Results, Step, Verified;
    FailuresCount(Account(0, None, Some(login)), failures, now);
    if failures == 0 { assert Failures(0, now) == []; }
  }
}
