/** The release-aware regression rule over whole runs, and the alerts it raises. */
module Regressions {
  import opened Wrappers
  import opened Issues
  import opened IssueRuns

  // ---------------------------------------------------------------------
  // Alerts
  // ---------------------------------------------------------------------

  function CountRegressions(log: seq<LogEntry>, id: nat): nat {
    if log == [] then 0
    else
      var last := log[|log| - 1];
      CountRegressions(log[..|log| - 1], id) + (if last.RegressionAlert? && last.id == id then 1 else 0)
  }

  function CountResolves(log: seq<LogEntry>, id: nat): nat {
    if log == [] then 0
    else CountResolves(log[..|log| - 1], id) + (if log[|log| - 1] == Acted(id, Resolve) then 1 else 0)
  }

  function CountNew(log: seq<LogEntry>, id: nat): nat {
    if log == [] then 0
    else
      var last := log[|log| - 1];
      CountNew(log[..|log| - 1], id) + (if last.NewAlert? && last.id == id then 1 else 0)
  }

  lemma JustifiedPrefix(log: seq<LogEntry>)
    requires log != [] && Justified(log)
    ensures Justified(log[..|log| - 1]) && MayFollow(log[..|log| - 1], log[|log| - 1])
  {
    hide StatusIn, MentionsNew;
    var front := log[..|log| - 1];
    forall i | 0 <= i < |front| ensures front[..i] == log[..i] && front[i] == log[i] {
    }
  }

  /** Regressions never outnumber resolves; a resolved issue has one resolve still unanswered. */
  lemma {:induction false} RegressionsBounded(log: seq<LogEntry>, id: nat)
    requires Justified(log)
    ensures CountRegressions(log, id) + (if StatusIn(log, id) == Some(Resolved) then 1 else 0) <= CountResolves(log, id)
  {
    hide Justified, MentionsNew;
    if log != [] {
      var front, last := log[..|log| - 1], log[|log| - 1];
      assert front + [last] == log;
      JustifiedPrefix(log);
      RegressionsBounded(front, id);
      StatusAppend(front, last, id);
    }
  }

  /** A row is announced as new exactly once, when it is first mentioned. */
  lemma {:induction false} NewOnce(log: seq<LogEntry>, id: nat)
    requires Justified(log)
    ensures CountNew(log, id) == if MentionsNew(log, id) then 1 else 0
  {
    hide Justified, MentionsNew, StatusIn;
    if log != [] {
      var front, last := log[..|log| - 1], log[|log| - 1];
      assert front + [last] == log;
      JustifiedPrefix(log);
      NewOnce(front, id);
      StatusAppend(front, last, id);
    } else {
      NothingMentioned(id);
    }
  }

  lemma NothingMentioned(id: nat)
    ensures !MentionsNew([], id)
  {
  }

  /** A status that becomes resolved was resolved by an action in between. */
  lemma {:induction false} ResolvedByAction(log: seq<LogEntry>, id: nat, from: nat, to: nat)
    requires from <= to <= |log|
    requires StatusIn(log[..from], id) != Some(Resolved) && StatusIn(log[..to], id) == Some(Resolved)
    ensures exists k :: from <= k < to && log[k] == Acted(id, Resolve)
  {
    if from < to {
      assert log[..to] == log[..to - 1] + [log[to - 1]];
      StatusAppend(log[..to - 1], log[to - 1], id);
      if log[to - 1] != Acted(id, Resolve) {
        ResolvedByAction(log, id, from, to - 1);
      }
    }
  }

  /** Between two regressions of an issue there is a resolve. */
  lemma ResolveBetweenRegressions(log: seq<LogEntry>, i: nat, j: nat)
    requires Justified(log) && i < j < |log|
    requires log[i].RegressionAlert? && log[j].RegressionAlert? && log[i].id == log[j].id
    ensures exists k :: i < k < j && log[k] == Acted(log[i].id, Resolve)
  {
    var id := log[i].id;
    assert log[..i + 1] == log[..i] + [log[i]];
    StatusAppend(log[..i], log[i], id);
    assert StatusIn(log[..j], id) == Some(Resolved);
    ResolvedByAction(log, id, i + 1, j);
  }

  /**
   In every reachable state each issue's release fields agree with its status,
   its counter and seen times are those of its stored events, it was announced
   as new exactly once, and its regressions strictly need resolves between them.
   */
  lemma ReachableIssue(ops: seq<Op>, f: string)
    requires f in Run(EMPTY, ops).issues
    ensures var s := Run(EMPTY, ops);
            var i := s.issues[f];
            && Coherent(i, s.releases)
            && Tallied(i, s.events)
            && CountNew(s.log, i.id) == 1
            && CountRegressions(s.log, i.id) + (if i.status.Resolved? then 1 else 0) <= CountResolves(s.log, i.id)
  {
    hide Run, Coherent, Tallied, Justified, MentionsNew, StatusIn, EMPTY;
    EmptyInv();
    RunKeepsInv(EMPTY, ops);
    var s := Run(EMPTY, ops);
    assert IssueOk(s, f);
    RegressionsBounded(s.log, s.issues[f].id);
    NewOnce(s.log, s.issues[f].id);
  }

  // ---------------------------------------------------------------------
  // Stragglers
  // ---------------------------------------------------------------------

  /** No status action or deletion of the issue. */
  predicate Untouched(ops: seq<Op>, id: nat) {
    forall k :: 0 <= k < |ops| ==> ops[k].Deliver? || ops[k].id != id
  }

  /** A delivery that is stored and counted on the issue. */
  predicate Counts(s: State, op: Op, f: string) {
    op.Deliver? && op.event.fingerprint == f && !IsStored(s.events, op.event.eventId)
  }

  /** When a version was first seen, if an event tagged with it arrives now. */
  function FirstSeen(releases: map<string, Time>, version: string, now: Time): Time {
    if version in releases then releases[version] else now
  }

  /** Untagged, or of a release first seen strictly after the fix release; any event when no fix is recorded. */
  predicate NewerThanFix(s: State, op: Op, fix: Option<string>)
    requires op.Deliver?
  {
    || fix.None?
    || Tag(op.event.release).None?
    || (fix.value in s.releases &&
        FirstSeen(s.releases, Tag(op.event.release).value, op.now) > s.releases[fix.value])
  }

  /** The release of the first counted event that is newer than the fix. */
  function FirstBreak(s: State, ops: seq<Op>, f: string, fix: Option<string>): Option<Option<string>>
    decreases |ops|
  {
    if ops == [] then None
    else if Counts(s, ops[0], f) && NewerThanFix(s, ops[0], fix) then Some(Tag(ops[0].event.release))
    else FirstBreak(Step(s, ops[0]), ops[1..], f, fix)
  }

  function CountOf(s: State, ops: seq<Op>, f: string): nat
    decreases |ops|
  {
    if ops == [] then 0
    else (if Counts(s, ops[0], f) then 1 else 0) + CountOf(Step(s, ops[0]), ops[1..], f)
  }

  /** One step that does not act on the issue either leaves it alone or counts one event. */
  lemma UntouchedStep(s: State, op: Op, f: string)
    requires Inv(s) && f in s.issues && Untouched([op], s.issues[f].id)
    ensures f in Step(s, op).issues
    ensures var i, i' := s.issues[f], Step(s, op).issues[f];
            if !Counts(s, op, f) then i' == i
            else
              && i'.id == i.id && i'.resolvedIn == i.resolvedIn && i'.eventCount == i.eventCount + 1
              && (i'.status, i'.regressedIn)
                 == (if i.status.Resolved? && NewerThanFix(s, op, i.resolvedIn)
                     then (Regressed, Tag(op.event.release)) else (i.status, i.regressedIn))
  {
    hide Tallied, StatusIn, Justified, MentionsNew, EventsOf, AlertsOf, Apply, Latest;
    assert IssueOk(s, f);
    assert [op][0] == op;
    if Counts(s, op, f) {
      AlwaysOrderable(s, op.event, op.now);
    }
  }

  lemma UntouchedSplit(ops: seq<Op>, id: nat)
    requires ops != [] && Untouched(ops, id)
    ensures Untouched([ops[0]], id) && Untouched(ops[1..], id)
  {
  }

  /** An issue that is not resolved keeps its status and its came-back release, whatever is delivered. */
  lemma {:induction false} UnresolvedStays(s: State, ops: seq<Op>, f: string)
    requires Inv(s) && f in s.issues && Untouched(ops, s.issues[f].id) && !s.issues[f].status.Resolved?
    ensures f in Run(s, ops).issues
    ensures var i, i' := s.issues[f], Run(s, ops).issues[f];
            && i'.id == i.id && i'.status == i.status
            && i'.resolvedIn == i.resolvedIn && i'.regressedIn == i.regressedIn
            && i'.eventCount == i.eventCount + CountOf(s, ops, f)
    decreases |ops|
  {
    hide Inv, Step, Untouched, Counts, NewerThanFix;
    if ops != [] {
      UntouchedSplit(ops, s.issues[f].id);
      UntouchedStep(s, ops[0], f);
      StepKeepsInv(s, ops[0]);
      UnresolvedStays(Step(s, ops[0]), ops[1..], f);
    }
  }

  /**
   The straggler rule. From a resolved issue, until the next action on it, any
   run leaves it resolved exactly when none of its counted events is newer than
   the fix; otherwise it is regressed, and the release it came back in is that
   of the first such event. Every counted event is counted either way.
   */
  lemma {:induction false} StragglerRule(s: State, ops: seq<Op>, f: string)
    requires Inv(s) && f in s.issues && Untouched(ops, s.issues[f].id) && s.issues[f].status.Resolved?
    ensures f in Run(s, ops).issues
    ensures var i, i' := s.issues[f], Run(s, ops).issues[f];
            var broken := FirstBreak(s, ops, f, i.resolvedIn);
            && i'.id == i.id && i'.resolvedIn == i.resolvedIn
            && i'.eventCount == i.eventCount + CountOf(s, ops, f)
            && (i'.status, i'.regressedIn)
               == (if broken.None? then (Resolved, None) else (Regressed, broken.value))
    decreases |ops|
  {
    hide Step, Untouched, Counts, NewerThanFix, TablesOk, OneRowEach, Tallied, StatusIn;
    assert IssueOk(s, f);
    if ops != [] {
      var fix := s.issues[f].resolvedIn;
      UntouchedSplit(ops, s.issues[f].id);
      UntouchedStep(s, ops[0], f);
      StepKeepsInv(s, ops[0]);
      var next := Step(s, ops[0]);
      if Counts(s, ops[0], f) { CountsDelivers(s, ops[0], f); }
      if Counts(s, ops[0], f) && NewerThanFix(s, ops[0], fix) {
        UnresolvedStays(next, ops[1..], f);
      } else {
        StragglerRule(next, ops[1..], f);
      }
    }
  }

  /** Every counted event of the issue is tagged with a release of `known`. */
  predicate TaggedFrom(ops: seq<Op>, f: string, known: set<string>) {
    forall k :: 0 <= k < |ops| && ops[k].Deliver? && ops[k].event.fingerprint == f ==>
      Tag(ops[k].event.release).Some? && Tag(ops[k].event.release).value in known
  }

  /** Recorded releases keep their first-seen times. */
  lemma ReleasesKept(s: State, op: Op)
    ensures forall v :: v in s.releases ==> v in Step(s, op).releases && Step(s, op).releases[v] == s.releases[v]
  {
    hide Upsert, AlertsOf, ShouldRegress, Apply, Latest, IsStored;
  }

  lemma {:induction false} KnownNeverBreak(s: State, ops: seq<Op>, f: string, fix: string, known: set<string>)
    requires fix in s.releases && TaggedFrom(ops, f, known)
    requires forall v :: v in known ==> v in s.releases && s.releases[v] <= s.releases[fix]
    ensures FirstBreak(s, ops, f, Some(fix)).None?
    decreases |ops|
  {
    hide Step, Counts;
    if ops != [] {
      ReleasesKept(s, ops[0]);
      assert TaggedFrom(ops[1..], f, known);
      assert ops[0].Deliver? && ops[0].event.fingerprint == f ==> !NewerThanFix(s, ops[0], Some(fix));
      if Counts(s, ops[0], f) { CountsDelivers(s, ops[0], f); }
      KnownNeverBreak(Step(s, ops[0]), ops[1..], f, fix, known);
    }
  }

  lemma CountsDelivers(s: State, op: Op, f: string)
    requires Counts(s, op, f)
    ensures op.Deliver? && op.event.fingerprint == f
  {
  }

  /**
   A resolve made when some release is recorded holds against stragglers: after
   it, any number of events from releases already recorded then leave the issue
   resolved, and still count.
   */
  lemma ResolveHoldsAgainstKnownReleases(s: State, f: string, ops: seq<Op>)
    requires Inv(s) && f in s.issues && s.releases != map[]
    requires Untouched(ops, s.issues[f].id) && TaggedFrom(ops, f, s.releases.Keys)
    ensures var resolved := Step(s, Act(s.issues[f].id, Resolve));
            var after := Run(resolved, ops);
            && f in resolved.issues && resolved.issues[f].resolvedIn == Latest(s.releases)
            && f in after.issues && after.issues[f].status.Resolved? && after.issues[f].regressedIn.None?
            && after.issues[f].eventCount == s.issues[f].eventCount + CountOf(resolved, ops, f)
  {
    hide Inv, Untouched, TaggedFrom, FirstBreak, Run, CountOf;
    var id := s.issues[f].id;
    assert HasIssue(s, id);
    StepKeepsInv(s, Act(id, Resolve));
    var resolved := Step(s, Act(id, Resolve));
    var fix := Latest(s.releases).value;
    KnownNeverBreak(resolved, ops, f, fix, s.releases.Keys);
    StragglerRule(resolved, ops, f);
  }

  /**
   The other half: the first counted event that is untagged, or of a release
   first seen strictly after the fix, regresses the issue for good and is the
   release it came back in, whatever is delivered after it.
   */
  lemma FirstNewerRegresses(s: State, f: string, known: seq<Op>, breaking: Op, rest: seq<Op>)
    requires Inv(s) && f in s.issues && s.issues[f].status.Resolved? && s.issues[f].resolvedIn.Some?
    requires Untouched(known + [breaking] + rest, s.issues[f].id)
    requires FirstBreak(s, known, f, s.issues[f].resolvedIn).None?
    requires Counts(Run(s, known), breaking, f)
    requires NewerThanFix(Run(s, known), breaking, s.issues[f].resolvedIn)
    ensures var after := Run(s, known + [breaking] + rest);
            && f in after.issues && after.issues[f].status.Regressed?
            && after.issues[f].regressedIn == Tag(breaking.event.release)
  {
    hide Inv, Untouched, Counts, NewerThanFix, Run;
    FirstBreakAt(s, known, breaking, rest, f, s.issues[f].resolvedIn);
    StragglerRule(s, known + [breaking] + rest, f);
  }

  lemma {:induction false} FirstBreakAt(
      s: State, known: seq<Op>, breaking: Op, rest: seq<Op>, f: string, fix: Option<string>)
    requires FirstBreak(s, known, f, fix).None?
    requires Counts(Run(s, known), breaking, f) && NewerThanFix(Run(s, known), breaking, fix)
    ensures FirstBreak(s, known + [breaking] + rest, f, fix) == Some(Tag(breaking.event.release))
    decreases |known|
  {
    hide Counts, NewerThanFix, Step;
    var ops := known + [breaking] + rest;
    if known == [] {
      assert ops[0] == breaking;
    } else {
      assert ops[0] == known[0] && ops[1..] == known[1..] + [breaking] + rest;
      FirstBreakAt(Step(s, known[0]), known[1..], breaking, rest, f, fix);
    }
  }

  // ---------------------------------------------------------------------
  // Deletion
  // ---------------------------------------------------------------------

  /**
   Deleting an issue takes its row alone. A resend of an event already stored
   does not bring it back; a fresh event of its fingerprint opens a new row,
   unresolved, counted from one, under an id never announced before.
   */
  lemma DeletedComesBackNew(s: State, e: Event, now: Time)
    requires Inv(s) && e.fingerprint in s.issues
    ensures var deleted := Step(s, Delete(s.issues[e.fingerprint].id));
            var after := Step(deleted, Deliver(e, now));
            && deleted.issues == s.issues - {e.fingerprint}
            && deleted.events == s.events && deleted.releases == s.releases
            && (IsStored(s.events, e.eventId) ==> after == deleted)
            && (!IsStored(s.events, e.eventId) ==>
                  && e.fingerprint in after.issues
                  && var issue := after.issues[e.fingerprint];
                     && issue.status.Unresolved? && issue.eventCount == 1 && issue.firstSeen == e.receivedAt
                     && !MentionsNew(s.log, issue.id) && issue.id != s.issues[e.fingerprint].id)
  {
    hide IssueOk, Justified, MentionsNew, StatusIn, ShouldRegress, RecordRelease, AlertsOf;
    assert HasIssue(s, s.issues[e.fingerprint].id);
    IdsIssued(s, s.issues[e.fingerprint].id);
  }
}
