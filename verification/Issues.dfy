/**
 One project's issues, releases and events: the transaction that stores a
 delivered event, and the status actions on an issue. Each transaction is one
 atomic step.
 */
module Issues {
  import opened Wrappers
  import Strings

  /** Microseconds. */
  type Time = int

  datatype Status = Unresolved | Resolved | Ignored | Regressed

  datatype Issue = Issue(
    id: nat,
    title: string,
    level: string,
    status: Status,
    firstSeen: Time,
    lastSeen: Time,
    eventCount: nat,
    resolvedIn: Option<string>,
    regressedIn: Option<string>)

  /** A delivered event after normalisation, symbolication and fingerprinting. */
  datatype Event = Event(
    eventId: string,
    fingerprint: string,
    title: string,
    level: string,
    environment: string,
    release: Option<string>,
    receivedAt: Time)

  datatype Stored = Stored(
    eventId: string,
    issueId: nat,
    receivedAt: Time,
    environment: string,
    release: Option<string>,
    level: string)

  datatype Action = Resolve | Ignore | Reopen

  /** Alerts dispatched and audit rows written, in commit order. */
  datatype LogEntry =
    | NewAlert(id: nat, title: string, level: string)
    | RegressionAlert(id: nat, title: string, level: string, release: Option<string>)
    | Acted(id: nat, action: Action)
    | Deleted(id: nat)

  datatype State = State(
    issues: map<string, Issue>,
    releases: map<string, Time>,
    events: seq<Stored>,
    log: seq<LogEntry>,
    nextId: nat)

  const EMPTY := State(map[], map[], [], [], 0)

  datatype Signal =
    | Duplicate
    | Accepted(issueId: nat, created: bool, regressed: bool, regressedIn: Option<string>, status: Status, eventCount: nat)

  // ---------------------------------------------------------------------
  // Regression rule
  // ---------------------------------------------------------------------

  /** A non-empty string. */
  predicate Given(release: Option<string>) {
    release.Some? && release.value != ""
  }

  function Tag(release: Option<string>): (tag: Option<string>)
    ensures tag.Some? ==> Given(tag)
  {
    if Given(release) then release else None
  }

  function Lookup(releases: map<string, Time>, version: Option<string>): Option<Time> {
    if Given(version) && version.value in releases then Some(releases[version.value]) else None
  }

  /** Whether a resolved issue regresses, from the two release names and their first-seen times. */
  function DecideRegression(
      resolvedIn: Option<string>, eventRelease: Option<string>,
      eventSeen: Option<Time>, resolvedSeen: Option<Time>): bool
  {
    if !Given(resolvedIn) then true
    else if !Given(eventRelease) then true
    else if eventSeen.None? || resolvedSeen.None? then true
    else eventSeen.value > resolvedSeen.value
  }

  // ---------------------------------------------------------------------
  // Latest release
  // ---------------------------------------------------------------------

  /** First in the order "created_at DESC, version DESC". */
  predicate IsLatest(releases: map<string, Time>, v: string) {
    && v in releases
    && forall w :: w in releases ==>
         releases[w] < releases[v] || (releases[w] == releases[v] && Strings.LexLeq(w, v))
  }

  lemma LatestIsUnique(releases: map<string, Time>, v: string, w: string)
    requires IsLatest(releases, v) && IsLatest(releases, w)
    ensures v == w
  {
    Strings.LexAntisymmetric(v, w);
  }

  lemma {:induction false} LatestExists(releases: map<string, Time>)
    requires releases != map[]
    ensures exists v :: IsLatest(releases, v)
    decreases |releases|
  {
    var k :| k in releases;
    var rest := releases - {k};
    Strings.LexTotal(k, k);
    assert forall w :: w in releases && w != k ==> w in rest && rest[w] == releases[w];
    if rest == map[] {
      assert forall w :: w in releases ==> w == k;
      assert IsLatest(releases, k);
    } else {
      assert |rest| < |releases| by { assert releases == rest[k := releases[k]]; }
      LatestExists(rest);
      var v :| IsLatest(rest, v);
      Strings.LexTotal(k, v);
      if releases[k] < releases[v] || (releases[k] == releases[v] && Strings.LexLeq(k, v)) {
        assert IsLatest(releases, v);
      } else {
        forall w | w in releases
          ensures releases[w] < releases[k] || (releases[w] == releases[k] && Strings.LexLeq(w, k))
        {
          if w in rest && releases[w] == releases[v] == releases[k] { Strings.LexTransitive(w, v, k); }
        }
        assert IsLatest(releases, k);
      }
    }
  }

  /** The most recently first-seen release of the project. */
  function Latest(releases: map<string, Time>): (latest: Option<string>)
    ensures latest.None? <==> releases == map[]
    ensures latest.Some? ==> IsLatest(releases, latest.value)
  {
    if releases == map[] then None
    else
      LatestExists(releases);
      assert forall v, w :: IsLatest(releases, v) && IsLatest(releases, w) ==> v == w by {
        forall v, w | IsLatest(releases, v) && IsLatest(releases, w) ensures v == w {
          LatestIsUnique(releases, v, w);
        }
      }
      var v :| v in releases && IsLatest(releases, v);
      Some(v)
  }

  // ---------------------------------------------------------------------
  // Storing an event
  // ---------------------------------------------------------------------

  predicate IsStored(events: seq<Stored>, eventId: string) {
    exists i :: 0 <= i < |events| && events[i].eventId == eventId
  }

  /** `INSERT ... ON CONFLICT DO NOTHING`: the first-seen time of a release never changes. */
  function RecordRelease(releases: map<string, Time>, release: Option<string>, now: Time): map<string, Time> {
    if Given(release) && release.value !in releases then releases[release.value := now] else releases
  }

  function ShouldRegress(releases: map<string, Time>, prior: Option<Issue>, release: Option<string>): bool {
    var resolvedIn := if prior.Some? then prior.value.resolvedIn else None;
    DecideRegression(resolvedIn, Tag(release), Lookup(releases, release), Lookup(releases, resolvedIn))
  }

  function Max(a: Time, b: Time): Time {
    if a >= b then a else b
  }

  /** The issue upsert: inserted unresolved, or counted and possibly flipped. */
  function Upsert(prior: Option<Issue>, e: Event, shouldRegress: bool, nextId: nat): Issue {
    match prior
    case None =>
      Issue(nextId, e.title, e.level, Unresolved, e.receivedAt, e.receivedAt, 1, None, None)
    case Some(i) =>
      var flips := i.status.Resolved? && shouldRegress;
      i.(lastSeen := Max(i.lastSeen, e.receivedAt),
         eventCount := i.eventCount + 1,
         level := e.level,
         status := if flips then Regressed else i.status,
         regressedIn := if flips then Tag(e.release) else i.regressedIn)
  }

  function PriorIssue(s: State, fingerprint: string): Option<Issue> {
    if fingerprint in s.issues then Some(s.issues[fingerprint]) else None
  }

  function AlertsOf(prior: Option<Issue>, issue: Issue, e: Event): seq<LogEntry> {
    if prior.None? then [NewAlert(issue.id, e.title, e.level)]
    else if prior.value.status.Resolved? && issue.status.Regressed? then
      [RegressionAlert(issue.id, e.title, e.level, Tag(e.release))]
    else []
  }

  function Process(s: State, e: Event, now: Time): (State, Signal) {
    if IsStored(s.events, e.eventId) then (s, Duplicate)
    else
      var releases := RecordRelease(s.releases, e.release, now);
      var prior := PriorIssue(s, e.fingerprint);
      var issue := Upsert(prior, e, ShouldRegress(releases, prior, e.release), s.nextId);
      var regressed := prior.Some? && prior.value.status.Resolved? && issue.status.Regressed?;
      (State(s.issues[e.fingerprint := issue],
             releases,
             s.events + [Stored(e.eventId, issue.id, e.receivedAt, e.environment, e.release, e.level)],
             s.log + AlertsOf(prior, issue, e),
             if prior.None? then s.nextId + 1 else s.nextId),
       Accepted(issue.id, prior.None?, regressed, if regressed then Tag(e.release) else None,
                issue.status, issue.eventCount))
  }

  // ---------------------------------------------------------------------
  // Status actions and deletion
  // ---------------------------------------------------------------------

  function Apply(i: Issue, action: Action, latest: Option<string>): Issue {
    match action
    case Resolve => i.(status := Resolved, regressedIn := None, resolvedIn := latest)
    case Ignore => i.(status := Ignored, regressedIn := None)
    case Reopen => i.(status := Unresolved, resolvedIn := None, regressedIn := None)
  }

  predicate HasIssue(s: State, id: nat) {
    exists f :: f in s.issues && s.issues[f].id == id
  }

  /** `UPDATE issues SET ... WHERE id = :iid`, audited when a row matched. */
  function SetStatus(s: State, id: nat, action: Action): State {
    if !HasIssue(s, id) then s
    else s.(issues := map f | f in s.issues ::
                        if s.issues[f].id == id then Apply(s.issues[f], action, Latest(s.releases)) else s.issues[f],
            log := s.log + [Acted(id, action)])
  }

  /** `DELETE FROM issues WHERE id = :iid`; the events stay. */
  function DeleteIssue(s: State, id: nat): State {
    if !HasIssue(s, id) then s
    else s.(issues := map f | f in s.issues && s.issues[f].id != id :: s.issues[f],
            log := s.log + [Deleted(id)])
  }

  // ---------------------------------------------------------------------
  // The tables, updated statement by statement
  // ---------------------------------------------------------------------

  class Project {
    var issues: map<string, Issue>
    var releases: map<string, Time>
    var events: seq<Stored>
    var log: seq<LogEntry>
    var nextId: nat

    ghost function View(): State
      reads this
    {
      State(issues, releases, events, log, nextId)
    }

    constructor ()
      ensures View() == EMPTY
    {
      issues, releases, events, log, nextId := map[], map[], [], [], 0;
    }

    method IsDuplicate(eventId: string) returns (found: bool)
      ensures found <==> IsStored(events, eventId)
    {
      for i := 0 to |events|
        invariant forall k :: 0 <= k < i ==> events[k].eventId != eventId
      {
        if events[i].eventId == eventId {
          return true;
        }
      }
      return false;
    }

    method ProcessEvent(e: Event, now: Time) returns (signal: Signal)
      modifies this
      ensures View() == Process(old(View()), e, now).0
      ensures signal == Process(old(View()), e, now).1
    {
      var duplicate := IsDuplicate(e.eventId);
      if duplicate {
        return Duplicate;
      }
      if Given(e.release) && e.release.value !in releases {
        releases := releases[e.release.value := now];
      }
      var prior := if e.fingerprint in issues then Some(issues[e.fingerprint]) else None;
      var resolvedIn := if prior.Some? then prior.value.resolvedIn else None;
      var eventSeen := Lookup(releases, e.release);
      var resolvedSeen := Lookup(releases, resolvedIn);
      var shouldRegress := DecideRegression(resolvedIn, Tag(e.release), eventSeen, resolvedSeen);

      var created := prior.None?;
      var issue: Issue;
      if created {
        issue := Issue(nextId, e.title, e.level, Unresolved, e.receivedAt, e.receivedAt, 1, None, None);
        nextId := nextId + 1;
      } else {
        var row := prior.value;
        var flips := row.status.Resolved? && shouldRegress;
        issue := Issue(row.id, row.title, e.level, if flips then Regressed else row.status,
                       row.firstSeen, Max(row.lastSeen, e.receivedAt), row.eventCount + 1,
                       row.resolvedIn, if flips then Tag(e.release) else row.regressedIn);
      }
      issues := issues[e.fingerprint := issue];
      var regressed := !created && prior.value.status.Resolved? && issue.status.Regressed?;
      events := events + [Stored(e.eventId, issue.id, e.receivedAt, e.environment, e.release, e.level)];
      if created {
        log := log + [NewAlert(issue.id, e.title, e.level)];
      } else if regressed {
        log := log + [RegressionAlert(issue.id, e.title, e.level, Tag(e.release))];
      }
      return Accepted(issue.id, created, regressed, if regressed then Tag(e.release) else None,
                      issue.status, issue.eventCount);
    }

    method SetIssueStatus(id: nat, action: Action) returns (found: bool)
      modifies this`issues, this`log
      ensures View() == SetStatus(old(View()), id, action)
      ensures found <==> HasIssue(old(View()), id)
    {
      found := exists f :: f in issues && issues[f].id == id;
      if found {
        match action {
          case Resolve =>
            var latest := Latest(releases);
            issues := map f | f in issues ::
              if issues[f].id == id then issues[f].(status := Resolved, regressedIn := None, resolvedIn := latest)
              else issues[f];
          case Ignore =>
            issues := map f | f in issues ::
              if issues[f].id == id then issues[f].(status := Ignored, regressedIn := None) else issues[f];
          case Reopen =>
            issues := map f | f in issues ::
              if issues[f].id == id then issues[f].(status := Unresolved, resolvedIn := None, regressedIn := None)
              else issues[f];
        }
        log := log + [Acted(id, action)];
      }
    }

    method Delete(id: nat) returns (found: bool)
      modifies this`issues, this`log
      ensures View() == DeleteIssue(old(View()), id)
      ensures found <==> HasIssue(old(View()), id)
    {
      found := exists f :: f in issues && issues[f].id == id;
      if found {
        issues := map f | f in issues && issues[f].id != id :: issues[f];
        log := log + [Deleted(id)];
      }
    }
  }
}
