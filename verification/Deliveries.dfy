/** What one delivery, action or deletion writes, table by table, and the labels of issues over whole runs. */
module Deliveries {
  import opened Wrappers
  import opened Issues
  import opened IssueRuns

  // ---------------------------------------------------------------------
  // One delivery
  // ---------------------------------------------------------------------

  /** The release an event is tagged with: none when it is missing or empty. */
  function TagOf(e: Event): (tag: Option<string>) {
    match e.release
    case Some(v) => if v != "" then Some(v) else None
    case None => None
  }

  /** The event table gains one row, made of the event and of the issue it counts on. */
  ghost predicate EventWritten(s: State, after: State, e: Event) {
    && e.fingerprint in after.issues
    && |after.events| == |s.events| + 1 && after.events[..|s.events|] == s.events
    && var row := after.events[|s.events|];
       && row.eventId == e.eventId
       && row.issueId == after.issues[e.fingerprint].id
       && row.receivedAt == e.receivedAt
       && row.environment == e.environment
       && row.release == e.release
       && row.level == e.level
  }

  /** The first time a version is seen is recorded, and no recorded time changes. */
  ghost predicate ReleaseWritten(s: State, after: State, e: Event, now: Time) {
    && (forall v :: v in s.releases ==> v in after.releases && after.releases[v] == s.releases[v])
    && (forall v :: v in after.releases && v !in s.releases ==> TagOf(e) == Some(v) && after.releases[v] == now)
    && (TagOf(e).Some? ==> TagOf(e).value in after.releases)
  }

  /** A first event opens an unresolved issue under its own title and level. */
  predicate OpenedFor(i: Issue, e: Event, id: nat) {
    && i.id == id && i.title == e.title && i.level == e.level && i.status == Unresolved
    && i.firstSeen == e.receivedAt && i.lastSeen == e.receivedAt && i.eventCount == 1
    && i.resolvedIn == None && i.regressedIn == None
  }

  /** A later event counts, moves last-seen on and sets the level; title, first-seen and fix release stay. */
  predicate CountedOn(before: Issue, i: Issue, e: Event) {
    && i.id == before.id && i.title == before.title && i.firstSeen == before.firstSeen
    && i.resolvedIn == before.resolvedIn
    && i.level == e.level
    && i.eventCount == before.eventCount + 1
    && i.lastSeen >= before.lastSeen && i.lastSeen >= e.receivedAt
    && (i.lastSeen == before.lastSeen || i.lastSeen == e.receivedAt)
    && (if before.status == Resolved && i.status == Regressed then i.regressedIn == TagOf(e)
        else i.status == before.status && i.regressedIn == before.regressedIn)
  }

  ghost predicate IssueWritten(s: State, after: State, e: Event) {
    && after.issues.Keys == s.issues.Keys + {e.fingerprint}
    && (forall f :: f in s.issues && f != e.fingerprint ==> after.issues[f] == s.issues[f])
    && (if e.fingerprint in s.issues then
          CountedOn(s.issues[e.fingerprint], after.issues[e.fingerprint], e) && after.nextId == s.nextId
        else OpenedFor(after.issues[e.fingerprint], e, s.nextId) && after.nextId == s.nextId + 1)
  }

  /** The issue was resolved and is now regressed. */
  predicate CameBack(s: State, after: State, f: string) {
    f in s.issues && f in after.issues && s.issues[f].status == Resolved && after.issues[f].status == Regressed
  }

  /** One alert for a new issue or a regression, with the texts of the event; none otherwise. */
  ghost predicate AlertWritten(s: State, after: State, e: Event) {
    && e.fingerprint in after.issues
    && var id := after.issues[e.fingerprint].id;
       after.log == s.log +
         (if e.fingerprint !in s.issues then [NewAlert(id, e.title, e.level)]
          else if CameBack(s, after, e.fingerprint) then [RegressionAlert(id, e.title, e.level, TagOf(e))]
          else [])
  }

  /** The signal tells the row as it is now, whether it is new, and whether it came back. */
  ghost predicate SignalTells(s: State, after: State, e: Event, signal: Signal) {
    && e.fingerprint in after.issues
    && var i := after.issues[e.fingerprint];
       && signal.Accepted?
       && signal.issueId == i.id
       && signal.status == i.status
       && signal.eventCount == i.eventCount
       && (signal.created <==> e.fingerprint !in s.issues)
       && (signal.regressed <==> CameBack(s, after, e.fingerprint))
       && signal.regressedIn == (if signal.regressed then i.regressedIn else None)
  }

  /** All that a counted delivery does to the tables and answers. */
  lemma DeliveryWrites(s: State, e: Event, now: Time)
    requires forall i :: 0 <= i < |s.events| ==> s.events[i].eventId != e.eventId
    ensures var (after, signal) := Process(s, e, now);
            && EventWritten(s, after, e) && ReleaseWritten(s, after, e, now) && IssueWritten(s, after, e)
            && AlertWritten(s, after, e) && SignalTells(s, after, e, signal)
  {
    hide ShouldRegress;
  }

  /** A delivery of an event id that is stored does nothing and says so. */
  lemma DuplicateWritesNothing(s: State, e: Event, now: Time)
    requires exists i :: 0 <= i < |s.events| && s.events[i].eventId == e.eventId
    ensures Process(s, e, now) == (s, Duplicate)
  {
  }

  // ---------------------------------------------------------------------
  // One action
  // ---------------------------------------------------------------------

  /** Title, level, times and count of an issue. */
  predicate SameFacts(i: Issue, j: Issue) {
    && i.id == j.id && i.title == j.title && i.level == j.level
    && i.firstSeen == j.firstSeen && i.lastSeen == j.lastSeen && i.eventCount == j.eventCount
  }

  /** Resolving records the newest release as the fix, ignoring keeps the fix, reopening forgets it; none has come back. */
  ghost predicate ActedOn(before: Issue, i: Issue, action: Action, releases: map<string, Time>) {
    && SameFacts(before, i) && i.regressedIn == None
    && match action
       case Resolve =>
         && i.status == Resolved
         && (i.resolvedIn == None <==> releases == map[])
         && (i.resolvedIn.Some? ==> IsLatest(releases, i.resolvedIn.value))
       case Ignore => i.status == Ignored && i.resolvedIn == before.resolvedIn
       case Reopen => i.status == Unresolved && i.resolvedIn == None
  }

  /** An action changes the rows of its id alone and leaves one audit entry; without such a row, nothing. */
  lemma ActionWrites(s: State, id: nat, action: Action)
    ensures var after := SetStatus(s, id, action);
            && after.issues.Keys == s.issues.Keys
            && (forall f :: f in s.issues && s.issues[f].id != id ==> after.issues[f] == s.issues[f])
            && (forall f :: f in s.issues && s.issues[f].id == id ==>
                  ActedOn(s.issues[f], after.issues[f], action, s.releases))
            && after.events == s.events && after.releases == s.releases && after.nextId == s.nextId
            && after.log == s.log + (if exists f :: f in s.issues && s.issues[f].id == id then [Acted(id, action)] else [])
  {
    hide IsLatest, Latest;
    LatestKnown(s.releases);
    if HasIssue(s, id) {
      assert SetStatus(s, id, action).issues.Keys == s.issues.Keys;
    } else {
      assert s.log + [] == s.log;
    }
  }

  lemma LatestKnown(releases: map<string, Time>)
    ensures Latest(releases) == None <==> releases == map[]
    ensures Latest(releases).Some? ==> IsLatest(releases, Latest(releases).value)
  {
  }

  /** A deletion removes the rows of its id and nothing else. */
  lemma DeletionWrites(s: State, id: nat)
    ensures var after := DeleteIssue(s, id);
            && (forall f :: f in after.issues <==> f in s.issues && s.issues[f].id != id)
            && (forall f :: f in after.issues ==> after.issues[f] == s.issues[f])
            && after.events == s.events && after.releases == s.releases && after.nextId == s.nextId
            && after.log == s.log + (if exists f :: f in s.issues && s.issues[f].id == id then [Deleted(id)] else [])
  {
    if !HasIssue(s, id) {
      assert s.log + [] == s.log;
    }
  }

  // ---------------------------------------------------------------------
  // Labels over whole runs
  // ---------------------------------------------------------------------

  /** The level is that of the last event counted; the title is the one the issue was announced under. */
  ghost predicate Labelled(i: Issue, s: State) {
    && EventsOf(s.events, i.id) != []
    && i.level == EventsOf(s.events, i.id)[|EventsOf(s.events, i.id)| - 1].level
    && AnnouncedAs(s.log, i.id, i.title, EventsOf(s.events, i.id)[0].level)
  }

  ghost predicate AnnouncedAs(log: seq<LogEntry>, id: nat, title: string, level: string) {
    exists k :: 0 <= k < |log| && log[k] == NewAlert(id, title, level)
  }

  ghost predicate LabelsOk(s: State) {
    forall f :: f in s.issues ==> Labelled(s.issues[f], s)
  }

  lemma AnnouncedStill(log: seq<LogEntry>, more: seq<LogEntry>, id: nat, title: string, level: string)
    requires AnnouncedAs(log, id, title, level)
    ensures AnnouncedAs(log + more, id, title, level)
  {
    var k :| 0 <= k < |log| && log[k] == NewAlert(id, title, level);
    assert (log + more)[k] == log[k];
  }

  lemma OpenedLabelled(s: State, after: State, e: Event)
    requires Inv(s) && e.fingerprint !in s.issues
    requires EventWritten(s, after, e) && IssueWritten(s, after, e) && AlertWritten(s, after, e)
    ensures Labelled(after.issues[e.fingerprint], after)
  {
    hide EventsOf, StatusIn, Justified, MentionsNew, Tallied, Coherent, AnnouncedAs;
    var i := after.issues[e.fingerprint];
    var row := after.events[|s.events|];
    assert after.events == s.events + [row];
    EventsOfAppend(s.events, row, i.id);
    EventsOfNone(s.events, i.id);
    assert [] + [row] == [row];
    assert after.log[|s.log|] == NewAlert(i.id, i.title, e.level);
    LastAnnounced(after.log, |s.log|);
  }

  lemma LastAnnounced(log: seq<LogEntry>, k: nat)
    requires k < |log| && log[k].NewAlert?
    ensures AnnouncedAs(log, log[k].id, log[k].title, log[k].level)
  {
  }

  lemma CountedLabelled(s: State, after: State, e: Event)
    requires e.fingerprint in s.issues && Labelled(s.issues[e.fingerprint], s)
    requires EventWritten(s, after, e) && IssueWritten(s, after, e) && AlertWritten(s, after, e)
    ensures Labelled(after.issues[e.fingerprint], after)
  {
    hide EventsOf, AnnouncedAs;
    var before, i := s.issues[e.fingerprint], after.issues[e.fingerprint];
    var row := after.events[|s.events|];
    var own := EventsOf(s.events, i.id);
    assert after.events == s.events + [row];
    EventsOfAppend(s.events, row, i.id);
    assert (own + [row])[0] == own[0] && (own + [row])[|own|] == row;
    AnnouncedStill(s.log, after.log[|s.log|..], i.id, i.title, own[0].level);
  }

  lemma OtherLabelled(s: State, after: State, e: Event, f: string)
    requires Inv(s) && Inv(after) && f in s.issues && f != e.fingerprint && Labelled(s.issues[f], s)
    requires EventWritten(s, after, e) && IssueWritten(s, after, e) && AlertWritten(s, after, e)
    ensures Labelled(after.issues[f], after)
  {
    hide EventsOf, AnnouncedAs, IssueOk, TablesOk, CountedOn, OpenedFor;
    var i := s.issues[f];
    var row := after.events[|s.events|];
    assert after.events == s.events + [row];
    assert i.id != row.issueId;
    EventsOfAppend(s.events, row, i.id);
    assert EventsOf(s.events, i.id) + [] == EventsOf(s.events, i.id);
    AnnouncedStill(s.log, after.log[|s.log|..], i.id, i.title, EventsOf(s.events, i.id)[0].level);
  }

  lemma DeliveryKeepsLabels(s: State, e: Event, now: Time)
    requires Inv(s) && LabelsOk(s)
    ensures LabelsOk(Step(s, Deliver(e, now)))
  {
    hide Inv, Labelled, Process;
    if exists i :: 0 <= i < |s.events| && s.events[i].eventId == e.eventId {
      DuplicateWritesNothing(s, e, now);
    } else {
      var after := Process(s, e, now).0;
      DeliveryWrites(s, e, now);
      StepKeepsInv(s, Deliver(e, now));
      forall f | f in after.issues ensures Labelled(after.issues[f], after) {
        if f != e.fingerprint {
          OtherLabelled(s, after, e, f);
        } else if f in s.issues {
          CountedLabelled(s, after, e);
        } else {
          OpenedLabelled(s, after, e);
        }
      }
    }
  }

  /** Labels depend on events and log only. */
  lemma LabelledStill(i: Issue, j: Issue, s: State, after: State, more: seq<LogEntry>)
    requires Labelled(i, s) && i.id == j.id && i.title == j.title && i.level == j.level
    requires after.events == s.events && after.log == s.log + more
    ensures Labelled(j, after)
  {
    hide EventsOf, AnnouncedAs;
    AnnouncedStill(s.log, more, i.id, i.title, EventsOf(s.events, i.id)[0].level);
  }

  lemma StepKeepsLabels(s: State, op: Op)
    requires Inv(s) && LabelsOk(s)
    ensures LabelsOk(Step(s, op))
  {
    hide Inv, Labelled, Process, SetStatus, DeleteIssue, IsLatest;
    var after := Step(s, op);
    match op
    case Deliver(e, now) => DeliveryKeepsLabels(s, e, now);
    case Act(id, action) =>
      ActionWrites(s, id, action);
      forall f | f in after.issues ensures Labelled(after.issues[f], after) {
        LabelledStill(s.issues[f], after.issues[f], s, after, after.log[|s.log|..]);
      }
    case Delete(id) =>
      DeletionWrites(s, id);
      forall f | f in after.issues ensures Labelled(after.issues[f], after) {
        LabelledStill(s.issues[f], after.issues[f], s, after, after.log[|s.log|..]);
      }
  }

  lemma {:induction false} RunKeepsLabels(s: State, ops: seq<Op>)
    requires Inv(s) && LabelsOk(s)
    ensures LabelsOk(Run(s, ops))
    decreases |ops|
  {
    hide Inv, LabelsOk, Step;
    if ops != [] {
      StepKeepsInv(s, ops[0]);
      StepKeepsLabels(s, ops[0]);
      RunKeepsLabels(Step(s, ops[0]), ops[1..]);
    }
  }

  /**
   In every reachable state an issue has the level of the last of its stored
   events, and the title of the alert that announced it, which had the level of
   the first.
   */
  lemma ReachableLabels(ops: seq<Op>, f: string)
    requires f in Run(EMPTY, ops).issues
    ensures Labelled(Run(EMPTY, ops).issues[f], Run(EMPTY, ops))
  {
    hide Run, Labelled;
    EmptyInv();
    RunKeepsLabels(EMPTY, ops);
  }
}
