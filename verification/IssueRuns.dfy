/** What every run of deliveries and status actions on a project keeps. */
module IssueRuns {
  import opened Wrappers
  import opened Issues

  datatype Op =
    | Deliver(event: Event, now: Time)
    | Act(id: nat, action: Action)
    | Delete(id: nat)

  function Step(s: State, op: Op): State {
    match op
    case Deliver(e, now) => Process(s, e, now).0
    case Act(id, action) => SetStatus(s, id, action)
    case Delete(id) => DeleteIssue(s, id)
  }

  function Run(s: State, ops: seq<Op>): State
    decreases |ops|
  {
    if ops == [] then s else Run(Step(s, ops[0]), ops[1..])
  }

  // ---------------------------------------------------------------------
  // At-least-once delivery has an exactly-once effect
  // ---------------------------------------------------------------------

  function Ids(events: seq<Stored>): set<string> {
    set i | 0 <= i < |events| :: events[i].eventId
  }

  /** A delivery log with every delivery but the first of each event id removed. */
  function KeepFirst(ops: seq<Op>, seen: set<string>): seq<Op> {
    if ops == [] then []
    else match ops[0]
      case Deliver(e, _) =>
        if e.eventId in seen then KeepFirst(ops[1..], seen)
        else [ops[0]] + KeepFirst(ops[1..], seen + {e.eventId})
      case _ => [ops[0]] + KeepFirst(ops[1..], seen)
  }

  lemma IdsAfter(s: State, op: Op)
    ensures Ids(Step(s, op).events) == Ids(s.events) + (if op.Deliver? then {op.event.eventId} else {})
    ensures op.Deliver? && op.event.eventId in Ids(s.events) ==> Step(s, op) == s
  {
    hide Upsert, AlertsOf, ShouldRegress, RecordRelease, Apply, Latest;
    match op
    case Deliver(e, now) =>
      var after := Step(s, op).events;
      if !IsStored(s.events, e.eventId) {
        assert after[|s.events|].eventId == e.eventId;
        assert forall i :: 0 <= i < |s.events| ==> after[i] == s.events[i];
      }
    case _ =>
  }

  lemma {:induction false} ResendsAreIdentity(s: State, ops: seq<Op>)
    ensures Run(s, KeepFirst(ops, Ids(s.events))) == Run(s, ops)
    decreases |ops|
  {
    hide Step, Ids;
    if ops != [] {
      IdsAfter(s, ops[0]);
      var seen := Ids(s.events);
      var next := Step(s, ops[0]);
      ResendsAreIdentity(next, ops[1..]);
      if ops[0].Deliver? && ops[0].event.eventId in seen {
        assert seen + {ops[0].event.eventId} == seen;
      } else {
        var kept := KeepFirst(ops[1..], Ids(next.events));
        if !ops[0].Deliver? { assert seen + {} == seen; }
        assert KeepFirst(ops, seen) == [ops[0]] + kept;
        assert ([ops[0]] + kept)[1..] == kept;
      }
    }
  }

  /**
   Two delivery logs that agree once every repeated event id is removed leave
   the same issues, releases, events and alerts, however their resends differ
   in place, payload or clock, status actions and deletions mixed in.
   */
  lemma ExactlyOnce(ops: seq<Op>, others: seq<Op>)
    requires KeepFirst(ops, {}) == KeepFirst(others, {})
    ensures Run(EMPTY, ops) == Run(EMPTY, others)
  {
    assert Ids(EMPTY.events) == {};
    ResendsAreIdentity(EMPTY, ops);
    ResendsAreIdentity(EMPTY, others);
  }

  // ---------------------------------------------------------------------
  // Tallies and the log
  // ---------------------------------------------------------------------

  /** The stored events of one issue row. */
  function EventsOf(events: seq<Stored>, id: nat): seq<Stored> {
    if events == [] then []
    else
      var last := events[|events| - 1];
      EventsOf(events[..|events| - 1], id) + (if last.issueId == id then [last] else [])
  }

  function Newest(events: seq<Stored>): (t: Time)
    requires events != []
    ensures forall i :: 0 <= i < |events| ==> events[i].receivedAt <= t
    ensures exists i :: 0 <= i < |events| && events[i].receivedAt == t
  {
    var last := events[|events| - 1];
    if |events| == 1 then last.receivedAt
    else
      var front := events[..|events| - 1];
      assert forall i :: 0 <= i < |front| ==> front[i] == events[i];
      Max(Newest(front), last.receivedAt)
  }

  /** The status the log alone implies for an issue row; None before it exists and after it is deleted. */
  function StatusIn(log: seq<LogEntry>, id: nat): Option<Status> {
    if log == [] then None
    else
      var before := StatusIn(log[..|log| - 1], id);
      match log[|log| - 1]
      case NewAlert(i, _, _) => if i == id then Some(Unresolved) else before
      case RegressionAlert(i, _, _, _) => if i == id then Some(Regressed) else before
      case Acted(i, action) =>
        if i != id then before
        else Some(match action case Resolve => Resolved case Ignore => Ignored case Reopen => Unresolved)
      case Deleted(i) => if i == id then None else before
  }

  predicate MentionsNew(log: seq<LogEntry>, id: nat) {
    exists i :: 0 <= i < |log| && log[i].NewAlert? && log[i].id == id
  }

  /** Every alert is justified by what precedes it. */
  predicate Justified(log: seq<LogEntry>) {
    forall i :: 0 <= i < |log| ==>
      match log[i]
      case NewAlert(id, _, _) => !MentionsNew(log[..i], id)
      case RegressionAlert(id, _, _, _) => StatusIn(log[..i], id) == Some(Resolved)
      case Acted(id, _) => StatusIn(log[..i], id).Some?
      case Deleted(id) => StatusIn(log[..i], id).Some?
  }

  // ---------------------------------------------------------------------
  // The invariant
  // ---------------------------------------------------------------------

  /** Status and release fields agree. */
  predicate Coherent(i: Issue, releases: map<string, Time>) {
    && (i.status.Unresolved? ==> i.resolvedIn.None? && i.regressedIn.None?)
    && (i.regressedIn.Some? ==> i.status.Regressed?)
    && (i.resolvedIn.Some? ==> i.resolvedIn.value in releases)
    && (i.regressedIn.Some? ==> i.regressedIn.value in releases)
  }

  /** Counter and seen times are those of the issue's stored events. */
  predicate Tallied(i: Issue, events: seq<Stored>) {
    var own := EventsOf(events, i.id);
    && own != []
    && i.eventCount == |own|
    && i.firstSeen == own[0].receivedAt
    && i.lastSeen == Newest(own)
  }

  predicate IssueOk(s: State, f: string)
    requires f in s.issues
  {
    var i := s.issues[f];
    && i.id < s.nextId
    && Coherent(i, s.releases)
    && Tallied(i, s.events)
    && StatusIn(s.log, i.id) == Some(i.status)
  }

  predicate OneRowEach(s: State) {
    forall f, g :: f in s.issues && g in s.issues && s.issues[f].id == s.issues[g].id ==> f == g
  }

  /** Events and log mention issued row ids only, and no event id twice. */
  ghost predicate TablesOk(s: State) {
    && "" !in s.releases
    && (forall k :: 0 <= k < |s.events| ==> s.events[k].issueId < s.nextId)
    && (forall j, k :: 0 <= j < k < |s.events| ==> s.events[j].eventId != s.events[k].eventId)
    && (forall id: nat :: MentionsNew(s.log, id) <==> id < s.nextId)
    && (forall id: nat :: id >= s.nextId ==> StatusIn(s.log, id).None?)
    && Justified(s.log)
  }

  ghost predicate Inv(s: State) {
    OneRowEach(s) && TablesOk(s) && forall f :: f in s.issues ==> IssueOk(s, f)
  }

  // ---------------------------------------------------------------------
  // How the tallies and the log grow
  // ---------------------------------------------------------------------

  lemma EventsOfAppend(events: seq<Stored>, x: Stored, id: nat)
    ensures EventsOf(events + [x], id) == EventsOf(events, id) + (if x.issueId == id then [x] else [])
  {
    assert (events + [x])[..|events|] == events;
  }

  lemma {:induction false} EventsOfNone(events: seq<Stored>, id: nat)
    requires forall k :: 0 <= k < |events| ==> events[k].issueId != id
    ensures EventsOf(events, id) == []
  {
    if events != [] {
      EventsOfNone(events[..|events| - 1], id);
    }
  }

  lemma NewestAppend(own: seq<Stored>, x: Stored)
    requires own != []
    ensures Newest(own + [x]) == Max(Newest(own), x.receivedAt)
  {
    assert (own + [x])[..|own|] == own;
  }

  /** What one more entry makes of a status. */
  function After(before: Option<Status>, entry: LogEntry, id: nat): Option<Status> {
    if entry.id != id then before
    else match entry
      case NewAlert(_, _, _) => Some(Unresolved)
      case RegressionAlert(_, _, _, _) => Some(Regressed)
      case Acted(_, action) => Some(match action case Resolve => Resolved case Ignore => Ignored case Reopen => Unresolved)
      case Deleted(_) => None
  }

  lemma StatusAppend(log: seq<LogEntry>, entry: LogEntry, id: nat)
    ensures StatusIn(log + [entry], id) == After(StatusIn(log, id), entry, id)
    ensures MentionsNew(log + [entry], id) <==> MentionsNew(log, id) || (entry.NewAlert? && entry.id == id)
  {
    var longer := log + [entry];
    assert longer[..|log|] == log;
    assert longer[|log|] == entry;
    assert forall i :: 0 <= i < |log| ==> longer[i] == log[i];
  }

  /** Whether an entry may follow a log. */
  predicate MayFollow(log: seq<LogEntry>, entry: LogEntry) {
    match entry
    case NewAlert(id, _, _) => !MentionsNew(log, id)
    case RegressionAlert(id, _, _, _) => StatusIn(log, id) == Some(Resolved)
    case Acted(id, _) => StatusIn(log, id).Some?
    case Deleted(id) => StatusIn(log, id).Some?
  }

  lemma JustifiedAppend(log: seq<LogEntry>, entry: LogEntry)
    requires Justified(log) && MayFollow(log, entry)
    ensures Justified(log + [entry])
  {
    hide StatusIn, MentionsNew;
    var longer := log + [entry];
    forall i | 0 <= i < |longer| ensures longer[..i] == log[..i] && (i < |log| ==> longer[i] == log[i]) {
    }
    assert log[..|log|] == log;
  }

  // ---------------------------------------------------------------------
  // Storing an event keeps the invariant
  // ---------------------------------------------------------------------

  /** The defensive "unorderable" case of the regression rule is never reached. */
  lemma AlwaysOrderable(s: State, e: Event, now: Time)
    requires Inv(s)
    ensures var releases := RecordRelease(s.releases, e.release, now);
            var prior := PriorIssue(s, e.fingerprint);
            && (Given(Tag(e.release)) ==> Lookup(releases, e.release).Some?)
            && (prior.Some? && prior.value.resolvedIn.Some? ==>
                  Given(prior.value.resolvedIn) && Lookup(releases, prior.value.resolvedIn).Some?)
  {
    hide Tallied, StatusIn, Justified, MentionsNew;
    if e.fingerprint in s.issues { assert IssueOk(s, e.fingerprint); }
  }

  /** Status and release fields of the upserted issue agree. */
  lemma UpsertCoherent(s: State, e: Event, now: Time)
    requires Inv(s) && !IsStored(s.events, e.eventId)
    ensures var after := Step(s, Deliver(e, now));
            Coherent(after.issues[e.fingerprint], after.releases)
  {
    hide Tallied, StatusIn, Justified, MentionsNew, EventsOf, ShouldRegress, AlertsOf;
    if e.fingerprint in s.issues { assert IssueOk(s, e.fingerprint); }
  }

  lemma UpsertTallied(s: State, e: Event, now: Time)
    requires Inv(s) && !IsStored(s.events, e.eventId)
    ensures var after := Step(s, Deliver(e, now));
            Tallied(after.issues[e.fingerprint], after.events)
  {
    hide Coherent, StatusIn, Justified, MentionsNew, EventsOf, ShouldRegress, AlertsOf, RecordRelease, Newest;
    var after := Step(s, Deliver(e, now));
    var issue := after.issues[e.fingerprint];
    var x := after.events[|s.events|];
    EventsOfAppend(s.events, x, issue.id);
    if e.fingerprint in s.issues {
      assert IssueOk(s, e.fingerprint);
      NewestAppend(EventsOf(s.events, issue.id), x);
    } else {
      EventsOfNone(s.events, issue.id);
      assert [] + [x] == [x];
      NewestOne(x);
    }
  }

  lemma NewestOne(x: Stored)
    ensures Newest([x]) == x.receivedAt
  {
  }

  lemma UpsertLogged(s: State, e: Event, now: Time)
    requires Inv(s) && !IsStored(s.events, e.eventId)
    ensures var after := Step(s, Deliver(e, now));
            && StatusIn(after.log, after.issues[e.fingerprint].id) == Some(after.issues[e.fingerprint].status)
            && Justified(after.log)
            && (forall id: nat :: id != after.issues[e.fingerprint].id ==>
                  StatusIn(after.log, id) == StatusIn(s.log, id)
                  && (MentionsNew(after.log, id) <==> MentionsNew(s.log, id)))
            && MentionsNew(after.log, after.issues[e.fingerprint].id)
  {
    hide Coherent, Tallied, StatusIn, Justified, MentionsNew, EventsOf, ShouldRegress, RecordRelease;
    var after := Step(s, Deliver(e, now));
    var issue := after.issues[e.fingerprint];
    var alerts := AlertsOf(PriorIssue(s, e.fingerprint), issue, e);
    if e.fingerprint in s.issues { assert IssueOk(s, e.fingerprint); }
    if alerts == [] {
      assert s.log + alerts == s.log;
    } else {
      JustifiedAppend(s.log, alerts[0]);
      forall id: nat ensures StatusIn(after.log, id) == After(StatusIn(s.log, id), alerts[0], id)
                          && (MentionsNew(after.log, id) <==> MentionsNew(s.log, id) || (alerts[0].NewAlert? && alerts[0].id == id))
      {
        StatusAppend(s.log, alerts[0], id);
      }
    }
  }

  lemma OthersKept(s: State, e: Event, now: Time, f: string)
    requires Inv(s) && !IsStored(s.events, e.eventId)
    requires f in s.issues && f != e.fingerprint
    ensures IssueOk(Step(s, Deliver(e, now)), f)
  {
    hide StatusIn, Justified, MentionsNew, EventsOf, ShouldRegress, AlertsOf, Newest;
    var after := Step(s, Deliver(e, now));
    assert IssueOk(s, f);
    if e.fingerprint in s.issues { assert IssueOk(s, e.fingerprint); }
    UpsertLogged(s, e, now);
    EventsOfAppend(s.events, after.events[|s.events|], s.issues[f].id);
    assert EventsOf(s.events, s.issues[f].id) + [] == EventsOf(s.events, s.issues[f].id);
  }

  lemma ProcessTables(s: State, e: Event, now: Time)
    requires Inv(s) && !IsStored(s.events, e.eventId)
    ensures TablesOk(Step(s, Deliver(e, now))) && OneRowEach(Step(s, Deliver(e, now)))
  {
    hide StatusIn, Justified, MentionsNew, EventsOf, ShouldRegress, AlertsOf, Tallied, Coherent;
    var after := Step(s, Deliver(e, now));
    UpsertLogged(s, e, now);
    if e.fingerprint in s.issues { assert IssueOk(s, e.fingerprint); }
    forall f, g | f in after.issues && g in after.issues && after.issues[f].id == after.issues[g].id ensures f == g {
      if f in s.issues { assert IssueOk(s, f); }
      if g in s.issues { assert IssueOk(s, g); }
    }
  }

  lemma ProcessKeepsInv(s: State, e: Event, now: Time)
    requires Inv(s)
    ensures Inv(Step(s, Deliver(e, now)))
  {
    hide IssueOk, TablesOk, OneRowEach, ShouldRegress, AlertsOf, RecordRelease;
    if !IsStored(s.events, e.eventId) {
      var after := Step(s, Deliver(e, now));
      ProcessTables(s, e, now);
      forall f | f in after.issues ensures IssueOk(after, f) {
        if f == e.fingerprint {
          UpsertedOk(s, e, now);
        } else {
          OthersKept(s, e, now, f);
        }
      }
    }
  }

  lemma UpsertedOk(s: State, e: Event, now: Time)
    requires Inv(s) && !IsStored(s.events, e.eventId)
    ensures IssueOk(Step(s, Deliver(e, now)), e.fingerprint)
  {
    hide Tallied, Coherent, StatusIn, Justified, MentionsNew, ShouldRegress, AlertsOf, RecordRelease;
    UpsertCoherent(s, e, now);
    UpsertTallied(s, e, now);
    UpsertLogged(s, e, now);
    if e.fingerprint in s.issues { assert IssueOk(s, e.fingerprint); }
  }

  // ---------------------------------------------------------------------
  // Status actions and deletion keep the invariant
  // ---------------------------------------------------------------------

  lemma ActLogged(s: State, entry: LogEntry)
    requires Inv(s) && HasIssue(s, entry.id) && (entry.Acted? || entry.Deleted?)
    ensures var log := s.log + [entry];
            && Justified(log)
            && (forall id: nat :: StatusIn(log, id) == After(StatusIn(s.log, id), entry, id))
            && (forall id: nat :: MentionsNew(log, id) <==> MentionsNew(s.log, id))
  {
    hide StatusIn, Justified, MentionsNew, Tallied, Coherent;
    var f :| f in s.issues && s.issues[f].id == entry.id;
    assert IssueOk(s, f);
    JustifiedAppend(s.log, entry);
    forall id: nat ensures StatusIn(s.log + [entry], id) == After(StatusIn(s.log, id), entry, id)
                        && (MentionsNew(s.log + [entry], id) <==> MentionsNew(s.log, id))
    {
      StatusAppend(s.log, entry, id);
    }
  }

  lemma ActIssueOk(s: State, id: nat, action: Action, f: string)
    requires Inv(s) && HasIssue(s, id) && f in s.issues
    ensures IssueOk(Step(s, Act(id, action)), f)
    ensures Step(s, Act(id, action)).issues[f].id == s.issues[f].id
  {
    hide StatusIn, Justified, MentionsNew, EventsOf, Newest, TablesOk, OneRowEach;
    assert IssueOk(s, f);
    ActLogged(s, Acted(id, action));
  }

  lemma ActKeepsInv(s: State, id: nat, action: Action)
    requires Inv(s)
    ensures Inv(Step(s, Act(id, action)))
  {
    hide StatusIn, Justified, MentionsNew, Tallied, Coherent, IssueOk, Apply, Latest;
    if HasIssue(s, id) {
      var after := Step(s, Act(id, action));
      ActLogged(s, Acted(id, action));
      forall f | f in s.issues ensures IssueOk(after, f) && after.issues[f].id == s.issues[f].id {
        ActIssueOk(s, id, action, f);
      }
      IdsIssued(s, id);
    }
  }

  lemma IdsIssued(s: State, id: nat)
    requires Inv(s) && HasIssue(s, id)
    ensures id < s.nextId
  {
    var f :| f in s.issues && s.issues[f].id == id;
    assert IssueOk(s, f);
  }

  lemma DeleteKeepsInv(s: State, id: nat)
    requires Inv(s)
    ensures Inv(Step(s, Delete(id)))
  {
    hide StatusIn, Justified, MentionsNew, EventsOf, Newest, Coherent, Tallied;
    if HasIssue(s, id) {
      var after := Step(s, Delete(id));
      ActLogged(s, Deleted(id));
      forall f | f in after.issues ensures IssueOk(after, f) {
        assert IssueOk(s, f);
      }
    }
  }

  lemma StepKeepsInv(s: State, op: Op)
    requires Inv(s)
    ensures Inv(Step(s, op))
  {
    hide Inv, Step;
    match op
    case Deliver(e, now) => ProcessKeepsInv(s, e, now);
    case Act(id, action) => ActKeepsInv(s, id, action);
    case Delete(id) => DeleteKeepsInv(s, id);
  }

  /** Every reachable state satisfies the invariant. */
  lemma {:induction false} RunKeepsInv(s: State, ops: seq<Op>)
    requires Inv(s)
    ensures Inv(Run(s, ops))
    decreases |ops|
  {
    hide Inv, Step;
    if ops != [] {
      StepKeepsInv(s, ops[0]);
      RunKeepsInv(Step(s, ops[0]), ops[1..]);
    }
  }

  lemma EmptyInv()
    ensures Inv(EMPTY)
  {
  }
}
