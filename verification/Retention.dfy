/**
 Daily event partitions and the two retention mechanisms: dropping whole days,
 and trimming single projects at an exact instant. Days and dates are UTC.
 */
module Retention {
  /** Microseconds since a midnight. */
  type Time = int

  const DAY: Time := 86_400_000_000

  const DEFAULT_RETENTION_DAYS_FALLBACK := 90

  const LOOKAHEAD_DAYS: nat := 7

  function DayOf(t: Time): int {
    t / DAY
  }

  datatype Row = Row(project: nat, eventId: string, receivedAt: Time)

  datatype Project = Project(id: nat, retentionDays: int)

  /** An organisation's projects, and the instant its trim transaction starts. */
  datatype Org = Org(projects: seq<Project>, trimAt: Time)

  datatype Store = Store(partitions: set<int>, events: set<Row>)

  // ---------------------------------------------------------------------
  // The pure helpers
  // ---------------------------------------------------------------------

  function LookaheadDays(today: int, ahead: nat): (days: seq<int>)
    ensures forall d :: d in days <==> today <= d <= today + ahead
  {
    var days := seq(ahead + 1, i requires 0 <= i <= ahead => today + i);
    assert forall d :: today <= d <= today + ahead ==> d in days by {
      forall d | today <= d <= today + ahead ensures d in days {
        assert days[d - today] == d;
      }
    }
    days
  }

  function RetentionCutoff(today: int, globalMax: int): int {
    today - globalMax
  }

  function MaxOf(values: seq<int>): (m: int)
    requires values != []
    ensures m in values && forall v :: v in values ==> v <= m
  {
    if |values| == 1 then values[0]
    else
      var rest := MaxOf(values[1..]);
      assert forall v :: v in values ==> v == values[0] || v in values[1..];
      if values[0] > rest then values[0] else rest
  }

  function FoldGlobalMax(values: seq<int>): int {
    if values == [] then DEFAULT_RETENTION_DAYS_FALLBACK else MaxOf(values)
  }

  function ProjectsNeedingTrim(projects: seq<Project>, globalMax: int): (under: seq<Project>)
    ensures forall p :: p in under <==> p in projects && p.retentionDays < globalMax
  {
    if projects == [] then []
    else (if projects[0].retentionDays < globalMax then [projects[0]] else [])
         + ProjectsNeedingTrim(projects[1..], globalMax)
  }

  /** Every project's retention, organisation by organisation. */
  function AllRetentionDays(orgs: seq<Org>): (values: seq<int>)
    ensures forall v :: v in values <==> exists o, p :: o in orgs && p in o.projects && p.retentionDays == v
  {
    if orgs == [] then []
    else
      var own := orgs[0].projects;
      var days := seq(|own|, i requires 0 <= i < |own| => own[i].retentionDays);
      assert forall i :: 0 <= i < |own| ==> days[i] == own[i].retentionDays;
      assert orgs == [orgs[0]] + orgs[1..];
      days + AllRetentionDays(orgs[1..])
  }

  function GlobalMax(orgs: seq<Org>): int {
    FoldGlobalMax(AllRetentionDays(orgs))
  }

  // ---------------------------------------------------------------------
  // What a run keeps
  // ---------------------------------------------------------------------

  /** The exact-instant delete of one project's events. */
  predicate Expired(e: Row, p: Project, now: Time) {
    e.project == p.id && e.receivedAt < now - p.retentionDays * DAY
  }

  predicate ExpiredInOrg(e: Row, o: Org, globalMax: int) {
    exists p :: p in o.projects && p.retentionDays < globalMax && Expired(e, p, o.trimAt)
  }

  predicate Trimmed(e: Row, orgs: seq<Org>, globalMax: int) {
    exists o :: o in orgs && ExpiredInOrg(e, o, globalMax)
  }

  function DropBefore(s: Store, cutoff: int): Store {
    Store(set d | d in s.partitions && d >= cutoff,
          set e | e in s.events && DayOf(e.receivedAt) >= cutoff)
  }

  function Trim(s: Store, orgs: seq<Org>, globalMax: int): Store {
    s.(events := set e | e in s.events && !Trimmed(e, orgs, globalMax))
  }

  function Enforce(s: Store, orgs: seq<Org>, start: Time): Store {
    var globalMax := GlobalMax(orgs);
    Trim(DropBefore(s, RetentionCutoff(DayOf(start), globalMax)), orgs, globalMax)
  }

  function Maintain(s: Store, today: int): Store {
    s.(partitions := s.partitions + set d | d in LookaheadDays(today, LOOKAHEAD_DAYS))
  }

  /** A row can be stored only in the partition of its day. */
  function Insert(s: Store, e: Row): Store {
    if DayOf(e.receivedAt) in s.partitions then s.(events := s.events + {e}) else s
  }

  predicate Valid(s: Store) {
    forall e :: e in s.events ==> DayOf(e.receivedAt) in s.partitions
  }

  // ---------------------------------------------------------------------
  // The jobs
  // ---------------------------------------------------------------------

  lemma SomeDay(days: set<int>)
    ensures days == {} || exists d :: d in days
  {
    if forall d :: d !in days {
      assert days == {};
    }
  }

  class EventTables {
    var partitions: set<int>
    var events: set<Row>

    ghost function View(): Store
      reads this
    {
      Store(partitions, events)
    }

    constructor ()
      ensures View() == Store({}, {})
    {
      partitions, events := {}, {};
    }

    method InsertEvent(e: Row) returns (stored: bool)
      modifies this`events
      ensures View() == Insert(old(View()), e)
      ensures stored <==> DayOf(e.receivedAt) in partitions
    {
      stored := DayOf(e.receivedAt) in partitions;
      if stored {
        events := events + {e};
      }
    }

    method CreateEventsPartition(day: int)
      modifies this`partitions
      ensures partitions == old(partitions) + {day}
    {
      partitions := partitions + {day};
    }

    method MaintainEventPartitions(today: int)
      modifies this`partitions
      ensures View() == Maintain(old(View()), today)
    {
      var days := LookaheadDays(today, LOOKAHEAD_DAYS);
      for i := 0 to |days|
        invariant partitions == old(partitions) + set d | d in days[..i]
      {
        CreateEventsPartition(days[i]);
        assert days[..i + 1] == days[..i] + [days[i]];
      }
      assert days[..|days|] == days;
    }

    /** The loop over the partition catalog; dropping a table takes its rows along. */
    method DropEventsPartitionsBefore(day: int)
      requires Valid(View())
      modifies this
      ensures View() == DropBefore(old(View()), day)
      ensures Valid(View())
    {
      var todo := partitions;
      while todo != {}
        invariant todo <= old(partitions)
        invariant partitions == set d | d in old(partitions) && (d >= day || d in todo)
        invariant events == set e | e in old(events) && (DayOf(e.receivedAt) >= day || DayOf(e.receivedAt) in todo)
        decreases todo
      {
        SomeDay(todo);
        var d :| d in todo;
        todo := todo - {d};
        if d < day {
          partitions := partitions - {d};
          events := set e | e in events && DayOf(e.receivedAt) != d;
        }
      }
    }

    /** Per organisation, one DELETE for each project below the ceiling. */
    method TrimOverRetentionProjects(orgs: seq<Org>, globalMax: int)
      modifies this`events
      ensures View() == Trim(old(View()), orgs, globalMax)
    {
      for i := 0 to |orgs|
        invariant events == set e | e in old(events) && !Trimmed(e, orgs[..i], globalMax)
      {
        TrimOrg(orgs[i], globalMax);
        assert orgs[..i + 1] == orgs[..i] + [orgs[i]];
      }
      assert orgs[..|orgs|] == orgs;
    }

    method TrimOrg(o: Org, globalMax: int)
      modifies this`events
      ensures events == set e | e in old(events) && !ExpiredInOrg(e, o, globalMax)
    {
      var under := ProjectsNeedingTrim(o.projects, globalMax);
      for j := 0 to |under|
        invariant events == set e | e in old(events) && !exists p :: p in under[..j] && Expired(e, p, o.trimAt)
      {
        events := set e | e in events && !Expired(e, under[j], o.trimAt);
        assert under[..j + 1] == under[..j] + [under[j]];
      }
      assert under[..|under|] == under;
    }

    method EnforceRetention(orgs: seq<Org>, start: Time)
      requires Valid(View())
      modifies this
      ensures View() == Enforce(old(View()), orgs, start)
      ensures Valid(View())
    {
      var globalMax := FoldGlobalMax(AllRetentionDays(orgs));
      var cutoff := RetentionCutoff(DayOf(start), globalMax);
      DropEventsPartitionsBefore(cutoff);
      TrimOverRetentionProjects(orgs, globalMax);
    }
  }

  // ---------------------------------------------------------------------
  // Safe and tight
  // ---------------------------------------------------------------------

  /** No organisation trims before the run starts, and a project is listed once. */
  predicate Listing(orgs: seq<Org>, start: Time) {
    && (forall o :: o in orgs ==> o.trimAt >= start)
    && (forall o, o', p, p' :: o in orgs && o' in orgs && p in o.projects && p' in o'.projects && p.id == p'.id ==>
          p == p' && o.trimAt == o'.trimAt)
  }

  lemma GlobalMaxBounds(orgs: seq<Org>, o: Org, p: Project)
    requires o in orgs && p in o.projects
    ensures p.retentionDays <= GlobalMax(orgs)
  {
    assert p.retentionDays in AllRetentionDays(orgs);
  }

  lemma MultiplyDays(a: int, b: int)
    ensures a <= b ==> a * DAY <= b * DAY
  {
  }

  lemma DayBounds(t: Time)
    ensures DayOf(t) * DAY <= t < (DayOf(t) + 1) * DAY
  {
  }

  lemma DayMonotone(t: Time, u: Time)
    requires t <= u
    ensures DayOf(t) <= DayOf(u)
  {
  }

  /** An event still inside its project's window is in no dropped partition. */
  lemma InsideIsAfterCutoff(e: Row, retentionDays: int, globalMax: int, start: Time, now: Time)
    requires retentionDays <= globalMax && start <= now
    requires e.receivedAt >= now - retentionDays * DAY
    ensures DayOf(e.receivedAt) >= RetentionCutoff(DayOf(start), globalMax)
  {
    MultiplyDays(retentionDays, globalMax);
    DayMonotone(start - globalMax * DAY, e.receivedAt);
    ShiftDay(start, globalMax);
  }

  lemma ShiftDay(t: Time, days: int)
    ensures DayOf(t - days * DAY) == DayOf(t) - days
  {
    var d := DayOf(t);
    assert t == d * DAY + t % DAY;
    assert t - days * DAY == (d - days) * DAY + t % DAY;
  }

  /** Exactly which events of a listed project one run keeps. */
  lemma KeptIff(s: Store, orgs: seq<Org>, start: Time, o: Org, p: Project, e: Row)
    requires Listing(orgs, start) && o in orgs && p in o.projects && e.project == p.id && e in s.events
    ensures e in Enforce(s, orgs, start).events <==>
              && DayOf(e.receivedAt) >= RetentionCutoff(DayOf(start), GlobalMax(orgs))
              && (p.retentionDays < GlobalMax(orgs) ==> e.receivedAt >= o.trimAt - p.retentionDays * DAY)
  {
    hide DayOf, GlobalMax;
    var globalMax := GlobalMax(orgs);
    if p.retentionDays < globalMax && Expired(e, p, o.trimAt) {
      assert ExpiredInOrg(e, o, globalMax);
    }
    if Trimmed(e, orgs, globalMax) {
      var o' :| o' in orgs && ExpiredInOrg(e, o', globalMax);
      var p' :| p' in o'.projects && p'.retentionDays < globalMax && Expired(e, p', o'.trimAt);
      assert p == p' && o.trimAt == o'.trimAt;
    }
  }

  /**
   One run removes no event still inside its project's window when that
   project's organisation is trimmed.
   */
  lemma RetentionIsSafe(s: Store, orgs: seq<Org>, start: Time, o: Org, p: Project, e: Row)
    requires Listing(orgs, start) && o in orgs && p in o.projects && e.project == p.id && e in s.events
    requires e.receivedAt >= o.trimAt - p.retentionDays * DAY
    ensures e in Enforce(s, orgs, start).events
  {
    hide DayOf, GlobalMax, Enforce;
    GlobalMaxBounds(orgs, o, p);
    InsideIsAfterCutoff(e, p.retentionDays, GlobalMax(orgs), start, o.trimAt);
    KeptIff(s, orgs, start, o, p, e);
  }

  /**
   After a run every event of a listed project is at most its retention old,
   or, for the projects at the global maximum, less than one day more.
   */
  lemma RetentionIsTight(s: Store, orgs: seq<Org>, start: Time, o: Org, p: Project, e: Row)
    requires Listing(orgs, start) && o in orgs && p in o.projects && e.project == p.id
    requires e in Enforce(s, orgs, start).events
    ensures p.retentionDays < GlobalMax(orgs) ==> o.trimAt - e.receivedAt <= p.retentionDays * DAY
    ensures p.retentionDays == GlobalMax(orgs) ==> start - e.receivedAt < (p.retentionDays + 1) * DAY
  {
    hide DayOf, GlobalMax;
    KeptIff(s, orgs, start, o, p, e);
    DayBounds(start);
    DayBounds(e.receivedAt);
    MultiplyDays(DayOf(start) - GlobalMax(orgs), DayOf(e.receivedAt));
  }

  // ---------------------------------------------------------------------
  // Runs
  // ---------------------------------------------------------------------

  datatype Op =
    | MaintainOp(today: int)
    | EnforceOp(orgs: seq<Org>, start: Time)
    | InsertOp(row: Row)

  function Step(s: Store, op: Op): Store {
    match op
    case MaintainOp(today) => Maintain(s, today)
    case EnforceOp(orgs, start) => Enforce(s, orgs, start)
    case InsertOp(row) => Insert(s, row)
  }

  function Run(s: Store, ops: seq<Op>): Store
    decreases |ops|
  {
    if ops == [] then s else Run(Step(s, ops[0]), ops[1..])
  }

  predicate RetentionNonNegative(orgs: seq<Org>) {
    forall o, p :: o in orgs && p in o.projects ==> p.retentionDays >= 0
  }

  /** Retention runs up to day `day`, none with a negative setting. */
  predicate EnforcedBy(ops: seq<Op>, day: int) {
    forall k :: 0 <= k < |ops| && ops[k].EnforceOp? ==>
      DayOf(ops[k].start) <= day && RetentionNonNegative(ops[k].orgs)
  }

  lemma GlobalMaxNonNegative(orgs: seq<Org>)
    requires RetentionNonNegative(orgs)
    ensures GlobalMax(orgs) >= 0
  {
    var values := AllRetentionDays(orgs);
    if values != [] {
      var m := MaxOf(values);
      assert m in values;
    }
  }

  /** Rows are always in an attached partition. */
  lemma {:induction false} RunKeepsValid(s: Store, ops: seq<Op>)
    requires Valid(s)
    ensures Valid(Run(s, ops))
    decreases |ops|
  {
    hide DayOf, GlobalMax, Trimmed;
    if ops != [] {
      RunKeepsValid(Step(s, ops[0]), ops[1..]);
    }
  }

  lemma {:induction false} PartitionStays(s: Store, ops: seq<Op>, day: int)
    requires day in s.partitions && EnforcedBy(ops, day)
    ensures day in Run(s, ops).partitions
    decreases |ops|
  {
    hide DayOf, GlobalMax, Trimmed, LookaheadDays;
    if ops != [] {
      if ops[0].EnforceOp? { GlobalMaxNonNegative(ops[0].orgs); }
      assert EnforcedBy(ops[1..], day);
      PartitionStays(Step(s, ops[0]), ops[1..], day);
    }
  }

  /**
   Ingest always has a home: after maintenance on one day, on that day and the
   seven after it today's partition is there and an event received now is
   stored, whatever retention runs and inserts happened since.
   */
  lemma IngestHasHome(s: Store, maintained: int, ops: seq<Op>, e: Row)
    requires maintained <= DayOf(e.receivedAt) <= maintained + LOOKAHEAD_DAYS
    requires EnforcedBy(ops, DayOf(e.receivedAt))
    ensures e in Insert(Run(Maintain(s, maintained), ops), e).events
  {
    hide DayOf, EnforcedBy;
    PartitionStays(Maintain(s, maintained), ops, DayOf(e.receivedAt));
  }

  /** At every retention run the event's project is listed and the event is inside its window. */
  predicate InsideThroughout(ops: seq<Op>, e: Row) {
    forall k :: 0 <= k < |ops| && ops[k].EnforceOp? ==> InsideAt(ops[k].orgs, ops[k].start, e)
  }

  predicate InsideAt(orgs: seq<Org>, start: Time, e: Row) {
    && Listing(orgs, start)
    && exists o :: o in orgs && InsideIn(o, e)
  }

  predicate InsideIn(o: Org, e: Row) {
    exists p :: p in o.projects && p.id == e.project && e.receivedAt >= o.trimAt - p.retentionDays * DAY
  }

  /** A stored event survives any run for as long as it stays inside its project's window. */
  lemma {:induction false} EventSurvivesRun(s: Store, ops: seq<Op>, e: Row)
    requires e in s.events && InsideThroughout(ops, e)
    ensures e in Run(s, ops).events
    decreases |ops|
  {
    hide Enforce, DayOf, Listing;
    if ops != [] {
      if ops[0].EnforceOp? {
        var EnforceOp(orgs, start) := ops[0];
        assert InsideAt(orgs, start, e);
        var o :| o in orgs && InsideIn(o, e);
        var p :| p in o.projects && p.id == e.project && e.receivedAt >= o.trimAt - p.retentionDays * DAY;
        RetentionIsSafe(s, orgs, start, o, p, e);
      }
      assert InsideThroughout(ops[1..], e);
      EventSurvivesRun(Step(s, ops[0]), ops[1..], e);
    }
  }

  // ---------------------------------------------------------------------
  // The tables after one job
  // ---------------------------------------------------------------------

  /** The global maximum is the longest retention any project has, and ninety days when there is no project. */
  predicate IsLongest(orgs: seq<Org>, days: int) {
    if exists o :: o in orgs && o.projects != [] then
      && (exists o, p :: o in orgs && p in o.projects && p.retentionDays == days)
      && (forall o, p :: o in orgs && p in o.projects ==> p.retentionDays <= days)
    else days == 90
  }

  lemma {:induction false} NoValues(orgs: seq<Org>)
    requires forall o :: o in orgs ==> o.projects == []
    ensures AllRetentionDays(orgs) == []
  {
    if orgs != [] {
      assert orgs[0] in orgs;
      NoValues(orgs[1..]);
    }
  }

  lemma GlobalMaxIsLongest(orgs: seq<Org>)
    ensures IsLongest(orgs, GlobalMax(orgs))
  {
    var values := AllRetentionDays(orgs);
    if exists o :: o in orgs && o.projects != [] {
      var o :| o in orgs && o.projects != [];
      assert o.projects[0] in o.projects;
      assert o.projects[0].retentionDays in values;
      assert GlobalMax(orgs) in values;
      forall o, p | o in orgs && p in o.projects ensures p.retentionDays <= GlobalMax(orgs) {
        GlobalMaxBounds(orgs, o, p);
      }
    } else {
      NoValues(orgs);
    }
  }

  /** One run detaches exactly the days more than the longest retention before today, and adds nothing. */
  lemma AttachedAfterRetention(s: Store, orgs: seq<Org>, start: Time, day: int, longest: int)
    requires IsLongest(orgs, longest)
    ensures day in Enforce(s, orgs, start).partitions <==> day in s.partitions && day >= DayOf(start) - longest
    ensures Enforce(s, orgs, start).events <= s.events
  {
    hide GlobalMax, DayOf, Trimmed;
    GlobalMaxIsLongest(orgs);
    LongestIsOne(orgs, longest, GlobalMax(orgs));
  }

  lemma LongestIsOne(orgs: seq<Org>, a: int, b: int)
    requires IsLongest(orgs, a) && IsLongest(orgs, b)
    ensures a == b
  {
  }

  /** The events of a project no organisation lists go with their day only. */
  lemma UnlistedKeptIff(s: Store, orgs: seq<Org>, start: Time, e: Row, longest: int)
    requires IsLongest(orgs, longest) && e in s.events
    requires forall o, p :: o in orgs && p in o.projects ==> p.id != e.project
    ensures e in Enforce(s, orgs, start).events <==> DayOf(e.receivedAt) >= DayOf(start) - longest
  {
    hide GlobalMax, DayOf;
    GlobalMaxIsLongest(orgs);
    LongestIsOne(orgs, longest, GlobalMax(orgs));
  }

  /** Maintenance attaches today and the seven days after it, keeps what is attached, and touches no event. */
  lemma AttachedAfterMaintenance(s: Store, today: int, day: int)
    ensures day in Maintain(s, today).partitions <==> day in s.partitions || today <= day <= today + 7
    ensures Maintain(s, today).events == s.events
  {
  }

  /** An insert stores the event exactly when its day is attached, and changes nothing else. */
  lemma StoredAfterInsert(s: Store, e: Row, other: Row)
    ensures other in Insert(s, e).events <==> other in s.events || (other == e && DayOf(e.receivedAt) in s.partitions)
    ensures Insert(s, e).partitions == s.partitions
  {
    hide DayOf;
  }

  /** Days are those of 24 hours in microseconds. */
  lemma DayIs(t: Time, day: int)
    ensures DayOf(t) == day <==> day * 24 * 60 * 60 * 1_000_000 <= t < (day + 1) * 24 * 60 * 60 * 1_000_000
  {
  }
}
