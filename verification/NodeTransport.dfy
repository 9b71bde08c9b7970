/**
 The Node SDK's transport: a bounded drop-oldest queue and one send in flight.
 Code between two awaits runs without interruption, so a step is one call into
 the object or one settlement of the awaited transmit.
 */
module NodeTransport {
  import opened Sequences
  import opened Wrappers

  /** A finished transmit: the body it sent, and the body the drain loop then shifted off the queue. */
  datatype Completion = Completion(sent: nat, removed: nat)

  /** Bodies are numbered in the order they are enqueued; the number of the next one is `accepted`. */
  datatype State = State(
    maxQueue: nat,
    queue: seq<nat>,
    inFlight: Option<nat>,
    closed: bool,
    accepted: nat,
    handed: seq<nat>,
    completions: seq<Completion>,
    overflowed: seq<nat>,
    cleared: nat,
    rejections: nat)

  function Start(maxQueue: int): State {
    State(if maxQueue > 1 then maxQueue else 1, [], None, false, 0, [], [], [], 0, 0)
  }

  // ---------------------------------------------------------------------
  // Steps
  // ---------------------------------------------------------------------

  datatype Step =
    | Send      // send() with a serialisable event
    | Flush     // the drain() call of flush()
    | Resolve   // the awaited transmit returns
    | Reject    // the awaited transmit throws
    | Close

  /** Push, then shift until the bound holds. */
  function Enqueue(s: State): State {
    Shed(s.(queue := s.queue + [s.accepted], accepted := s.accepted + 1))
  }

  function Shed(s: State): State
    decreases |s.queue|
  {
    if |s.queue| <= s.maxQueue then s
    else Shed(s.(queue := s.queue[1..], overflowed := s.overflowed + [s.queue[0]]))
  }

  /** The head of the drain loop: hand over the oldest body or stop sending. */
  function LoopHead(s: State): State {
    if s.queue != [] && !s.closed then s.(inFlight := Some(s.queue[0]), handed := s.handed + [s.queue[0]])
    else s.(inFlight := None)
  }

  function Drain(s: State): State {
    if s.inFlight.Some? then s else LoopHead(s)
  }

  predicate Enabled(s: State, step: Step) {
    step.Resolve? || step.Reject? ==> s.inFlight.Some?
  }

  function Next(s: State, step: Step): State
    requires Enabled(s, step)
  {
    match step
    case Send => if s.closed then s else Drain(Enqueue(s))
    case Flush => Drain(s)
    case Resolve =>
      if s.queue == [] then LoopHead(s)
      else LoopHead(s.(queue := s.queue[1..],
                       completions := s.completions + [Completion(s.inFlight.value, s.queue[0])]))
    case Reject => s.(inFlight := None, rejections := s.rejections + 1)
    case Close => s.(closed := true, queue := [], cleared := s.cleared + |s.queue|)
  }

  predicate IsRun(s: State, steps: seq<Step>)
    decreases |steps|
  {
    steps == [] || (Enabled(s, steps[0]) && IsRun(Next(s, steps[0]), steps[1..]))
  }

  function Run(s: State, steps: seq<Step>): State
    requires IsRun(s, steps)
    decreases |steps|
  {
    if steps == [] then s else Run(Next(s, steps[0]), steps[1..])
  }

  // ---------------------------------------------------------------------
  // The object
  // ---------------------------------------------------------------------

  class Transport {
    const maxQueue: nat
    var queue: seq<nat>
    var sending: bool
    var closed: bool
    var warnedFull: bool
    var accepted: nat

    /** The body in the loop variable of a suspended drain. */
    ghost var inFlight: Option<nat>
    ghost var handed: seq<nat>
    ghost var completions: seq<Completion>
    ghost var overflowed: seq<nat>
    ghost var cleared: nat
    ghost var rejections: nat

    ghost predicate Valid()
      reads this
    {
      && (sending <==> inFlight.Some?)
      && maxQueue >= 1
    }

    ghost function View(): State
      reads this
    {
      State(maxQueue, queue, inFlight, closed, accepted, handed, completions, overflowed, cleared, rejections)
    }

    constructor (maxQueue: int)
      ensures Valid() && View() == Start(maxQueue)
    {
      this.maxQueue := if maxQueue > 1 then maxQueue else 1;
      queue, sending, closed, warnedFull, accepted := [], false, false, false, 0;
      inFlight, handed, completions, overflowed, cleared, rejections := None, [], [], [], 0, 0;
    }

    method EnqueueBody()
      requires Valid()
      modifies this`queue, this`accepted, this`warnedFull, this`overflowed
      ensures Valid() && View() == Enqueue(old(View()))
      ensures |queue| <= maxQueue
    {
      queue := queue + [accepted];
      accepted := accepted + 1;
      while |queue| > maxQueue
        invariant Valid() && unchanged(this`sending, this`inFlight, this`closed, this`handed, this`completions,
                                       this`cleared, this`rejections)
        invariant Shed(View()) == Enqueue(old(View()))
        decreases |queue|
      {
        overflowed := overflowed + [queue[0]];
        queue := queue[1..];
        if !warnedFull {
          warnedFull := true;
        }
      }
    }

    /** From the loop test to the next await, or to the end of the loop. */
    method ContinueDrain()
      modifies this`sending, this`inFlight, this`handed
      ensures View() == LoopHead(old(View()))
      ensures sending <==> inFlight.Some?
    {
      if |queue| > 0 && !closed {
        var body := queue[0];
        sending := true;
        inFlight := Some(body);
        handed := handed + [body];
      } else {
        sending := false;
        inFlight := None;
      }
    }

    method StartDrain()
      requires Valid()
      modifies this`sending, this`inFlight, this`handed
      ensures Valid() && View() == Drain(old(View()))
    {
      if sending {
        return;
      }
      sending := true;
      ContinueDrain();
    }

    method SendEvent()
      requires Valid()
      modifies this
      ensures Valid() && View() == Next(old(View()), Send)
    {
      if closed {
        return;
      }
      EnqueueBody();
      StartDrain();
    }

    method TransmitResolved()
      requires Valid() && inFlight.Some?
      modifies this
      ensures Valid() && View() == Next(old(View()), Resolve)
    {
      if queue != [] {
        completions := completions + [Completion(inFlight.value, queue[0])];
        queue := queue[1..];
      }
      ContinueDrain();
    }

    method TransmitRejected()
      requires Valid() && inFlight.Some?
      modifies this`sending, this`inFlight, this`rejections
      ensures Valid() && View() == Next(old(View()), Reject)
    {
      sending := false;
      inFlight, rejections := None, rejections + 1;
    }

    method CloseTransport()
      requires Valid()
      modifies this`closed, this`queue, this`cleared
      ensures Valid() && View() == Next(old(View()), Close)
    {
      cleared := cleared + |queue|;
      closed := true;
      queue := [];
    }
  }

  // ---------------------------------------------------------------------
  // The invariant
  // ---------------------------------------------------------------------

  /** The number of the oldest body that has not left the queue. */
  function Head(s: State): int {
    s.accepted - |s.queue|
  }

  /** The queue is an unbroken stretch of the accepted bodies, up to the newest. */
  predicate QueueOk(s: State) {
    && |s.queue| <= s.accepted
    && (forall i :: 0 <= i < |s.queue| ==> s.queue[i] == Head(s) + i)
    && 1 <= s.maxQueue && |s.queue| <= s.maxQueue
    && (s.closed ==> s.queue == [])
    && (!s.closed && s.inFlight.Some? ==> s.queue != [])
    && (!s.closed ==> s.cleared == 0)
  }

  /** Every accepted body is counted once. */
  predicate CountOk(s: State) {
    |s.completions| + |s.overflowed| + s.cleared + |s.queue| == s.accepted
  }

  predicate NonDescending(tickets: seq<nat>) {
    forall i, j :: 0 <= i < j < |tickets| ==> tickets[i] <= tickets[j]
  }

  /** Order of the hand-overs. */
  predicate HandedOk(s: State) {
    && NonDescending(s.handed)
    && (forall i :: 0 <= i < |s.handed| ==> s.handed[i] <= Head(s) && s.handed[i] < s.accepted)
    && (s.inFlight.Some? ==> s.handed != [] && s.handed[|s.handed| - 1] == s.inFlight.value)
    && (s.rejections == 0 ==> Ascending(s.handed))
    && (s.rejections == 0 && s.inFlight.None? ==> forall i :: 0 <= i < |s.handed| ==> s.handed[i] < Head(s))
  }

  /** Which bodies the drain loop has taken off. */
  predicate Removed(s: State, t: nat) {
    exists i :: 0 <= i < |s.completions| && s.completions[i].removed == t
  }

  /** A completion that took off another body than the one it sent took off one never sent, and the sent one had overflowed. */
  predicate PairOk(s: State, c: Completion) {
    && c.sent <= c.removed < Head(s)
    && c.sent in s.handed
    && (c.sent != c.removed ==> c.removed !in s.handed && c.sent in s.overflowed)
  }

  predicate PairsOk(s: State) {
    && (forall i :: 0 <= i < |s.completions| ==> PairOk(s, s.completions[i]))
    && (forall t: nat :: t < Head(s) && !s.closed ==> Removed(s, t) || t in s.overflowed)
    && (s.inFlight.Some? && !s.closed && s.inFlight.value < Head(s) ==> s.inFlight.value in s.overflowed)
    && (forall t :: t in s.overflowed ==> t < Head(s))
  }

  predicate Inv(s: State) {
    QueueOk(s) && CountOk(s) && HandedOk(s) && PairsOk(s)
  }

  // ---------------------------------------------------------------------
  // Every step keeps it
  // ---------------------------------------------------------------------

  /** A full queue loses exactly its oldest body to a new one. */
  lemma EnqueueOnce(s: State)
    requires QueueOk(s)
    ensures var pushed := s.(queue := s.queue + [s.accepted], accepted := s.accepted + 1);
            Enqueue(s) == if |s.queue| < s.maxQueue then pushed
                          else pushed.(queue := pushed.queue[1..], overflowed := s.overflowed + [pushed.queue[0]])
  {
    var pushed := s.(queue := s.queue + [s.accepted], accepted := s.accepted + 1);
    var shed := pushed.(queue := pushed.queue[1..], overflowed := s.overflowed + [pushed.queue[0]]);
    if |s.queue| >= s.maxQueue {
      assert Shed(pushed) == Shed(shed) == shed;
    }
  }

  lemma EnqueueKeeps(s: State)
    requires Inv(s) && !s.closed
    ensures Inv(Enqueue(s)) && Enqueue(s).queue != []
  {
    hide Enqueue, Shed;
    EnqueueOnce(s);
    var e := Enqueue(s);
    assert QueueOk(e) && CountOk(e) && HandedOk(e);
    forall i | 0 <= i < |e.completions| ensures PairOk(e, e.completions[i]) {
      assert PairOk(s, s.completions[i]);
    }
    forall t: nat | t < Head(e) ensures Removed(e, t) || t in e.overflowed {
      if t < Head(s) {
        assert Removed(s, t) ==> Removed(e, t);
        if t in s.overflowed { assert t in e.overflowed; }
      } else {
        assert t == e.overflowed[|s.overflowed|];
      }
    }
    if s.inFlight.Some? && s.inFlight.value < Head(e) {
      if s.inFlight.value == Head(s) { assert s.inFlight.value == e.overflowed[|s.overflowed|]; }
    }
  }

  lemma LoopHeadKeeps(s: State)
    requires QueueOk(s) && CountOk(s) && PairsOk(s) && HandedOk(s.(inFlight := None))
    ensures Inv(LoopHead(s))
  {
    var e := LoopHead(s);
    assert e.handed[..|s.handed|] == s.handed;
    forall i | 0 <= i < |e.completions| ensures PairOk(e, e.completions[i]) {
      assert PairOk(s, s.completions[i]);
    }
    forall t: nat | t < Head(e) && !e.closed ensures Removed(e, t) || t in e.overflowed {
      assert Removed(s, t) ==> Removed(e, t);
    }
  }

  lemma DrainKeeps(s: State)
    requires Inv(s)
    ensures Inv(Drain(s))
  {
    hide Inv, QueueOk, CountOk, PairsOk, LoopHead;
    if s.inFlight.None? {
      assert s.(inFlight := None) == s;
      InvParts(s);
      LoopHeadKeeps(s);
    }
  }

  lemma InvParts(s: State)
    requires Inv(s)
    ensures QueueOk(s) && CountOk(s) && HandedOk(s) && PairsOk(s)
  {
  }

  /** The state between the awaited transmit and the loop test. */
  function Shifted(s: State): State
    requires s.inFlight.Some? && s.queue != []
  {
    s.(queue := s.queue[1..], inFlight := None,
       completions := s.completions + [Completion(s.inFlight.value, s.queue[0])])
  }

  lemma ShiftKeepsOrder(s: State)
    requires Inv(s) && s.inFlight.Some? && s.queue != []
    ensures QueueOk(Shifted(s)) && CountOk(Shifted(s)) && HandedOk(Shifted(s))
  {
    hide PairsOk;
    var e := Shifted(s);
    assert Head(e) == Head(s) + 1;
  }

  lemma ShiftKeepsPairs(s: State)
    requires Inv(s) && s.inFlight.Some? && s.queue != []
    ensures PairsOk(Shifted(s))
  {
    var e := Shifted(s);
    var k, h := s.inFlight.value, s.queue[0];
    assert h == Head(s);
    assert k == s.handed[|s.handed| - 1] && k in s.handed;
    if k != h {
      assert forall i :: 0 <= i < |s.handed| ==> s.handed[i] <= k;
    }
    forall i | 0 <= i < |e.completions| ensures PairOk(e, e.completions[i]) {
      if i < |s.completions| { assert PairOk(s, s.completions[i]); }
    }
    forall t: nat | t < Head(e) && !e.closed ensures Removed(e, t) || t in e.overflowed {
      if t < Head(s) {
        if Removed(s, t) {
          var i :| 0 <= i < |s.completions| && s.completions[i].removed == t;
          assert e.completions[i].removed == t;
        }
      } else {
        assert e.completions[|s.completions|].removed == t;
      }
    }
  }

  lemma ResolveKeeps(s: State)
    requires Inv(s) && s.inFlight.Some?
    ensures Inv(Next(s, Resolve))
  {
    hide Inv, QueueOk, CountOk, PairsOk, HandedOk;
    if s.queue == [] {
      ClosedResolve(s);
    } else {
      ShiftKeepsOrder(s);
      ShiftKeepsPairs(s);
      assert Shifted(s).(inFlight := None) == Shifted(s);
      LoopHeadKeeps(Shifted(s));
      assert Next(s, Resolve) == LoopHead(Shifted(s));
    }
  }

  lemma ClosedResolve(s: State)
    requires Inv(s) && s.inFlight.Some? && s.queue == []
    ensures Inv(Next(s, Resolve))
  {
    var e := Next(s, Resolve);
    assert s.closed && e == s.(inFlight := None);
    InFlightBelowHead(s);
    forall i | 0 <= i < |e.completions| ensures PairOk(e, e.completions[i]) {
      assert PairOk(s, s.completions[i]);
    }
  }

  lemma InFlightBelowHead(s: State)
    requires Inv(s) && s.queue == []
    ensures forall i :: 0 <= i < |s.handed| ==> s.handed[i] < Head(s)
  {
  }

  lemma RejectKeeps(s: State)
    requires Inv(s) && s.inFlight.Some?
    ensures Inv(Next(s, Reject))
  {
    var e := Next(s, Reject);
    forall i | 0 <= i < |e.completions| ensures PairOk(e, e.completions[i]) {
      assert PairOk(s, s.completions[i]);
    }
    forall t: nat | t < Head(e) && !e.closed ensures Removed(e, t) || t in e.overflowed {
      assert Removed(s, t) ==> Removed(e, t);
    }
  }

  lemma CloseKeeps(s: State)
    requires Inv(s)
    ensures Inv(Next(s, Close))
  {
    var e := Next(s, Close);
    forall i | 0 <= i < |e.completions| ensures PairOk(e, e.completions[i]) {
      assert PairOk(s, s.completions[i]);
    }
  }

  lemma StepKeepsInv(s: State, step: Step)
    requires Inv(s) && Enabled(s, step)
    ensures Inv(Next(s, step))
  {
    hide Inv, Enqueue, Drain;
    match step
    case Send =>
      if !s.closed {
        EnqueueKeeps(s);
        DrainKeeps(Enqueue(s));
      }
    case Flush => DrainKeeps(s);
    case Resolve => ResolveKeeps(s);
    case Reject => RejectKeeps(s);
    case Close => CloseKeeps(s);
  }

  lemma {:induction false} RunKeepsInv(s: State, steps: seq<Step>)
    requires Inv(s) && IsRun(s, steps)
    ensures Inv(Run(s, steps))
    decreases |steps|
  {
    hide Inv, Next, Enabled;
    if steps != [] {
      StepKeepsInv(s, steps[0]);
      RunKeepsInv(Next(s, steps[0]), steps[1..]);
    }
  }

  lemma StartInv(maxQueue: int)
    ensures Inv(Start(maxQueue))
  {
  }

  predicate Reachable(maxQueue: int, steps: seq<Step>) {
    IsRun(Start(maxQueue), steps)
  }

  lemma ReachableInv(maxQueue: int, steps: seq<Step>)
    requires Reachable(maxQueue, steps)
    ensures Inv(Run(Start(maxQueue), steps))
  {
    hide Inv, Start, Next, Enabled;
    StartInv(maxQueue);
    RunKeepsInv(Start(maxQueue), steps);
  }

  // ---------------------------------------------------------------------
  // Order and conservation
  // ---------------------------------------------------------------------

  /**
   In every reachable state the bodies handed to `transmit` are accepted ones
   in order, and none twice as long as no transmit has thrown; the queue keeps
   its bound; and until close every accepted body is counted once, as shifted
   off after a transmit, dropped by overflow, or still queued.
   */
  lemma OrderAndConservation(maxQueue: int, steps: seq<Step>)
    requires Reachable(maxQueue, steps)
    ensures var s := Run(Start(maxQueue), steps);
            && NonDescending(s.handed)
            && (s.rejections == 0 ==> Ascending(s.handed))
            && (forall t :: t in s.handed ==> t < s.accepted)
            && |s.queue| <= s.maxQueue
            && (!s.closed ==> |s.completions| + |s.overflowed| + |s.queue| == s.accepted)
  {
    hide Start, Run, IsRun, PairsOk, NonDescending, Ascending;
    ReachableInv(maxQueue, steps);
  }

  // ---------------------------------------------------------------------
  // Repeats
  // ---------------------------------------------------------------------

  /** The body in flight is still the head of the queue, and the next call will not push it off. */
  predicate StaysHead(s: State, next: Step) {
    && s.inFlight.Some? && s.queue != [] && s.queue[0] == s.inFlight.value
    && (next.Send? ==> |s.queue| < s.maxQueue)
  }

  lemma HeadUnlessOverflowed(s: State)
    requires Inv(s) && !s.closed && s.inFlight.Some?
    ensures s.queue != []
    ensures s.queue[0] == s.inFlight.value <==> s.inFlight.value !in s.overflowed
  {
    hide CountOk, Ascending;
    assert s.inFlight.value == s.handed[|s.handed| - 1];
  }

  /**
   When a transmit throws before close, the next hand-over repeats a body
   exactly when the thrown one is still the head of the queue, that is has not
   overflowed, and is not pushed off by the very call that resumes sending; the
   body repeated is the thrown one.
   */
  lemma RepeatIff(s: State, next: Step)
    requires Inv(s) && !s.closed && s.inFlight.Some? && (next.Send? || next.Flush?)
    ensures var thrown := Next(s, Reject);
            var after := Next(thrown, next);
            && after.inFlight.Some? && after.handed == thrown.handed + [after.inFlight.value]
            && (after.inFlight.value in thrown.handed <==> StaysHead(s, next))
            && (after.inFlight.value in thrown.handed ==> after.inFlight.value == s.inFlight.value)
            && (StaysHead(s, Flush) <==> s.inFlight.value !in s.overflowed)
  {
    hide CountOk, PairsOk, Shed, Enqueue, Ascending;
    HeadUnlessOverflowed(s);
    var k := s.inFlight.value;
    assert k == s.handed[|s.handed| - 1] && k in s.handed;
    assert forall i :: 0 <= i < |s.handed| ==> s.handed[i] <= k;
    var thrown := Next(s, Reject);
    EnqueueOnce(thrown);
  }

  /** Taking the last step off a run. */
  lemma {:induction false} RunFront(s: State, steps: seq<Step>)
    requires steps != [] && IsRun(s, steps)
    ensures var n := |steps| - 1;
            && IsRun(s, steps[..n]) && Enabled(Run(s, steps[..n]), steps[n])
            && Run(s, steps) == Next(Run(s, steps[..n]), steps[n])
    decreases |steps|
  {
    hide Next, Enabled;
    var n := |steps| - 1;
    if n > 0 {
      RunFront(Next(s, steps[0]), steps[1..]);
      assert steps[1..][..n - 1] == steps[..n][1..];
    }
  }

  /** Before close the drain is idle over a queue exactly when the last step was a transmit that threw. */
  lemma IdleIffRejected(maxQueue: int, steps: seq<Step>)
    requires Reachable(maxQueue, steps) && !Run(Start(maxQueue), steps).closed
    ensures var s := Run(Start(maxQueue), steps);
            s.inFlight.None? && s.queue != [] <==> steps != [] && steps[|steps| - 1].Reject?
  {
    hide Run, IsRun, CountOk, HandedOk, PairsOk;
    if steps == [] {
      RunNothing(Start(maxQueue));
    } else {
      hide Start, Shed;
      RunFront(Start(maxQueue), steps);
      ReachableInv(maxQueue, steps[..|steps| - 1]);
      OneStepIdle(Run(Start(maxQueue), steps[..|steps| - 1]), steps[|steps| - 1]);
    }
  }

  lemma OneStepIdle(s: State, step: Step)
    requires Inv(s) && Enabled(s, step) && !Next(s, step).closed
    ensures Next(s, step).inFlight.None? && Next(s, step).queue != [] ==> step.Reject?
    ensures step.Reject? ==> Next(s, step).inFlight.None? && Next(s, step).queue != []
  {
    hide CountOk, HandedOk, PairsOk, Shed;
    if step.Send? { EnqueueOnce(s); }
  }

  lemma AscendingMore(handed: seq<nat>, x: nat)
    requires NonDescending(handed + [x])
    ensures Ascending(handed + [x]) <==> Ascending(handed) && x !in handed
  {
    var more := handed + [x];
    assert forall i :: 0 <= i < |handed| ==> more[i] == handed[i] && more[i] <= more[|handed|];
    if Ascending(more) {
      assert forall i :: 0 <= i < |handed| ==> more[i] < more[|handed|];
    }
  }

  /** Every hand-over but the first after a throw is of a body never handed over. */
  lemma FreshHandover(s: State, step: Step)
    requires Inv(s) && Enabled(s, step)
    requires s.closed || s.inFlight.Some? || s.queue == [] || !(step.Send? || step.Flush?)
    ensures Ascending(Next(s, step).handed) <==> Ascending(s.handed)
  {
    hide PairsOk, CountOk, Shed, Enqueue, Ascending, NonDescending;
    StepKeepsInv(s, step);
    var after := Next(s, step);
    if step.Send? && !s.closed { EnqueueOnce(s); }
    if after.handed != s.handed {
      var x := after.inFlight.value;
      assert after.handed == s.handed + [x];
      assert x !in s.handed;
      AscendingMore(s.handed, x);
    }
  }

  /** The last two steps: a transmit throws and the next call hands its body over again. */
  predicate LastRepeats(maxQueue: int, steps: seq<Step>) {
    var n := |steps| - 2;
    && n >= 0 && steps[n].Reject? && (steps[n + 1].Send? || steps[n + 1].Flush?)
    && Reachable(maxQueue, steps[..n])
    && !Run(Start(maxQueue), steps[..n]).closed
    && StaysHead(Run(Start(maxQueue), steps[..n]), steps[n + 1])
  }

  /** Somewhere in the run a thrown body is handed over again. */
  predicate Repeats(maxQueue: int, steps: seq<Step>)
    decreases |steps|
  {
    steps != [] && (LastRepeats(maxQueue, steps) || Repeats(maxQueue, steps[..|steps| - 1]))
  }

  /** Every body is handed over at most once, in order, exactly when no thrown body is resumed at the head of the queue. */
  lemma {:induction false} AscendingIff(maxQueue: int, steps: seq<Step>)
    requires Reachable(maxQueue, steps)
    ensures Ascending(Run(Start(maxQueue), steps).handed) <==> !Repeats(maxQueue, steps)
    decreases |steps|
  {
    hide Run, IsRun, Inv, Start, Next, Enabled, Ascending, LastRepeats;
    if steps == [] {
      RunNothing(Start(maxQueue));
      StartAscending(maxQueue);
    } else {
      var front := steps[..|steps| - 1];
      RunFront(Start(maxQueue), steps);
      AscendingIff(maxQueue, front);
      LastHandover(maxQueue, steps);
    }
  }

  lemma StartAscending(maxQueue: int)
    ensures Ascending(Start(maxQueue).handed)
  {
  }

  lemma LastHandover(maxQueue: int, steps: seq<Step>)
    requires steps != [] && Reachable(maxQueue, steps) && Reachable(maxQueue, steps[..|steps| - 1])
    ensures Ascending(Run(Start(maxQueue), steps).handed)
       <==> Ascending(Run(Start(maxQueue), steps[..|steps| - 1]).handed) && !LastRepeats(maxQueue, steps)
  {
    hide Run, IsRun, Inv, Start, Next, Enabled, Ascending, StaysHead;
    var n := |steps| - 1;
    var front, last := steps[..n], steps[n];
    var s := Run(Start(maxQueue), front);
    RunFront(Start(maxQueue), steps);
    ReachableInv(maxQueue, front);
    if s.closed || s.inFlight.Some? || s.queue == [] || !(last.Send? || last.Flush?) {
      FreshHandover(s, last);
      if LastRepeats(maxQueue, steps) {
        assert front[..n - 1] == steps[..n - 1] && front[n - 1] == steps[n - 1];
        RepeatMeansIdle(maxQueue, front);
      }
    } else {
      IdleIffRejected(maxQueue, front);
      ThrownHandover(maxQueue, steps);
    }
  }

  /** After a throw before close, something is queued and nothing is in flight. */
  lemma RepeatMeansIdle(maxQueue: int, front: seq<Step>)
    requires Reachable(maxQueue, front) && front != [] && front[|front| - 1].Reject?
    requires Reachable(maxQueue, front[..|front| - 1]) && !Run(Start(maxQueue), front[..|front| - 1]).closed
    ensures var s := Run(Start(maxQueue), front); !s.closed && s.inFlight.None? && s.queue != []
  {
    hide Run, IsRun, Inv, Start;
    RunFront(Start(maxQueue), front);
    IdleIffRejected(maxQueue, front);
  }

  lemma ThrownHandover(maxQueue: int, steps: seq<Step>)
    requires |steps| >= 2 && Reachable(maxQueue, steps) && Reachable(maxQueue, steps[..|steps| - 1])
    requires steps[|steps| - 2].Reject? && (steps[|steps| - 1].Send? || steps[|steps| - 1].Flush?)
    requires !Run(Start(maxQueue), steps[..|steps| - 1]).closed
    ensures Ascending(Run(Start(maxQueue), steps).handed)
       <==> Ascending(Run(Start(maxQueue), steps[..|steps| - 1]).handed) && !LastRepeats(maxQueue, steps)
  {
    hide Run, IsRun, Inv, Start, Ascending, StaysHead, NonDescending;
    var n := |steps| - 1;
    var front := steps[..n];
    RunFront(Start(maxQueue), steps);
    RunFront(Start(maxQueue), front);
    assert front[..n - 1] == steps[..n - 1] && front[n - 1] == steps[n - 1];
    var s := Run(Start(maxQueue), steps[..n - 1]);
    ReachableInv(maxQueue, steps[..n - 1]);
    RepeatIff(s, steps[n]);
    OrderAndConservation(maxQueue, steps);
    var thrown := Run(Start(maxQueue), front);
    AscendingMore(thrown.handed, Run(Start(maxQueue), steps).inFlight.value);
  }

  // ---------------------------------------------------------------------
  // Event by event
  // ---------------------------------------------------------------------

  /** A body shifted off in place of the one that was sent. */
  predicate TakenUnsent(s: State, t: nat) {
    exists i :: 0 <= i < |s.completions| && s.completions[i].removed == t
             && s.completions[i].sent != t && s.completions[i].sent in s.overflowed
  }

  /**
   Until close every accepted body is queued, was handed to `transmit`, was
   dropped by overflow, or was taken off unsent because the body in flight had
   itself been dropped by overflow.
   */
  lemma EveryBodyAccounted(maxQueue: int, steps: seq<Step>, t: nat)
    requires Reachable(maxQueue, steps) && !Run(Start(maxQueue), steps).closed
    requires t < Run(Start(maxQueue), steps).accepted
    ensures var s := Run(Start(maxQueue), steps);
            && (t in s.queue || t in s.handed || t in s.overflowed || TakenUnsent(s, t))
            && (TakenUnsent(s, t) ==> t !in s.handed && t !in s.queue)
  {
    hide Start, Run, IsRun, HandedOk, CountOk;
    ReachableInv(maxQueue, steps);
    var s := Run(Start(maxQueue), steps);
    if t >= Head(s) {
      assert s.queue[t - Head(s)] == t;
    } else if Removed(s, t) {
      var i :| 0 <= i < |s.completions| && s.completions[i].removed == t;
      assert PairOk(s, s.completions[i]);
    }
    if TakenUnsent(s, t) {
      var i :| 0 <= i < |s.completions| && s.completions[i].removed == t && s.completions[i].sent != t;
      assert PairOk(s, s.completions[i]);
    }
  }

  /**
   What `flush` returning true means: before close an empty queue leaves
   nothing in flight, and every accepted body was handed to `transmit`, dropped
   by overflow, or taken off unsent in place of an overflowed one.
   */
  lemma EmptyQueueMeansHandled(maxQueue: int, steps: seq<Step>, t: nat)
    requires Reachable(maxQueue, steps) && !Run(Start(maxQueue), steps).closed
    requires Run(Start(maxQueue), steps).queue == []
    ensures var s := Run(Start(maxQueue), steps);
            && s.inFlight.None?
            && (t < s.accepted ==> t in s.handed || t in s.overflowed || TakenUnsent(s, t))
  {
    hide Start, Run, IsRun, HandedOk, CountOk, PairsOk;
    ReachableInv(maxQueue, steps);
    if t < Run(Start(maxQueue), steps).accepted {
      EveryBodyAccounted(maxQueue, steps, t);
    }
  }

  lemma HandedGrowsAbove(s: State, step: Step, t: nat)
    requires Inv(s) && Enabled(s, step) && t < Head(s)
    ensures t < Head(Next(s, step))
    ensures t in Next(s, step).handed <==> t in s.handed
  {
    hide PairsOk, CountOk, HandedOk, Shed, Enqueue;
    if step.Send? && !s.closed {
      EnqueueOnce(s);
    }
  }

  lemma {:induction false} GoneIsGone(s: State, steps: seq<Step>, t: nat)
    requires Inv(s) && IsRun(s, steps) && t < Head(s)
    ensures t in Run(s, steps).handed <==> t in s.handed
    decreases |steps|
  {
    hide Inv, Next, Enabled;
    if steps != [] {
      HandedGrowsAbove(s, steps[0], t);
      StepKeepsInv(s, steps[0]);
      GoneIsGone(Next(s, steps[0]), steps[1..], t);
    }
  }

  /**
   When a transmit returns before close, the body then shifted off has been or
   will ever be sent exactly when the body in flight was not dropped by
   overflow meanwhile, that is when it still is the head of the queue.
   */
  lemma ShiftedBodySentIff(s: State, steps: seq<Step>)
    requires Inv(s) && !s.closed && s.inFlight.Some? && IsRun(Next(s, Resolve), steps)
    ensures s.queue != []
    ensures s.queue[0] in Run(Next(s, Resolve), steps).handed <==> s.inFlight.value !in s.overflowed
    ensures s.inFlight.value !in s.overflowed <==> s.queue[0] == s.inFlight.value
  {
    hide Run, IsRun;
    HeadUnlessOverflowed(s);
    var h, k := s.queue[0], s.inFlight.value;
    ResolveKeeps(s);
    GoneIsGone(Next(s, Resolve), steps, h);
    ShiftedHandover(s);
  }

  lemma ShiftedHandover(s: State)
    requires Inv(s) && !s.closed && s.inFlight.Some?
    ensures s.queue != [] && s.queue[0] < Head(Next(s, Resolve))
    ensures s.queue[0] in Next(s, Resolve).handed <==> s.inFlight.value !in s.overflowed
  {
    hide CountOk, Ascending;
    var h, k := s.queue[0], s.inFlight.value;
    assert k == s.handed[|s.handed| - 1] && k in s.handed;
    assert forall i :: 0 <= i < |s.handed| ==> s.handed[i] <= k;
    assert k in s.overflowed <==> k < h;
  }

  // ---------------------------------------------------------------------
  // Concrete runs
  // ---------------------------------------------------------------------

  lemma {:induction false} RunExtends(s: State, steps: seq<Step>, step: Step)
    requires IsRun(s, steps) && Enabled(Run(s, steps), step)
    ensures IsRun(s, steps + [step]) && Run(s, steps + [step]) == Next(Run(s, steps), step)
    decreases |steps|
  {
    hide Next, Enabled;
    var longer := steps + [step];
    if steps == [] {
      assert longer[0] == step && longer[1..] == [];
    } else {
      assert longer[0] == steps[0] && longer[1..] == steps[1..] + [step];
      RunExtends(Next(s, steps[0]), steps[1..], step);
    }
  }

  lemma RunNothing(s: State)
    ensures IsRun(s, []) && Run(s, []) == s
  {
  }

  predicate Lost(s: State, t: nat) {
    t < s.accepted && t !in s.queue && t !in s.handed && t !in s.overflowed
  }

  /** One slot, a second event while the first is in flight: the second is never sent. */
  lemma OverflowInFlightLosesNext()
    ensures exists steps :: Reachable(1, steps) && Lost(Run(Start(1), steps), 1)
  {
    hide Run, IsRun;
    var start := Start(1);
    RunNothing(start);
    RunExtends(start, [], Send);
    var one := [] + [Send];
    assert Run(start, one) == State(1, [0], Some(0), false, 1, [0], [], [], 0, 0);
    RunExtends(start, one, Send);
    var two := one + [Send];
    EnqueueOnce(Run(start, one));
    assert Run(start, two) == State(1, [1], Some(0), false, 2, [0], [], [0], 0, 0);
    RunExtends(start, two, Resolve);
    assert Run(start, two + [Resolve]).queue == [];
    assert Reachable(1, two + [Resolve]) && Lost(Run(start, two + [Resolve]), 1);
  }

  /** A transmit that throws leaves its body at the head, to be handed over again. */
  lemma RejectionRepeats()
    ensures exists steps :: Reachable(1, steps) && Run(Start(1), steps).handed == [0, 0]
  {
    hide Run, IsRun;
    var start := Start(1);
    RunNothing(start);
    RunExtends(start, [], Send);
    var one := [] + [Send];
    assert Run(start, one) == State(1, [0], Some(0), false, 1, [0], [], [], 0, 0);
    RunExtends(start, one, Reject);
    RunExtends(start, one + [Reject], Flush);
    assert Reachable(1, one + [Reject] + [Flush]) && Run(start, one + [Reject] + [Flush]).handed == [0, 0];
  }

  // ---------------------------------------------------------------------
  // What one step does
  // ---------------------------------------------------------------------

  /** The bound of a run is the one asked for, or one when that is less. */
  lemma {:induction false} BoundOfRun(maxQueue: int, steps: seq<Step>)
    requires Reachable(maxQueue, steps)
    ensures Run(Start(maxQueue), steps).maxQueue == if maxQueue > 1 then maxQueue else 1
  {
    hide Run, IsRun, Enqueue, Drain;
    BoundKept(Start(maxQueue), steps);
  }

  lemma {:induction false} ShedKeepsBound(s: State)
    ensures Shed(s).maxQueue == s.maxQueue
    decreases |s.queue|
  {
    if |s.queue| > s.maxQueue {
      ShedKeepsBound(s.(queue := s.queue[1..], overflowed := s.overflowed + [s.queue[0]]));
    }
  }

  lemma {:induction false} BoundKept(s: State, steps: seq<Step>)
    requires IsRun(s, steps)
    ensures Run(s, steps).maxQueue == s.maxQueue
    decreases |steps|
  {
    hide Shed;
    if steps != [] {
      ShedKeepsBound(s.(queue := s.queue + [s.accepted], accepted := s.accepted + 1));
      BoundKept(Next(s, steps[0]), steps[1..]);
    }
  }

  /** A sent body becomes the newest of the queue; the oldest goes exactly when the queue was full; after close nothing happens. */
  lemma SendEnqueues(s: State)
    requires Inv(s)
    ensures var next := Next(s, Send);
            if s.closed then next == s
            else
              && next.accepted == s.accepted + 1
              && (if |s.queue| == s.maxQueue then
                    && next.overflowed == s.overflowed + [s.queue[0]]
                    && next.queue == s.queue[1..] + [s.accepted]
                  else next.overflowed == s.overflowed && next.queue == s.queue + [s.accepted])
              && next.inFlight == (if s.inFlight.Some? then s.inFlight else Some(next.queue[0]))
              && next.handed == (if s.inFlight.Some? then s.handed else s.handed + [next.queue[0]])
  {
    hide CountOk, HandedOk, PairsOk, Enqueue, Shed;
    EnqueueOnce(s);
    if |s.queue| == s.maxQueue {
      assert (s.queue + [s.accepted])[1..] == s.queue[1..] + [s.accepted];
    }
  }

  /** Closing forgets the queue, and nothing is handed over again. */
  lemma {:induction false} NothingAfterClose(s: State, steps: seq<Step>)
    requires Inv(s) && IsRun(Next(s, Close), steps)
    ensures var end := Run(Next(s, Close), steps);
            end.closed && end.queue == [] && end.handed == s.handed && end.accepted == s.accepted
  {
    hide Run, IsRun;
    ClosedStays(Next(s, Close), steps);
  }

  lemma {:induction false} ClosedStays(s: State, steps: seq<Step>)
    requires s.closed && s.queue == [] && IsRun(s, steps)
    ensures var end := Run(s, steps); end.closed && end.queue == [] && end.handed == s.handed && end.accepted == s.accepted
    decreases |steps|
  {
    if steps != [] {
      ClosedStays(Next(s, steps[0]), steps[1..]);
    }
  }
}
