/**
 The Python SDK's background transport as interleaved steps: producers calling
 `submit`, one worker thread, any number of threads in `flush`, and one
 `close`. A step is what happens between two points where another thread can
 run: the queue is used without the condition lock by the worker and by
 `close`, the counter only under it.
 */
module PythonTransport {
  import opened Sequences

  /** Accepted events are numbered in the order they enter the queue. */
  datatype Item = Event(ticket: nat) | Shutdown

  datatype Worker =
    | Idle
    | Sending(ticket: nat)
    | Sent(ticket: nat)
    | Notifying
    | Stopped

  /** A producer holds the lock between putting an event and counting it. */
  datatype Lock = Free | ByProducer | ByWorker

  datatype Flusher = Entering | Waiting | Woken | Returned(drained: bool)

  /** While closing, `flush` is the flusher that `close` itself is. */
  datatype Closer = Open | Flushing(flush: nat) | Draining | Resignalling | Closed

  datatype State = State(
    maxQueue: int,
    queue: seq<Item>,
    pending: int,
    warnedFull: bool,
    lock: Lock,
    submitting: nat,
    worker: Worker,
    flushers: map<nat, Flusher>,
    closer: Closer,
    accepted: nat,
    done: seq<nat>,
    discarded: seq<nat>)

  function Start(maxQueue: int): State {
    State(maxQueue, [], 0, false, Free, 0, Idle, map[], Open, 0, [], [])
  }

  /** A maximum of zero or less means an unbounded queue. */
  predicate HasRoom(s: State) {
    s.maxQueue <= 0 || |s.queue| < s.maxQueue
  }

  // ---------------------------------------------------------------------
  // Steps
  // ---------------------------------------------------------------------

  datatype Step =
    | CheckOpen              // submit: `if self._closed`
    | Put                    // submit: put_nowait under the lock
    | Count                  // submit: `_pending += 1`, lock released
    | Take                   // worker: blocking get
    | FinishSend             // worker: `_send` returns or raises
    | Uncount                // worker: `_pending -= 1` under the lock
    | Notify                 // worker: notify_all at zero, lock released
    | Enter(id: nat)         // flush: called
    | Check(id: nat, expired: bool)  // flush: loop test under the lock
    | Wake(id: nat)          // flush: wait returns without a notification
    | BeginClose(id: nat)    // close: `_closed = True`, then flush
    | Signal                 // close: put_nowait of the shutdown marker, once its flush has returned
    | Drain                  // close: get_nowait to make room
    | Resignal               // close: second put_nowait

  predicate Enabled(s: State, step: Step) {
    match step
    case CheckOpen => true
    case Put => s.submitting > 0 && s.lock.Free?
    case Count => s.lock.ByProducer?
    case Take => s.worker.Idle? && s.queue != []
    case FinishSend => s.worker.Sending?
    case Uncount => s.worker.Sent? && s.lock.Free?
    case Notify => s.worker.Notifying?
    case Enter(id) => id !in s.flushers
    case Check(id, _) => s.lock.Free? && id in s.flushers && (s.flushers[id].Entering? || s.flushers[id].Woken?)
    case Wake(id) => id in s.flushers && s.flushers[id].Waiting?
    case BeginClose(id) => s.closer.Open? && id !in s.flushers
    case Signal => s.closer.Flushing? && s.closer.flush in s.flushers && s.flushers[s.closer.flush].Returned?
    case Drain => s.closer.Draining?
    case Resignal => s.closer.Resignalling?
  }

  /** `notify_all` moves every waiter on. */
  function WakeAll(flushers: map<nat, Flusher>): map<nat, Flusher> {
    map f | f in flushers :: if flushers[f].Waiting? then Woken else flushers[f]
  }

  function Next(s: State, step: Step): State
    requires Enabled(s, step)
  {
    match step
    case CheckOpen => if s.closer.Open? then s.(submitting := s.submitting + 1) else s
    case Put =>
      if HasRoom(s) then
        s.(submitting := s.submitting - 1, queue := s.queue + [Event(s.accepted)],
           accepted := s.accepted + 1, lock := ByProducer)
      else s.(submitting := s.submitting - 1, warnedFull := true)
    case Count => s.(pending := s.pending + 1, lock := Free)
    case Take =>
      s.(queue := s.queue[1..], worker := match s.queue[0] case Shutdown => Stopped case Event(t) => Sending(t))
    case FinishSend => s.(worker := Sent(s.worker.ticket), done := s.done + [s.worker.ticket])
    case Uncount => s.(pending := s.pending - 1, worker := Notifying, lock := ByWorker)
    case Notify =>
      s.(flushers := if s.pending <= 0 then WakeAll(s.flushers) else s.flushers, worker := Idle, lock := Free)
    case Enter(id) => s.(flushers := s.flushers[id := Entering])
    case Check(id, expired) =>
      s.(flushers := s.flushers[id :=
        if s.pending <= 0 then Returned(true) else if expired then Returned(false) else Waiting])
    case Wake(id) => s.(flushers := s.flushers[id := Woken])
    case BeginClose(id) => s.(closer := Flushing(id), flushers := s.flushers[id := Entering])
    case Signal =>
      if HasRoom(s) then s.(queue := s.queue + [Shutdown], closer := Closed) else s.(closer := Draining)
    case Drain =>
      if s.queue == [] then s.(closer := Resignalling)
      else s.(queue := s.queue[1..], closer := Resignalling,
              discarded := match s.queue[0] case Shutdown => s.discarded case Event(t) => s.discarded + [t])
    case Resignal => s.(queue := if HasRoom(s) then s.queue + [Shutdown] else s.queue, closer := Closed)
  }

  /** Steps taken in order, each when it is enabled. */
  predicate IsRun(s: State, steps: seq<Step>)
    decreases |steps|
  {
    steps == [] || (Enabled(s, steps[0]) && IsRun(Next(s, steps[0]), steps[1..]))
  }

  function Run(s: State, steps: seq<Step>): State
    requires IsRun(s, steps)
    decreases |steps|
  {
    if steps == [] then s else Run(Next(s, steps[0]), steps[1..])
  }

  // ---------------------------------------------------------------------
  // The object the threads share
  // ---------------------------------------------------------------------

  /** The shared fields; where each thread is in its code is ghost. */
  class Transport {
    const maxQueue: int
    var queue: seq<Item>
    var pending: int
    var closed: bool
    var warnedFull: bool
    /** The number the next event gets. */
    var accepted: nat

    ghost var lock: Lock
    ghost var submitting: nat
    ghost var worker: Worker
    ghost var flushers: map<nat, Flusher>
    ghost var closer: Closer
    ghost var done: seq<nat>
    ghost var discarded: seq<nat>

    ghost predicate Valid()
      reads this
    {
      closed <==> !closer.Open?
    }

    ghost function View(): State
      reads this
    {
      State(maxQueue, queue, pending, warnedFull, lock, submitting, worker, flushers, closer, accepted, done, discarded)
    }

    constructor (maxQueue: int)
      ensures Valid() && View() == Start(maxQueue)
    {
      this.maxQueue := maxQueue;
      queue, pending, closed, warnedFull, accepted := [], 0, false, false, 0;
      lock, submitting, worker, flushers, closer, done, discarded := Free, 0, Idle, map[], Open, [], [];
    }

    predicate Full()
      reads this
    {
      maxQueue > 0 && |queue| >= maxQueue
    }

    method SubmitCheckOpen() returns (proceed: bool)
      requires Valid()
      modifies this`submitting
      ensures Valid() && View() == Next(old(View()), CheckOpen)
      ensures proceed <==> closer.Open?
    {
      proceed := !closed;
      if proceed {
        submitting := submitting + 1;
      }
    }

    method SubmitPut() returns (queued: bool)
      requires Valid() && Enabled(View(), Put)
      modifies this
      ensures Valid() && View() == Next(old(View()), Put)
      ensures queued <==> HasRoom(old(View()))
    {
      submitting := submitting - 1;
      queued := !Full();
      if !queued {
        warnedFull := true;
        return;
      }
      queue := queue + [Event(accepted)];
      accepted := accepted + 1;
      lock := ByProducer;
    }

    method SubmitCount()
      requires Valid() && Enabled(View(), Count)
      modifies this`pending, this`lock
      ensures Valid() && View() == Next(old(View()), Count)
    {
      pending := pending + 1;
      lock := Free;
    }

    method WorkerTake() returns (item: Item)
      requires Valid() && Enabled(View(), Take)
      modifies this`queue, this`worker
      ensures Valid() && View() == Next(old(View()), Take)
      ensures item == old(queue)[0]
    {
      item := queue[0];
      queue := queue[1..];
      worker := match item case Shutdown => Stopped case Event(t) => Sending(t);
    }

    method WorkerFinishSend()
      requires Valid() && Enabled(View(), FinishSend)
      modifies this`worker, this`done
      ensures Valid() && View() == Next(old(View()), FinishSend)
    {
      done := done + [worker.ticket];
      worker := Sent(worker.ticket);
    }

    method WorkerUncount()
      requires Valid() && Enabled(View(), Uncount)
      modifies this`pending, this`worker, this`lock
      ensures Valid() && View() == Next(old(View()), Uncount)
    {
      pending := pending - 1;
      worker, lock := Notifying, ByWorker;
    }

    method WorkerNotify()
      requires Valid() && Enabled(View(), Notify)
      modifies this`flushers, this`worker, this`lock
      ensures Valid() && View() == Next(old(View()), Notify)
    {
      if pending <= 0 {
        flushers := WakeAll(flushers);
      }
      worker, lock := Idle, Free;
    }

    method FlushCheck(ghost id: nat, expired: bool) returns (drained: bool, waits: bool)
      requires Valid() && Enabled(View(), Check(id, expired))
      modifies this`flushers
      ensures Valid() && View() == Next(old(View()), Check(id, expired))
      ensures drained <==> pending <= 0
      ensures waits <==> pending > 0 && !expired
    {
      drained := !(pending > 0);
      waits := pending > 0 && !expired;
      flushers := flushers[id := if drained then Returned(true) else if expired then Returned(false) else Waiting];
    }

    method CloseBegin(ghost id: nat)
      requires Valid() && Enabled(View(), BeginClose(id))
      modifies this`closed, this`closer, this`flushers
      ensures Valid() && View() == Next(old(View()), BeginClose(id))
    {
      closed := true;
      closer, flushers := Flushing(id), flushers[id := Entering];
    }

    method CloseSignal() returns (signalled: bool)
      requires Valid() && Enabled(View(), Signal)
      modifies this`queue, this`closer
      ensures Valid() && View() == Next(old(View()), Signal)
      ensures signalled <==> HasRoom(old(View()))
    {
      signalled := !Full();
      if signalled {
        queue := queue + [Shutdown];
        closer := Closed;
      } else {
        closer := Draining;
      }
    }

    method CloseDrain()
      requires Valid() && Enabled(View(), Drain)
      modifies this`queue, this`closer, this`discarded
      ensures Valid() && View() == Next(old(View()), Drain)
    {
      if queue != [] {
        discarded := match queue[0] case Shutdown => discarded case Event(t) => discarded + [t];
        queue := queue[1..];
      }
      closer := Resignalling;
    }

    method CloseResignal()
      requires Valid() && Enabled(View(), Resignal)
      modifies this`queue, this`closer
      ensures Valid() && View() == Next(old(View()), Resignal)
    {
      if !Full() {
        queue := queue + [Shutdown];
      }
      closer := Closed;
    }
  }

  // ---------------------------------------------------------------------
  // The invariant
  // ---------------------------------------------------------------------

  function TicketOf(item: Item): seq<nat> {
    match item
    case Shutdown => []
    case Event(t) => [t]
  }

  /** The events of a queue, in order. */
  function Queued(queue: seq<Item>): seq<nat> {
    if queue == [] then [] else TicketOf(queue[0]) + Queued(queue[1..])
  }

  /** The event the worker has taken and not yet counted off. */
  function InFlight(w: Worker): seq<nat> {
    match w
    case Sending(t) => [t]
    case Sent(t) => [t]
    case _ => []
  }

  /** The event the worker is sending. */
  function BeingSent(w: Worker): seq<nat> {
    match w
    case Sending(t) => [t]
    case _ => []
  }

  /** Every accepted event that was not discarded: sent, then being sent, then queued. */
  function Ledger(s: State): seq<nat> {
    s.done + BeingSent(s.worker) + Queued(s.queue)
  }

  /** Events accepted and neither counted off nor discarded. */
  function Outstanding(s: State): nat {
    |Queued(s.queue)| + |InFlight(s.worker)|
  }

  predicate LedgerOk(s: State) {
    && Ascending(Ledger(s))
    && (forall t :: t in Ledger(s) ==> t < s.accepted)
    && |Ledger(s)| + |s.discarded| == s.accepted
  }

  predicate CountOk(s: State) {
    && s.pending + (if s.lock.ByProducer? then 1 else 0) == Outstanding(s) + |s.discarded|
    && s.pending >= 0
    && (s.lock.ByWorker? <==> s.worker.Notifying?)
  }

  /** No waiter is forgotten. */
  predicate WaitersOk(s: State) {
    forall f :: f in s.flushers && s.flushers[f].Waiting? ==> s.pending > 0 || s.worker.Notifying?
  }

  predicate BoundOk(s: State) {
    && (s.maxQueue > 0 ==> |s.queue| <= s.maxQueue)
    && (!s.closer.Closed? ==> Shutdown !in s.queue && !s.worker.Stopped?)
    && (!s.closer.Closed? && !s.closer.Resignalling? ==> s.discarded == [])
  }

  predicate Inv(s: State) {
    LedgerOk(s) && CountOk(s) && WaitersOk(s) && BoundOk(s)
  }

  // ---------------------------------------------------------------------
  // Every step keeps it
  // ---------------------------------------------------------------------

  lemma {:induction false} QueuedAppend(queue: seq<Item>, item: Item)
    ensures Queued(queue + [item]) == Queued(queue) + TicketOf(item)
  {
    hide TicketOf;
    if queue == [] {
      assert (queue + [item])[1..] == [];
      assert TicketOf(item) + [] == TicketOf(item) == [] + TicketOf(item);
    } else {
      assert (queue + [item])[1..] == queue[1..] + [item];
      QueuedAppend(queue[1..], item);
      assert TicketOf(queue[0]) + (Queued(queue[1..]) + TicketOf(item))
          == TicketOf(queue[0]) + Queued(queue[1..]) + TicketOf(item);
    }
  }

  lemma LedgerStep(s: State, step: Step)
    requires LedgerOk(s) && Enabled(s, step)
    ensures LedgerOk(Next(s, step))
  {
    hide WakeAll, LedgerOk;
    var s' := Next(s, step);
    match step
    case Put =>
      if HasRoom(s) {
        QueuedAppend(s.queue, Event(s.accepted));
        assert Ledger(s') == Ledger(s) + [s.accepted];
        LedgerGrows(s, s');
      } else {
        LedgerSame(s, s');
      }
    case Take =>
      assert TicketOf(s.queue[0]) == BeingSent(s'.worker);
      assert Ledger(s') == Ledger(s);
      LedgerSame(s, s');
    case FinishSend => assert Ledger(s') == Ledger(s); LedgerSame(s, s');
    case Signal => QueuedAppend(s.queue, Shutdown); assert Ledger(s') == Ledger(s); LedgerSame(s, s');
    case Resignal => QueuedAppend(s.queue, Shutdown); assert Ledger(s') == Ledger(s); LedgerSame(s, s');
    case Drain =>
      if s.queue != [] && s.queue[0].Event? {
        LedgerDrops(s, s');
      } else {
        LedgerSame(s, s');
      }
    case _ => LedgerSame(s, s');
  }

  lemma LedgerSame(s: State, s': State)
    requires LedgerOk(s) && Ledger(s') == Ledger(s) && s'.accepted == s.accepted && s'.discarded == s.discarded
    ensures LedgerOk(s')
  {
  }

  lemma LedgerGrows(s: State, s': State)
    requires LedgerOk(s) && Ledger(s') == Ledger(s) + [s.accepted]
    requires s'.accepted == s.accepted + 1 && s'.discarded == s.discarded
    ensures LedgerOk(s')
  {
    hide Ledger;
    var before := Ledger(s);
    assert forall i :: 0 <= i < |before| ==> before[i] in before;
  }

  lemma LedgerDrops(s: State, s': State)
    requires LedgerOk(s) && s.queue != [] && s.queue[0].Event?
    requires s'.queue == s.queue[1..] && s'.done == s.done && s'.worker == s.worker && s'.accepted == s.accepted
    requires |s'.discarded| == |s.discarded| + 1
    ensures LedgerOk(s')
  {
    var t := s.queue[0].ticket;
    assert Ledger(s) == s.done + BeingSent(s.worker) + ([t] + Queued(s.queue[1..]));
    DropFirst(s.done + BeingSent(s.worker), t, Queued(s.queue[1..]));
  }

  /** Leaving out one ticket keeps the rest ascending. */
  lemma DropFirst(before: seq<nat>, t: nat, after: seq<nat>)
    requires Ascending(before + ([t] + after))
    ensures Ascending(before + after)
    ensures forall x :: x in before + after ==> x in before + ([t] + after)
  {
    var whole, rest := before + ([t] + after), before + after;
    var n := |before|;
    forall i, j | 0 <= i < j < |rest| ensures rest[i] < rest[j] {
      assert rest[i] == whole[if i < n then i else i + 1];
      assert rest[j] == whole[if j < n then j else j + 1];
    }
  }

  lemma QueuedFirst(queue: seq<Item>)
    requires queue != []
    ensures |Queued(queue)| == |TicketOf(queue[0])| + |Queued(queue[1..])|
  {
  }

  lemma CountStep(s: State, step: Step)
    requires CountOk(s) && Enabled(s, step)
    ensures CountOk(Next(s, step))
  {
    hide WakeAll, Queued, HasRoom;
    match step
    case Put => QueuedAppend(s.queue, Event(s.accepted));
    case Signal => QueuedAppend(s.queue, Shutdown);
    case Resignal => QueuedAppend(s.queue, Shutdown);
    case Take => QueuedFirst(s.queue);
    case Drain => if s.queue != [] { QueuedFirst(s.queue); }
    case _ =>
  }

  lemma WaitersStep(s: State, step: Step)
    requires WaitersOk(s) && CountOk(s) && Enabled(s, step)
    ensures WaitersOk(Next(s, step))
  {
    hide Queued;
  }

  lemma BoundStep(s: State, step: Step)
    requires BoundOk(s) && Enabled(s, step)
    ensures BoundOk(Next(s, step))
  {
    hide WakeAll;
  }

  lemma StepKeepsInv(s: State, step: Step)
    requires Inv(s) && Enabled(s, step)
    ensures Inv(Next(s, step))
  {
    hide LedgerOk, CountOk, WaitersOk, BoundOk, Next, Enabled;
    LedgerStep(s, step);
    CountStep(s, step);
    WaitersStep(s, step);
    BoundStep(s, step);
  }

  /** Every interleaving from the start satisfies the invariant. */
  lemma {:induction false} RunKeepsInv(s: State, steps: seq<Step>)
    requires Inv(s) && IsRun(s, steps)
    ensures Inv(Run(s, steps))
    decreases |steps|
  {
    hide Inv, Next, Enabled;
    if steps != [] {
      StepKeepsInv(s, steps[0]);
      RunKeepsInv(Next(s, steps[0]), steps[1..]);
    }
  }

  lemma StartInv(maxQueue: int)
    ensures Inv(Start(maxQueue))
  {
  }

  predicate Reachable(maxQueue: int, steps: seq<Step>) {
    IsRun(Start(maxQueue), steps)
  }

  lemma ReachableInv(maxQueue: int, steps: seq<Step>)
    requires Reachable(maxQueue, steps)
    ensures Inv(Run(Start(maxQueue), steps))
  {
    hide Inv, Start, Next, Enabled;
    StartInv(maxQueue);
    RunKeepsInv(Start(maxQueue), steps);
  }

  // ---------------------------------------------------------------------
  // Accounting
  // ---------------------------------------------------------------------

  /** Somewhere in the run `close` drains a queue that is not empty. */
  predicate DrainsEvent(s: State, steps: seq<Step>)
    requires IsRun(s, steps)
    decreases |steps|
  {
    steps != [] && ((steps[0].Drain? && s.queue != []) || DrainsEvent(Next(s, steps[0]), steps[1..]))
  }

  lemma DrainTakesEvent(s: State, step: Step)
    requires Inv(s) && Enabled(s, step)
    ensures Next(s, step).discarded != [] <==> s.discarded != [] || (step.Drain? && s.queue != [])
  {
    hide LedgerOk, CountOk, WaitersOk, WakeAll, Queued;
    if step.Drain? && s.queue != [] {
      assert s.queue[0] in s.queue;
    }
  }

  lemma {:induction false} DiscardedIff(s: State, steps: seq<Step>)
    requires Inv(s) && IsRun(s, steps)
    ensures Run(s, steps).discarded != [] <==> s.discarded != [] || DrainsEvent(s, steps)
    decreases |steps|
  {
    hide Inv, Next, Enabled;
    if steps != [] {
      StepKeepsInv(s, steps[0]);
      DrainTakesEvent(s, steps[0]);
      DiscardedIff(Next(s, steps[0]), steps[1..]);
    }
  }

  lemma ReachableDiscarded(maxQueue: int, steps: seq<Step>)
    requires Reachable(maxQueue, steps)
    ensures Inv(Run(Start(maxQueue), steps))
    ensures Run(Start(maxQueue), steps).discarded == [] <==> !DrainsEvent(Start(maxQueue), steps)
  {
    hide Inv, Next, Enabled, Run, IsRun, DrainsEvent;
    StartInv(maxQueue);
    ReachableInv(maxQueue, steps);
    DiscardedIff(Start(maxQueue), steps);
  }

  /**
   In every reachable state with the lock free, the counter is the number of
   queued and in-flight events, never negative, exactly when `close` has not
   drained a queue that still held one; until close reaches that point it
   always is.
   */
  lemma PendingIsOutstanding(maxQueue: int, steps: seq<Step>)
    requires Reachable(maxQueue, steps) && Run(Start(maxQueue), steps).lock.Free?
    ensures var s := Run(Start(maxQueue), steps);
            && s.pending >= 0
            && (s.pending == Outstanding(s) <==> !DrainsEvent(Start(maxQueue), steps))
            && (!s.closer.Closed? && !s.closer.Resignalling? ==> !DrainsEvent(Start(maxQueue), steps))
  {
    hide Start, Next, Enabled, Run, IsRun, DrainsEvent;
    ReachableDiscarded(maxQueue, steps);
  }

  function UpTo(n: nat): (tickets: seq<nat>)
    ensures |tickets| == n && forall i :: 0 <= i < n ==> tickets[i] == i
  {
    seq(n, i requires 0 <= i < n => i)
  }

  /** An ascending list of n numbers below n is 0, 1, ..., n - 1. */
  lemma {:induction false} AscendingBelow(tickets: seq<nat>, i: nat)
    requires Ascending(tickets) && (forall t :: t in tickets ==> t < |tickets|) && i < |tickets|
    ensures tickets[i] == i
  {
    AtLeastIndex(tickets, i);
    AtMostIndex(tickets, i);
  }

  lemma {:induction false} AtLeastIndex(tickets: seq<nat>, i: nat)
    requires Ascending(tickets) && i < |tickets|
    ensures tickets[i] >= i
  {
    if i > 0 {
      AtLeastIndex(tickets, i - 1);
    }
  }

  lemma {:induction false} AtMostIndex(tickets: seq<nat>, i: nat)
    requires Ascending(tickets) && (forall t :: t in tickets ==> t < |tickets|) && i < |tickets|
    ensures tickets[i] <= i
    decreases |tickets| - i
  {
    if i + 1 < |tickets| {
      AtMostIndex(tickets, i + 1);
    } else {
      assert tickets[i] in tickets;
    }
  }

  /** Events leave `_send` in the order they were accepted; without a forced drain they are the first ones accepted. */
  lemma SentInOrder(maxQueue: int, steps: seq<Step>)
    requires Reachable(maxQueue, steps)
    ensures var s := Run(Start(maxQueue), steps);
            && Ascending(s.done) && |s.done| <= s.accepted
            && (!DrainsEvent(Start(maxQueue), steps) ==> s.done == UpTo(|s.done|))
  {
    hide Start, Next, Enabled, Run, IsRun, DrainsEvent, CountOk, WaitersOk, BoundOk;
    ReachableDiscarded(maxQueue, steps);
    var s := Run(Start(maxQueue), steps);
    var ledger := Ledger(s);
    assert forall i :: 0 <= i < |s.done| ==> s.done[i] == ledger[i];
    if s.discarded == [] {
      forall i | 0 <= i < |s.done| ensures s.done[i] == i {
        AscendingBelow(ledger, i);
      }
    }
  }

  /**
   A flush returns success exactly when nothing is outstanding and `close` has
   drained no event, and then every event accepted by then has left `_send`, in
   order.
   */
  lemma FlushMeansSent(maxQueue: int, steps: seq<Step>, id: nat, expired: bool)
    requires Reachable(maxQueue, steps) && Enabled(Run(Start(maxQueue), steps), Check(id, expired))
    ensures var s := Run(Start(maxQueue), steps);
            && ((Next(s, Check(id, expired)).flushers[id] == Returned(true))
                == (Outstanding(s) == 0 && !DrainsEvent(Start(maxQueue), steps)))
            && (Next(s, Check(id, expired)).flushers[id] == Returned(true) ==> s.done == UpTo(s.accepted))
  {
    hide Start, Run, IsRun, DrainsEvent, WaitersOk, BoundOk, Queued, Ascending;
    ReachableDiscarded(maxQueue, steps);
    SentInOrder(maxQueue, steps);
    var s := Run(Start(maxQueue), steps);
    if s.pending == 0 {
      assert Ledger(s) == s.done;
    }
  }

  // ---------------------------------------------------------------------
  // No lost wake-up
  // ---------------------------------------------------------------------

  /** While the worker is about to notify, nothing else can change the counter. */
  lemma CountHeldUntilNotified(s: State, step: Step)
    requires Inv(s) && s.worker.Notifying? && Enabled(s, step) && step != Notify
    ensures Next(s, step).worker.Notifying? && Next(s, step).pending == s.pending
  {
    hide LedgerOk, WaitersOk, BoundOk;
  }

  lemma {:induction false} HeldUntilNotify(s: State, steps: seq<Step>)
    requires Inv(s) && s.worker.Notifying? && IsRun(s, steps) && Notify !in steps
    ensures Inv(Run(s, steps)) && Run(s, steps).worker.Notifying? && Run(s, steps).pending == s.pending
    decreases |steps|
  {
    hide Inv, Next, Enabled;
    if steps != [] {
      assert steps[0] in steps;
      CountHeldUntilNotified(s, steps[0]);
      StepKeepsInv(s, steps[0]);
      HeldUntilNotify(Next(s, steps[0]), steps[1..]);
    }
  }

  /**
   Once the worker has brought the count to zero, no interleaving can raise it
   before the notification, and the notification leaves no one waiting: neither
   those who waited then nor those who came since.
   */
  lemma ZeroWakesEveryone(s: State, steps: seq<Step>)
    requires Inv(s) && s.worker.Notifying? && s.pending <= 0 && IsRun(s, steps) && Notify !in steps
    ensures Enabled(Run(s, steps), Notify) && NoWaiter(Next(Run(s, steps), Notify))
  {
    hide Inv, Run, IsRun;
    HeldUntilNotify(s, steps);
  }

  /**
   A waiting flusher is never forgotten: in every reachable state the count is
   still positive or the worker is about to notify, and the notification at
   zero wakes every waiter.
   */
  lemma WaiterIsNotified(maxQueue: int, steps: seq<Step>, f: nat)
    requires Reachable(maxQueue, steps)
    requires var s := Run(Start(maxQueue), steps); f in s.flushers && s.flushers[f].Waiting?
    ensures var s := Run(Start(maxQueue), steps);
            && (s.pending > 0 || s.worker.Notifying?)
            && (s.worker.Notifying? && s.pending <= 0 ==> Next(s, Notify).flushers[f] == Woken)
  {
    hide Start, Run, IsRun, LedgerOk, CountOk, BoundOk;
    ReachableInv(maxQueue, steps);
  }

  predicate WorkerOnly(steps: seq<Step>) {
    forall i :: 0 <= i < |steps| ==> steps[i].Take? || steps[i].FinishSend? || steps[i].Uncount? || steps[i].Notify?
  }

  /** What the worker still has to do, in its own steps. */
  function WorkLeft(s: State): nat {
    4 * |s.queue| + match s.worker
      case Sending(_) => 3
      case Sent(_) => 2
      case Notifying => 1
      case _ => 0
  }

  /** The worker's next step, if the lock is free or its own. */
  function WorkerStep(s: State): Step
    requires WorkLeft(s) > 0 && !s.worker.Stopped?
  {
    match s.worker
    case Sending(_) => FinishSend
    case Sent(_) => Uncount
    case Notifying => Notify
    case _ => Take
  }

  predicate NoWaiter(s: State) {
    forall f :: f in s.flushers ==> !s.flushers[f].Waiting?
  }

  /**
   Before close, the worker alone always gets every flusher out: from any
   state of the invariant in which no producer holds the lock, its steps
   empty the queue, bring the count to zero and leave no one waiting.
   */
  lemma {:induction false} WorkerReleasesFlushers(s: State) returns (steps: seq<Step>)
    requires Inv(s) && s.closer.Open? && !s.lock.ByProducer?
    ensures WorkerOnly(steps) && IsRun(s, steps)
    ensures var end := Run(s, steps); end.pending == 0 && end.queue == [] && NoWaiter(end) && end.done == UpTo(end.accepted)
    decreases WorkLeft(s)
  {
    hide LedgerOk, WaitersOk, Ascending;
    if WorkLeft(s) == 0 {
      steps := [];
      IdleMeansDone(s);
    } else {
      var step := WorkerStep(s);
      assert s.worker.Idle? ==> s.queue[0] in s.queue;
      StepKeepsInv(s, step);
      var rest := WorkerReleasesFlushers(Next(s, step));
      steps := [step] + rest;
      assert steps[1..] == rest;
    }
  }

  lemma IdleMeansDone(s: State)
    requires Inv(s) && s.closer.Open? && !s.lock.ByProducer? && WorkLeft(s) == 0
    ensures s.pending == 0 && s.queue == [] && NoWaiter(s) && s.done == UpTo(s.accepted)
  {
    assert Ledger(s) == s.done;
    forall i | 0 <= i < |s.done| ensures s.done[i] == i {
      AscendingBelow(s.done, i);
    }
  }

  // ---------------------------------------------------------------------
  // The forced drain
  // ---------------------------------------------------------------------

  lemma {:induction false} ClosedDrainsNothing(s: State, steps: seq<Step>)
    requires (s.closer.Closed? || s.closer.Resignalling?) && IsRun(s, steps)
    ensures !DrainsEvent(s, steps)
    decreases |steps|
  {
    hide WakeAll, HasRoom;
    if steps != [] {
      ClosedDrainsNothing(Next(s, steps[0]), steps[1..]);
    }
  }

  /** When the queue has room for the shutdown marker once the flush of `close` has returned, no event is ever discarded. */
  lemma SignalWithRoom(s: State, steps: seq<Step>)
    requires Inv(s) && Enabled(s, Signal) && HasRoom(s) && IsRun(Next(s, Signal), steps)
    ensures Run(Next(s, Signal), steps).discarded == []
    ensures var end := Run(Next(s, Signal), steps); end.lock.Free? ==> end.pending == Outstanding(end)
  {
    hide Run, IsRun, DrainsEvent, LedgerOk, WaitersOk, Queued;
    var next := Next(s, Signal);
    StepKeepsInv(s, Signal);
    ClosedDrainsNothing(next, steps);
    DiscardedIff(next, steps);
    RunKeepsInv(next, steps);
  }

  /**
   When it has none, `close` goes on to drain; from there on the count is right
   exactly when the worker had emptied the queue in between.
   */
  lemma DrainLosesCountIff(s: State, steps: seq<Step>)
    requires Inv(s) && Enabled(s, Drain) && IsRun(Next(s, Drain), steps)
    ensures var end := Run(Next(s, Drain), steps);
            && (end.discarded == [] <==> s.queue == [])
            && (end.lock.Free? ==> (end.pending == Outstanding(end) <==> s.queue == []))
  {
    hide Run, IsRun, DrainsEvent, LedgerOk, WaitersOk, Queued;
    var next := Next(s, Drain);
    StepKeepsInv(s, Drain);
    DrainTakesEvent(s, Drain);
    ClosedDrainsNothing(next, steps);
    DiscardedIff(next, steps);
    RunKeepsInv(next, steps);
  }

  /** Once `close` has discarded an event, the count never reaches zero again and no flush succeeds. */
  lemma NoFlushAfterDiscard(s: State, steps: seq<Step>, id: nat, expired: bool)
    requires Inv(s) && s.discarded != [] && IsRun(s, steps) && Enabled(Run(s, steps), Check(id, expired))
    ensures Next(Run(s, steps), Check(id, expired)).flushers[id] != Returned(true)
  {
    hide Run, IsRun, DrainsEvent, LedgerOk, WaitersOk, BoundOk;
    RunKeepsInv(s, steps);
    DiscardedIff(s, steps);
  }

  // ---------------------------------------------------------------------
  // Whether close stops the worker
  // ---------------------------------------------------------------------

  /** The shutdown marker is on its way to the worker or has reached it. */
  predicate Marked(s: State) {
    Shutdown in s.queue || s.worker.Stopped?
  }

  lemma MarkedStep(s: State, step: Step)
    requires s.closer.Closed? && Enabled(s, step)
    ensures Next(s, step).closer.Closed? && (Marked(Next(s, step)) <==> Marked(s))
  {
    hide WakeAll, HasRoom;
    if step.Take? { assert s.queue == [s.queue[0]] + s.queue[1..]; }
  }

  lemma {:induction false} MarkedStays(s: State, steps: seq<Step>)
    requires s.closer.Closed? && IsRun(s, steps)
    ensures Run(s, steps).closer.Closed? && (Marked(Run(s, steps)) <==> Marked(s))
    decreases |steps|
  {
    hide Next, Enabled, Marked;
    if steps != [] {
      MarkedStep(s, steps[0]);
      MarkedStays(Next(s, steps[0]), steps[1..]);
    }
  }

  /** With room at the first attempt the marker is always on its way. */
  lemma SignalReachesWorker(s: State, steps: seq<Step>)
    requires Inv(s) && Enabled(s, Signal) && HasRoom(s) && IsRun(Next(s, Signal), steps)
    ensures Marked(Run(Next(s, Signal), steps))
  {
    hide Run, IsRun, Inv;
    var next := Next(s, Signal);
    assert next.queue[|s.queue|] == Shutdown;
    MarkedStays(next, steps);
  }

  /**
   At the second attempt it is exactly when the queue has room again: a
   submitter that passed the closed test can take the place the drain made.
   */
  lemma ResignalReachesWorkerIff(s: State, steps: seq<Step>)
    requires Inv(s) && Enabled(s, Resignal) && IsRun(Next(s, Resignal), steps)
    ensures Marked(Run(Next(s, Resignal), steps)) <==> HasRoom(s)
    ensures !HasRoom(s) ==> !Run(Next(s, Resignal), steps).worker.Stopped?
  {
    hide Run, IsRun, LedgerOk, CountOk, WaitersOk, HasRoom;
    var next := Next(s, Resignal);
    if HasRoom(s) { assert next.queue[|s.queue|] == Shutdown; }
    MarkedStays(next, steps);
  }

  /** A marker on its way does stop the worker, by the worker's own steps. */
  lemma {:induction false} MarkedWorkerStops(s: State) returns (steps: seq<Step>)
    requires Inv(s) && s.closer.Closed? && Marked(s) && !s.lock.ByProducer?
    ensures WorkerOnly(steps) && IsRun(s, steps) && Run(s, steps).worker.Stopped?
    decreases WorkLeft(s)
  {
    hide LedgerOk, WaitersOk, BoundOk, WakeAll, Queued;
    if s.worker.Stopped? {
      steps := [];
    } else {
      var step := WorkerStep(s);
      StepKeepsInv(s, step);
      MarkedStays(s, [step]);
      assert [step][1..] == [];
      var rest := MarkedWorkerStops(Next(s, step));
      steps := [step] + rest;
      assert steps[1..] == rest;
    }
  }

  lemma {:induction false} RunExtends(s: State, steps: seq<Step>, step: Step)
    requires IsRun(s, steps) && Enabled(Run(s, steps), step)
    ensures IsRun(s, steps + [step]) && Run(s, steps + [step]) == Next(Run(s, steps), step)
    decreases |steps|
  {
    hide Next, Enabled;
    var longer := steps + [step];
    if steps == [] {
      assert longer[0] == step && longer[1..] == [];
    } else {
      assert longer[0] == steps[0] && longer[1..] == steps[1..] + [step];
      RunExtends(Next(s, steps[0]), steps[1..], step);
    }
  }

  predicate Miscounted(s: State) {
    s.lock.Free? && s.pending != Outstanding(s)
  }

  lemma RunNothing(s: State)
    ensures IsRun(s, []) && Run(s, []) == s
  {
  }

  /** One event fills a one-slot queue; `close` begins and its flush times out. */
  lemma FullAtClose() returns (steps: seq<Step>)
    ensures Reachable(1, steps)
    ensures Run(Start(1), steps)
         == State(1, [Event(0)], 1, false, Free, 0, Idle, map[0 := Returned(false)], Flushing(0), 1, [], [])
  {
    hide Run, IsRun, WakeAll;
    var start := Start(1);
    RunNothing(start);
    RunExtends(start, [], CheckOpen);
    steps := [] + [CheckOpen];
    assert Run(start, steps) == State(1, [], 0, false, Free, 1, Idle, map[], Open, 0, [], []);
    RunExtends(start, steps, Put);
    steps := steps + [Put];
    assert Run(start, steps) == State(1, [Event(0)], 0, false, ByProducer, 0, Idle, map[], Open, 1, [], []);
    RunExtends(start, steps, Count);
    steps := steps + [Count];
    assert Run(start, steps) == State(1, [Event(0)], 1, false, Free, 0, Idle, map[], Open, 1, [], []);
    RunExtends(start, steps, BeginClose(0));
    steps := steps + [BeginClose(0)];
    assert Run(start, steps)
        == State(1, [Event(0)], 1, false, Free, 0, Idle, map[0 := Entering], Flushing(0), 1, [], []);
    RunExtends(start, steps, Check(0, true));
    steps := steps + [Check(0, true)];
  }

  /** With one slot, closing on a full queue after a flush that timed out discards the queued event uncounted. */
  lemma ForcedDrainLosesCount()
    ensures exists steps :: Reachable(1, steps) && Miscounted(Run(Start(1), steps))
  {
    hide Run, IsRun, WakeAll, Start;
    var start := Start(1);
    var steps := FullAtClose();
    RunExtends(start, steps, Signal);
    var full := steps + [Signal];
    assert Run(start, full)
        == State(1, [Event(0)], 1, false, Free, 0, Idle, map[0 := Returned(false)], Draining, 1, [], []);
    RunExtends(start, full, Drain);
    var end := Run(start, full + [Drain]);
    assert end.queue == [] && end.discarded == [0] && end.pending == 1;
    assert Reachable(1, full + [Drain]) && Miscounted(end);
  }

  /** With one slot, a submitter past the closed test refills the drained queue, and the marker is never queued. */
  lemma MarkerLost()
    ensures exists steps :: Reachable(1, steps) && Run(Start(1), steps).closer.Closed? && !Marked(Run(Start(1), steps))
  {
    hide Run, IsRun, WakeAll, Start;
    var start := Start(1);
    RunNothing(start);
    RunExtends(start, [], CheckOpen);
    var steps := [] + [CheckOpen];
    assert Run(start, steps) == State(1, [], 0, false, Free, 1, Idle, map[], Open, 0, [], []) by { StartIs(1); }
    RunExtends(start, steps, CheckOpen);
    steps := steps + [CheckOpen];
    RunExtends(start, steps, Put);
    steps := steps + [Put];
    RunExtends(start, steps, Count);
    steps := steps + [Count];
    assert Run(start, steps) == State(1, [Event(0)], 1, false, Free, 1, Idle, map[], Open, 1, [], []);
    RunExtends(start, steps, BeginClose(0));
    steps := steps + [BeginClose(0)];
    RunExtends(start, steps, Check(0, true));
    steps := steps + [Check(0, true)];
    assert Run(start, steps)
        == State(1, [Event(0)], 1, false, Free, 1, Idle, map[0 := Returned(false)], Flushing(0), 1, [], []);
    MarkerLostFrom(start, steps);
  }

  lemma StartIs(maxQueue: int)
    ensures Start(maxQueue) == State(maxQueue, [], 0, false, Free, 0, Idle, map[], Open, 0, [], [])
  {
  }

  lemma MarkerLostFrom(start: State, before: seq<Step>)
    requires IsRun(start, before)
    requires Run(start, before)
          == State(1, [Event(0)], 1, false, Free, 1, Idle, map[0 := Returned(false)], Flushing(0), 1, [], [])
    ensures exists steps :: IsRun(start, steps) && Run(start, steps).closer.Closed? && !Marked(Run(start, steps))
  {
    hide Run, IsRun, WakeAll;
    RunExtends(start, before, Signal);
    var steps := before + [Signal];
    RunExtends(start, steps, Drain);
    steps := steps + [Drain];
    assert Run(start, steps)
        == State(1, [], 1, false, Free, 1, Idle, map[0 := Returned(false)], Resignalling, 1, [], [0]);
    RunExtends(start, steps, Put);
    steps := steps + [Put];
    RunExtends(start, steps, Resignal);
    steps := steps + [Resignal];
    assert Run(start, steps).queue == [Event(1)] && Run(start, steps).worker.Idle?;
    assert !Marked(Run(start, steps));
  }

  // ---------------------------------------------------------------------
  // What one step does
  // ---------------------------------------------------------------------

  /** A submitted event is dropped exactly when a bounded queue is full, and otherwise is the newest in it. */
  lemma SubmitDropsIff(s: State)
    requires Inv(s) && Enabled(s, Put)
    ensures var next := Next(s, Put);
            if s.maxQueue > 0 && |s.queue| == s.maxQueue then
              next.queue == s.queue && next.accepted == s.accepted && next.warnedFull && next.lock.Free?
            else
              && next.queue == s.queue + [Event(s.accepted)] && next.accepted == s.accepted + 1
              && next.warnedFull == s.warnedFull && next.lock.ByProducer?
  {
    hide LedgerOk, CountOk, WaitersOk;
  }

  /** The bound is the one the transport was made with. */
  lemma {:induction false} BoundKept(s: State, steps: seq<Step>)
    requires IsRun(s, steps)
    ensures Run(s, steps).maxQueue == s.maxQueue
    decreases |steps|
  {
    hide WakeAll, HasRoom;
    if steps != [] {
      BoundKept(Next(s, steps[0]), steps[1..]);
    }
  }

  /** A flusher returns success at zero, failure when its time is up above zero, and else waits. */
  lemma FlushOutcome(s: State, id: nat, expired: bool)
    requires Enabled(s, Check(id, expired))
    ensures var after := Next(s, Check(id, expired)).flushers;
            && after.Keys == s.flushers.Keys
            && (after[id] == Returned(true) <==> s.pending <= 0)
            && (after[id] == Returned(false) <==> s.pending > 0 && expired)
            && (after[id] == Waiting <==> s.pending > 0 && !expired)
            && forall f :: f in s.flushers && f != id ==> after[f] == s.flushers[f]
  {
  }

  /** Events accepted after close began are those of submitters already past the closed test. */
  lemma {:induction false} AcceptedAfterClose(s: State, steps: seq<Step>)
    requires !s.closer.Open? && IsRun(s, steps)
    ensures !Run(s, steps).closer.Open?
    ensures Run(s, steps).accepted + Run(s, steps).submitting <= s.accepted + s.submitting
    decreases |steps|
  {
    hide WakeAll, HasRoom;
    if steps != [] {
      AcceptedAfterClose(Next(s, steps[0]), steps[1..]);
    }
  }

  /** The notification wakes those who wait when the count is zero, and no one else changes. */
  lemma NotifyWakes(s: State, f: nat)
    requires Enabled(s, Notify) && f in s.flushers
    ensures f in Next(s, Notify).flushers
    ensures Next(s, Notify).flushers[f] == if s.flushers[f].Waiting? && s.pending <= 0 then Woken else s.flushers[f]
  {
  }

  /** The marker goes behind what is queued; without room the head makes way for it. */
  lemma CloseSteps(s: State)
    requires Inv(s)
    ensures Enabled(s, Signal) && !(s.maxQueue > 0 && |s.queue| == s.maxQueue) ==>
              Next(s, Signal).queue == s.queue + [Shutdown] && Next(s, Signal).closer == Closed
    ensures Enabled(s, Signal) && s.maxQueue > 0 && |s.queue| == s.maxQueue ==> Next(s, Signal) == s.(closer := Draining)
    ensures Enabled(s, Drain) ==> Next(s, Drain).queue == (if s.queue == [] then [] else s.queue[1..])
    ensures Enabled(s, Resignal) ==>
              Next(s, Resignal).queue == (if s.maxQueue > 0 && |s.queue| == s.maxQueue then s.queue else s.queue + [Shutdown])
  {
    hide LedgerOk, CountOk, WaitersOk;
  }

  lemma LockOfWorker(s: State)
    requires Inv(s)
    ensures s.lock.ByWorker? <==> s.worker.Notifying?
  {
  }

  lemma QueuedSplit(before: seq<Item>)
    ensures Queued([]) == []
    ensures before != [] ==> Queued(before) == TicketOf(before[0]) + Queued(before[1..])
  {
  }

  lemma TailBeforeMarker(queue: seq<Item>, before: seq<Item>)
    requires queue == before + [Shutdown] && Shutdown !in before
    ensures before == [] ==> queue[0] == Shutdown
    ensures before != [] ==> queue[0] == before[0] && queue[0].Event?
    ensures before != [] ==> queue[1..] == before[1..] + [Shutdown] && Shutdown !in before[1..]
  {
    if before != [] { assert before[0] in before; }
  }

  /** The worker sends what is queued in front of the marker, in order, and stops. */
  lemma {:induction false} SendsUpToMarker(s: State, before: seq<Item>) returns (steps: seq<Step>)
    requires Inv(s) && s.closer.Closed? && !s.lock.ByProducer? && !s.worker.Stopped?
    requires s.queue == before + [Shutdown] && Shutdown !in before
    ensures WorkerOnly(steps) && IsRun(s, steps) && Run(s, steps).worker.Stopped?
    ensures Run(s, steps).done == s.done + BeingSent(s.worker) + Queued(before)
    decreases WorkLeft(s)
  {
    hide LedgerOk, CountOk, WaitersOk, BoundOk, WakeAll, Queued;
    var step := WorkerStep(s);
    LockOfWorker(s);
    StepKeepsInv(s, step);
    QueuedSplit(before);
    TailBeforeMarker(s.queue, before);
    if step.Take? && before == [] {
      steps := [step];
      assert steps[1..] == [];
      assert s.done + [] + [] == s.done;
    } else {
      if step.Take? {
        assert s.done + [] + (TicketOf(before[0]) + Queued(before[1..])) == s.done + TicketOf(before[0]) + Queued(before[1..]);
      }
      var rest := SendsUpToMarker(Next(s, step), if step.Take? then before[1..] else before);
      steps := [step] + rest;
      assert steps[1..] == rest;
    }
  }

  /** With room for the marker, close loses no event that was queued: the worker can send them all and then stops. */
  lemma CloseSendsQueued(s: State) returns (steps: seq<Step>)
    requires Inv(s) && Enabled(s, Signal) && HasRoom(s) && !s.lock.ByProducer?
    ensures WorkerOnly(steps) && IsRun(Next(s, Signal), steps) && Run(Next(s, Signal), steps).worker.Stopped?
    ensures Run(Next(s, Signal), steps).done == s.done + BeingSent(s.worker) + Queued(s.queue)
  {
    hide LedgerOk, CountOk, WaitersOk, Run, IsRun;
    StepKeepsInv(s, Signal);
    steps := SendsUpToMarker(Next(s, Signal), s.queue);
  }
}
