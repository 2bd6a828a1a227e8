/** A queue of actions performed by a worker on behalf of its callers, as a state machine over their steps.
    A step is what one thread does while it holds the queue's mutex, or one action of the worker's. */
module AsyncTaskQueue {

  /** An action: some work, or the raising of the flag that a flush waits for. */
  datatype Action = Work(work: int) | Flag(ticket: nat)

  /** The worker: testing whether there is anything to do, asleep until notified, or performing a batch. */
  datatype Worker = Testing | Asleep | Performing

  const MAXIMUM_ENQUEUED := 1000

  /** Every action ever enqueued, those pending, those of the worker's batch still to be performed, and those
      performed; the flags that have been raised, and the ticket for the next flush. */
  datatype Queue = Queue(
    enqueued: seq<Action>, pending: seq<Action>, batch: seq<Action>, performed: seq<Action>,
    raised: set<nat>, tickets: nat, worker: Worker)

  const EMPTY := Queue([], [], [], [], {}, 0, Testing)

  // What a caller does.

  /** Whether enqueueing notifies the worker: always if it is to perform automatically, and otherwise only
      when much is pending. */
  predicate Notifies(automatic: bool, pending: nat) {
    automatic || pending >= MAXIMUM_ENQUEUED
  }

  function Woken(w: Worker): Worker {
    if w.Asleep? then Testing else w
  }

  function Enqueued(automatic: bool, q: Queue, a: Action): Queue {
    var pending := q.pending + [a];
    q.(enqueued := q.enqueued + [a], pending := pending,
       worker := if Notifies(automatic, |pending|) then Woken(q.worker) else q.worker)
  }

  /** The explicit request to perform what has been enqueued. */
  function Requested(q: Queue): Queue {
    if q.pending == [] then q else q.(worker := Woken(q.worker))
  }

  /** A flush enqueues the raising of a flag of its own and waits for it, having requested performance if
      that is not automatic. */
  function FlushBegun(automatic: bool, q: Queue): Queue {
    Enqueued(automatic, q, Flag(q.tickets)).(tickets := q.tickets + 1)
  }

  predicate MayReturn(q: Queue, ticket: nat) {
    ticket in q.raised
  }

  // What the worker does.

  /** Holding the mutex, takes everything pending if there is anything, and otherwise sleeps. */
  function Tested(q: Queue): Queue {
    if q.pending == [] then q.(worker := Asleep)
    else q.(batch := q.pending, pending := [], worker := Performing)
  }

  function PerformedOne(q: Queue): Queue {
    if q.batch == [] then q.(worker := Testing)
    else
      var a := q.batch[0];
      q.(performed := q.performed + [a], batch := q.batch[1..],
         raised := if a.Flag? then q.raised + {a.ticket} else q.raised)
  }

  function Worked(q: Queue): Queue {
    match q.worker
    case Testing => Tested(q)
    case Performing => PerformedOne(q)
    case Asleep => q
  }

  // Every interleaving.

  /** A step of any thread; a sleeping worker may also wake for no reason. */
  datatype Step = Enqueue(work: int) | Request | BeginFlush | Act | Wake

  function Next(automatic: bool, q: Queue, step: Step): Queue {
    match step
    case Enqueue(work) => Enqueued(automatic, q, Work(work))
    case Request => Requested(q)
    case BeginFlush => FlushBegun(automatic, q)
    case Act => Worked(q)
    case Wake => q.(worker := Woken(q.worker))
  }

  function Run(automatic: bool, q: Queue, steps: seq<Step>): Queue
    decreases |steps|
  {
    if steps == [] then q else Next(automatic, Run(automatic, q, steps[..|steps| - 1]), steps[|steps| - 1])
  }

  /** Nothing is lost, duplicated or reordered. */
  predicate InOrder(q: Queue) {
    q.performed + q.batch + q.pending == q.enqueued
  }

  /** No wakeup is lost: a worker sleeps only while it need not be working. */
  predicate SleepsRightly(automatic: bool, q: Queue) {
    && (q.worker.Asleep? ==> q.pending == [] || !Notifies(automatic, |q.pending|))
    && (!q.worker.Performing? ==> q.batch == [])
  }

  /** Each flush has a flag of its own, which is up once its raising has been performed. */
  ghost predicate FlagsRight(q: Queue) {
    && (forall t :: t in q.raised <==> Flag(t) in q.performed)
    && (forall i | 0 <= i < |q.enqueued| :: q.enqueued[i].Flag? ==> q.enqueued[i].ticket < q.tickets)
    && (forall i, j | 0 <= i < j < |q.enqueued| :: q.enqueued[i].Flag? ==> q.enqueued[i] != q.enqueued[j])
  }

  ghost predicate Invariant(automatic: bool, q: Queue) {
    InOrder(q) && SleepsRightly(automatic, q) && FlagsRight(q)
  }

  lemma EnqueueKeeps(automatic: bool, q: Queue, a: Action)
    requires Invariant(automatic, q) && (a.Flag? ==> a.ticket == q.tickets)
    ensures Invariant(automatic, Enqueued(automatic, q, a).(tickets := if a.Flag? then q.tickets + 1 else q.tickets))
  {
    assert q.performed + q.batch + (q.pending + [a]) == q.enqueued + [a];
  }

  lemma WorkKeeps(automatic: bool, q: Queue)
    requires Invariant(automatic, q)
    ensures Invariant(automatic, Worked(q))
  {
    if q.worker.Testing? {
      assert q.performed + q.pending + [] == q.performed + [] + q.pending;
    } else if q.worker.Performing? && q.batch != [] {
      var a := q.batch[0];
      assert q.performed + [a] + q.batch[1..] == q.performed + q.batch;
    }
  }

  lemma StepKeeps(automatic: bool, q: Queue, step: Step)
    requires Invariant(automatic, q)
    ensures Invariant(automatic, Next(automatic, q, step))
  {
    match step {
      case Enqueue(work) => EnqueueKeeps(automatic, q, Work(work));
      case BeginFlush => EnqueueKeeps(automatic, q, Flag(q.tickets));
      case Act => WorkKeeps(automatic, q);
      case Request =>
      case Wake =>
    }
  }

  /** In every interleaving, what has been performed, what remains of the worker's batch and what is pending
      are together exactly what was enqueued, in order, and no wakeup is lost. */
  lemma {:induction false} RunKeeps(automatic: bool, q: Queue, steps: seq<Step>)
    requires Invariant(automatic, q)
    ensures Invariant(automatic, Run(automatic, q, steps))
    decreases |steps|
  {
    hide Invariant, Next;
    if steps != [] {
      RunKeeps(automatic, q, steps[..|steps| - 1]);
      StepKeeps(automatic, Run(automatic, q, steps[..|steps| - 1]), steps[|steps| - 1]);
    }
  }

  lemma EmptyInvariant(automatic: bool)
    ensures Invariant(automatic, EMPTY)
  {
  }

  lemma {:induction false} EnqueuedGrows(automatic: bool, q: Queue, steps: seq<Step>)
    ensures q.enqueued <= Run(automatic, q, steps).enqueued
    decreases |steps|
  {
    if steps != [] {
      EnqueuedGrows(automatic, q, steps[..|steps| - 1]);
    }
  }

  /** A flush begun in any reachable state can return only once everything enqueued before it has been
      performed, whatever else happens in between. */
  lemma FlushWaits(automatic: bool, before: seq<Step>, after: seq<Step>)
    ensures var q := Run(automatic, EMPTY, before);
            var r := Run(automatic, FlushBegun(automatic, q), after);
            MayReturn(r, q.tickets) ==> q.enqueued <= r.performed
  {
    var q := Run(automatic, EMPTY, before);
    EmptyInvariant(automatic);
    RunKeeps(automatic, EMPTY, before);
    var begun := FlushBegun(automatic, q);
    StepKeeps(automatic, q, BeginFlush);
    var r := Run(automatic, begun, after);
    RunKeeps(automatic, begun, after);
    EnqueuedGrows(automatic, begun, after);
    if MayReturn(r, q.tickets) {
      RaisedInOrder(automatic, q, begun.enqueued, r);
    }
  }

  lemma RaisedInOrder(automatic: bool, q: Queue, enqueued: seq<Action>, r: Queue)
    requires Invariant(automatic, r) && enqueued == q.enqueued + [Flag(q.tickets)] && enqueued <= r.enqueued
    requires MayReturn(r, q.tickets)
    ensures enqueued <= r.performed
  {
    var n := |q.enqueued|;
    assert r.enqueued[n] == enqueued[n] == Flag(q.tickets);
    var k :| 0 <= k < |r.performed| && r.performed[k] == Flag(q.tickets);
    assert r.performed + (r.batch + r.pending) == r.enqueued;
    assert r.enqueued[k] == r.performed[k];
    assert k == n;
    assert r.performed == r.enqueued[..|r.performed|];
  }

  // Progress.

  /** How many of its own steps a worker that is awake needs, if nothing else happens, to sleep again. */
  function Outstanding(q: Queue): nat {
    match q.worker
    case Asleep => 0
    case Testing => 1 + 3 * |q.pending|
    case Performing => 2 + |q.batch| + 3 * |q.pending|
  }

  function Drained(q: Queue, n: nat): Queue
    decreases n
  {
    if n == 0 then q else Drained(Worked(q), n - 1)
  }

  /** A worker that is awake performs everything there is and then sleeps. */
  lemma {:induction false} WorkerDrains(automatic: bool, q: Queue, n: nat)
    requires Invariant(automatic, q) && !q.worker.Asleep? && n >= Outstanding(q)
    ensures var r := Drained(q, n); Invariant(automatic, r) && r.performed == r.enqueued == q.enqueued
    decreases n
  {
    WorkKeeps(automatic, q);
    if Worked(q).worker.Asleep? {
      StaysAsleep(Worked(q), n - 1);
      assert q.performed + [] + [] == q.performed;
    } else {
      WorkerDrains(automatic, Worked(q), n - 1);
    }
  }

  lemma StaysAsleep(q: Queue, n: nat)
    requires q.worker.Asleep?
    ensures Drained(q, n) == q
    decreases n
  {
  }

  // A flush returns, in every interleaving in which the worker takes enough steps.

  /** How many of some steps are the worker's. */
  function WorkerSteps(steps: seq<Step>): nat
    decreases |steps|
  {
    if steps == [] then 0 else WorkerSteps(steps[..|steps| - 1]) + if steps[|steps| - 1].Act? then 1 else 0
  }

  /** The worker will not sleep before the action at an index has been performed. */
  predicate AwakeFor(q: Queue, index: nat) {
    |q.performed| > index || !q.worker.Asleep?
  }

  /** How many steps of its own a worker that is awake then needs at most to have performed that action. */
  function Needed(q: Queue, index: nat): nat {
    if |q.performed| > index then 0
    else index - |q.performed| +
         if q.worker.Testing? then 2 else if index < |q.performed| + |q.batch| then 1 else 3
  }

  lemma StepNeeds(automatic: bool, q: Queue, index: nat, step: Step)
    requires Invariant(automatic, q) && index < |q.enqueued| && AwakeFor(q, index)
    ensures var r := Next(automatic, q, step);
            && AwakeFor(r, index)
            && Needed(r, index) <= Needed(q, index)
            && (step.Act? && Needed(q, index) > 0 ==> Needed(r, index) < Needed(q, index))
  {
    hide FlagsRight;
  }

  lemma {:induction false} RunNeeds(automatic: bool, q: Queue, index: nat, steps: seq<Step>)
    requires Invariant(automatic, q) && index < |q.enqueued| && AwakeFor(q, index)
    ensures var r := Run(automatic, q, steps);
            || |r.performed| > index
            || (AwakeFor(r, index) && Needed(r, index) + WorkerSteps(steps) <= Needed(q, index))
    decreases |steps|
  {
    hide Invariant, Next, AwakeFor;
    if steps != [] {
      var before := Run(automatic, q, steps[..|steps| - 1]);
      RunNeeds(automatic, q, index, steps[..|steps| - 1]);
      RunKeeps(automatic, q, steps[..|steps| - 1]);
      EnqueuedGrows(automatic, q, steps[..|steps| - 1]);
      StillAwake(before, index);
      StepNeeds(automatic, before, index, steps[|steps| - 1]);
    }
  }

  lemma StillAwake(q: Queue, index: nat)
    ensures |q.performed| > index ==> AwakeFor(q, index)
  {
  }

  lemma {:induction false} PerformedGrows(automatic: bool, q: Queue, steps: seq<Step>)
    ensures |q.performed| <= |Run(automatic, q, steps).performed|
    decreases |steps|
  {
    if steps != [] {
      PerformedGrows(automatic, q, steps[..|steps| - 1]);
    }
  }

  /** A flush does return. Whatever else happens between its flag's being enqueued and, if performance is not
      automatic, its being requested, and whatever happens afterwards, the flag is up once the worker has taken
      three steps more than there were actions to perform. */
  lemma FlushReturns(automatic: bool, q: Queue, between: seq<Step>, after: seq<Step>)
    requires Invariant(automatic, q) && WorkerSteps(after) >= |q.enqueued| - |q.performed| + 3
    ensures var ready := Run(automatic, FlushBegun(automatic, q), between);
            var r := if automatic then ready else Requested(ready);
            MayReturn(Run(automatic, r, after), q.tickets)
  {
    var begun, index := FlushBegun(automatic, q), |q.enqueued|;
    StepKeeps(automatic, q, BeginFlush);
    RunKeeps(automatic, begun, between);
    EnqueuedGrows(automatic, begun, between);
    PerformedGrows(automatic, begun, between);
    var ready := Run(automatic, begun, between);
    var r := if automatic then ready else Requested(ready);
    StepKeeps(automatic, ready, Request);
    if automatic {
      BegunAwake(q);
      RunNeeds(automatic, begun, index, between);
      StillAwake(ready, index);
    } else {
      RequestedAwake(ready, index);
    }
    RunNeeds(automatic, r, index, after);
    RunKeeps(automatic, r, after);
    EnqueuedGrows(automatic, r, after);
    hide Run, Invariant, AwakeFor;
    FlagUp(automatic, q, Run(automatic, r, after));
  }

  lemma BegunAwake(q: Queue)
    ensures AwakeFor(FlushBegun(true, q), |q.enqueued|)
  {
  }

  lemma RequestedAwake(q: Queue, index: nat)
    requires Invariant(false, q) && index < |q.enqueued|
    ensures AwakeFor(Requested(q), index)
  {
  }

  lemma FlagUp(automatic: bool, q: Queue, r: Queue)
    requires Invariant(automatic, r) && q.enqueued + [Flag(q.tickets)] <= r.enqueued && |r.performed| > |q.enqueued|
    ensures MayReturn(r, q.tickets)
  {
    assert r.performed + (r.batch + r.pending) == r.enqueued;
    assert r.performed[|q.enqueued|] == r.enqueued[|q.enqueued|] == Flag(q.tickets);
  }
}
