/** An actor that runs its object on a task queue whenever the time saved up passes a threshold. The object
    is modelled by the periods it has been run for; only the caller adds and flushes. */
module AsyncJustInTime {
  import opened Arithmetic
  import opened AsyncTaskQueue
  import opened Options

  /** The caller's time and flags, the flag it is waiting for if it is flushing, the queue, the object's
      runs, and all the time ever added. */
  datatype Actor = Actor(
    threshold: int, residue: int, flushed: bool, waiting: Option<nat>, queue: Queue, runs: seq<int>, added: int)

  function Initial(threshold: int): Actor {
    Actor(threshold, 0, true, None, EMPTY, [], 0)
  }

  /** Time added: at most one threshold's worth is queued, however much there is. */
  function Added(a: Actor, time: int): Actor {
    var residue := a.residue + time;
    if residue >= a.threshold then
      a.(residue := residue - a.threshold, flushed := false, added := a.added + time,
         queue := Enqueued(true, a.queue, Work(a.threshold)))
    else a.(residue := residue, flushed := false, added := a.added + time)
  }

  function FlushBegins(a: Actor): Actor {
    if a.flushed then a else a.(waiting := Some(a.queue.tickets), queue := FlushBegun(true, a.queue))
  }

  /** The queue having been flushed, the object is run for what is left. */
  function FlushEnds(a: Actor): Actor {
    a.(runs := a.runs + [a.residue], residue := 0, flushed := true, waiting := None)
  }

  /** The worker's own step, which runs the object if it is to perform some work. */
  function WorkerActs(a: Actor): Actor {
    var q := a.queue;
    a.(queue := Worked(q),
       runs := if q.worker.Performing? && q.batch != [] && q.batch[0].Work? then a.runs + [q.batch[0].work] else a.runs)
  }

  datatype Move = Add(time: int) | StartFlush | EndFlush | WorkerAct | WorkerWakes

  /** A caller that is waiting does nothing else, and waits until its flag is up. */
  predicate Enabled(a: Actor, m: Move) {
    match m
    case Add(_) => a.waiting.None?
    case StartFlush => a.waiting.None?
    case EndFlush => a.waiting.Some? && MayReturn(a.queue, a.waiting.value)
    case WorkerAct => true
    case WorkerWakes => true
  }

  function Moved(a: Actor, m: Move): Actor {
    match m
    case Add(time) => Added(a, time)
    case StartFlush => FlushBegins(a)
    case EndFlush => FlushEnds(a)
    case WorkerAct => WorkerActs(a)
    case WorkerWakes => a.(queue := a.queue.(worker := Woken(a.queue.worker)))
  }

  /** A run in which every move was enabled when it was made. */
  predicate Possible(threshold: int, moves: seq<Move>)
    decreases |moves|
  {
    moves == [] || (Possible(threshold, moves[..|moves| - 1])
                    && Enabled(After(threshold, moves[..|moves| - 1]), moves[|moves| - 1]))
  }

  function After(threshold: int, moves: seq<Move>): Actor
    decreases |moves|
  {
    if moves == [] then Initial(threshold) else Moved(After(threshold, moves[..|moves| - 1]), moves[|moves| - 1])
  }

  /** The number of runs of the object that are queued. */
  function Runs(actions: seq<Action>): nat {
    if actions == [] then 0 else Runs(actions[..|actions| - 1]) + if actions[|actions| - 1].Work? then 1 else 0
  }

  ghost predicate AllThreshold(a: Actor) {
    forall i | 0 <= i < |a.queue.enqueued| :: a.queue.enqueued[i].Work? ==> a.queue.enqueued[i].work == a.threshold
  }

  /** Time run, time queued and time still saved up are together the time added. */
  ghost predicate Conserves(a: Actor) {
    Sum(a.runs) + a.threshold * (Runs(a.queue.batch) + Runs(a.queue.pending)) + a.residue == a.added
  }

  /** A waiting caller's flag is the last thing in the queue. Once flushed nothing is saved up or queued, so
      that the caller has the object to itself. */
  ghost predicate CallerRight(a: Actor) {
    && (a.waiting.Some? ==>
          a.queue.enqueued != [] && a.queue.enqueued[|a.queue.enqueued| - 1] == Flag(a.waiting.value))
    && (a.waiting.Some? ==> !a.flushed)
    && (a.flushed ==> a.residue == 0 && a.queue.batch == [] && a.queue.pending == [])
  }

  ghost predicate Right(a: Actor) {
    Invariant(true, a.queue) && AllThreshold(a) && Conserves(a) && CallerRight(a)
  }

  lemma RunsAppend(actions: seq<Action>, a: Action)
    ensures Runs(actions + [a]) == Runs(actions) + if a.Work? then 1 else 0
  {
    assert (actions + [a])[..|actions|] == actions;
  }

  lemma {:induction false} RunsPrepend(a: Action, actions: seq<Action>)
    ensures Runs([a] + actions) == Runs(actions) + if a.Work? then 1 else 0
    decreases |actions|
  {
    if actions == [] {
      assert [a] + actions == [] + [a];
      RunsAppend([], a);
    } else {
      var n := |actions| - 1;
      RunsPrepend(a, actions[..n]);
      assert [a] + actions == ([a] + actions[..n]) + [actions[n]];
      RunsAppend([a] + actions[..n], actions[n]);
    }
  }

  lemma OneMore(threshold: int, n: int)
    ensures threshold * (n + 1) == threshold * n + threshold
  {
  }

  lemma AddKeeps(a: Actor, time: int)
    requires Right(a) && a.waiting.None?
    ensures Right(Added(a, time))
  {
    hide Invariant, FlagsRight, InOrder;
    EnqueueKeeps(true, a.queue, Work(a.threshold));
    RunsAppend(a.queue.pending, Work(a.threshold));
    OneMore(a.threshold, Runs(a.queue.batch) + Runs(a.queue.pending));
  }

  lemma StartKeeps(a: Actor)
    requires Right(a) && a.waiting.None?
    ensures Right(FlushBegins(a))
  {
    hide Invariant, FlagsRight, InOrder;
    StepKeeps(true, a.queue, BeginFlush);
    RunsAppend(a.queue.pending, Flag(a.queue.tickets));
  }

  /** When the flag is up everything enqueued has been performed, and the worker has nothing in hand. */
  lemma NothingQueued(a: Actor)
    requires Right(a) && Enabled(a, EndFlush)
    ensures a.queue.batch == [] && a.queue.pending == []
  {
    hide SleepsRightly, AllThreshold, Conserves;
    var q, n := a.queue, |a.queue.enqueued|;
    var k :| 0 <= k < |q.performed| && q.performed[k] == Flag(a.waiting.value);
    assert q.performed + (q.batch + q.pending) == q.enqueued;
    assert q.enqueued[k] == q.performed[k] == q.enqueued[n - 1];
    assert k == n - 1;
  }

  lemma EndKeeps(a: Actor)
    requires Right(a) && Enabled(a, EndFlush)
    ensures Right(FlushEnds(a))
  {
    hide Invariant, Enabled;
    NothingQueued(a);
    SumAppend(a.runs, a.residue);
  }

  lemma BatchNext(q: Queue)
    requires Invariant(true, q) && q.batch != []
    ensures |q.performed| < |q.enqueued| && q.enqueued[|q.performed|] == q.batch[0]
    ensures q.batch == [q.batch[0]] + q.batch[1..]
  {
    hide FlagsRight;
    assert q.performed + q.batch + q.pending == q.enqueued;
  }

  lemma WorkerKeeps(a: Actor)
    requires Right(a)
    ensures Right(WorkerActs(a))
  {
    WorkKeeps(true, a.queue);
    WorkerConserves(a);
    hide Invariant, Conserves;
  }

  lemma WorkerConserves(a: Actor)
    requires Invariant(true, a.queue) && AllThreshold(a) && Conserves(a)
    ensures Conserves(WorkerActs(a))
  {
    hide Invariant;
    var q := a.queue;
    if q.worker.Performing? && q.batch != [] {
      var first, rest := q.batch[0], q.batch[1..];
      BatchNext(q);
      RunsPrepend(first, rest);
      OneMore(a.threshold, Runs(rest) + Runs(q.pending));
      if first.Work? {
        SumAppend(a.runs, first.work);
      }
    } else if q.worker.Testing? {
      Asleep(q);
    }
  }

  lemma Asleep(q: Queue)
    requires Invariant(true, q) && !q.worker.Performing?
    ensures q.batch == []
  {
    hide FlagsRight, InOrder;
  }

  lemma MoveKeeps(a: Actor, m: Move)
    requires Right(a) && Enabled(a, m)
    ensures Right(Moved(a, m))
  {
    match m {
      case Add(time) => AddKeeps(a, time);
      case StartFlush => StartKeeps(a);
      case EndFlush => EndKeeps(a);
      case WorkerAct => WorkerKeeps(a);
      case WorkerWakes => StepKeeps(true, a.queue, Wake);
    }
  }

  /** In every interleaving no time is lost or gained. */
  lemma {:induction false} AlwaysRight(threshold: int, moves: seq<Move>)
    requires Possible(threshold, moves)
    ensures Right(After(threshold, moves))
    decreases |moves|
  {
    if moves == [] {
      EmptyInvariant(true);
    } else {
      hide Right, Enabled, Moved;
      AlwaysRight(threshold, moves[..|moves| - 1]);
      MoveKeeps(After(threshold, moves[..|moves| - 1]), moves[|moves| - 1]);
    }
  }

  /** When the object is run by a flush it is not also being run by the worker, and it has then been run for
      exactly the time added; and until more is added the worker does nothing to it. */
  lemma FlushRunsEverything(threshold: int, moves: seq<Move>)
    requires Possible(threshold, moves) && Enabled(After(threshold, moves), EndFlush)
    ensures After(threshold, moves).queue.batch == []
    ensures var a := Moved(After(threshold, moves), EndFlush);
            Sum(a.runs) == a.added && a.flushed && WorkerActs(a).runs == a.runs
  {
    hide Invariant, AllThreshold, After, Possible, Enabled;
    var a := After(threshold, moves);
    AlwaysRight(threshold, moves);
    NothingQueued(a);
    SumAppend(a.runs, a.residue);
  }
}
