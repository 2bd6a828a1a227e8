/** A queue of deferred actions held as delays relative to one another, against the plain list of absolute
    deadlines it stands for. Actions are names: what they do is not modelled, and they do not re-enter
    the queue. */
module DeferredQueue {

  type Action = nat

  datatype Deferred = Deferred(delay: int, action: Action)

  /** An action and when it is due, or was performed. */
  datatype Timed = Timed(at: int, action: Action)

  /** What a performer does: call its target with a period, or perform an action. */
  datatype Event = Target(period: int) | Perform(action: Action)

  // The specification: absolute deadlines, in order.

  /** The deadlines a list of relative delays stands for, the first being relative to base. */
  function Deadlines(pending: seq<Deferred>, base: int): (d: seq<Timed>)
    ensures |d| == |pending|
  {
    if pending == [] then []
    else
      var at := base + pending[0].delay;
      [Timed(at, pending[0].action)] + Deadlines(pending[1..], at)
  }

  /** The list with one more deadline: in order, and before any that are equal. */
  function Inserted(d: seq<Timed>, x: Timed): seq<Timed> {
    if d == [] || d[0].at >= x.at then [x] + d else [d[0]] + Inserted(d[1..], x)
  }

  /** The deadlines up to a time, and those after it. */
  function Due(d: seq<Timed>, time: int): seq<Timed> {
    if d == [] || d[0].at > time then [] else [d[0]] + Due(d[1..], time)
  }

  function Later(d: seq<Timed>, time: int): seq<Timed> {
    if d == [] || d[0].at > time then d else Later(d[1..], time)
  }

  function Postponed(d: seq<Timed>, shift: int): (r: seq<Timed>)
    ensures |r| == |d|
  {
    if d == [] then [] else [Timed(d[0].at + shift, d[0].action)] + Postponed(d[1..], shift)
  }

  function Performances(d: seq<Timed>): seq<Event> {
    if d == [] then [] else [Perform(d[0].action)] + Performances(d[1..])
  }

  /** When each action in a log was performed, given the periods passed to the target before it. */
  function Firings(log: seq<Event>, time: int): seq<Timed> {
    if log == [] then []
    else match log[0]
      case Target(period) => Firings(log[1..], time + period)
      case Perform(action) => [Timed(time, action)] + Firings(log[1..], time)
  }

  function Elapsed(log: seq<Event>): int {
    if log == [] then 0 else (if log[0].Target? then log[0].period else 0) + Elapsed(log[1..])
  }

  ghost predicate PositivePeriods(log: seq<Event>) {
    forall i | 0 <= i < |log| :: log[i].Target? ==> log[i].period > 0
  }

  /** The head is due strictly later; of two neighbours the second is due no earlier. */
  ghost predicate Ordered(pending: seq<Deferred>) {
    && (pending != [] ==> pending[0].delay > 0)
    && (forall i | 0 <= i < |pending| :: pending[i].delay >= 0)
  }

  lemma {:induction false} DeadlinesConcat(a: seq<Deferred>, b: seq<Deferred>, base: int)
    ensures Deadlines(a + b, base) == Deadlines(a, base) + Deadlines(b, base + Sum(a))
    decreases |a|
  {
    if a == [] {
      assert a + b == b;
    } else {
      assert (a + b)[1..] == a[1..] + b;
      DeadlinesConcat(a[1..], b, base + a[0].delay);
    }
  }

  function Sum(pending: seq<Deferred>): int {
    if pending == [] then 0 else pending[0].delay + Sum(pending[1..])
  }

  lemma {:induction false} SumAppend(a: seq<Deferred>, x: Deferred)
    ensures Sum(a + [x]) == Sum(a) + x.delay
    decreases |a|
  {
    if a != [] {
      assert (a + [x])[1..] == a[1..] + [x];
      SumAppend(a[1..], x);
    }
  }

  lemma {:induction false} Rebased(pending: seq<Deferred>, base: int, shift: int)
    ensures Deadlines(pending, base + shift) == Postponed(Deadlines(pending, base), shift)
    decreases |pending|
  {
    if pending != [] {
      Rebased(pending[1..], base + pending[0].delay, shift);
    }
  }

  lemma {:induction false} FiringsConcat(a: seq<Event>, b: seq<Event>, time: int)
    ensures Firings(a + b, time) == Firings(a, time) + Firings(b, time + Elapsed(a))
    ensures Elapsed(a + b) == Elapsed(a) + Elapsed(b)
    decreases |a|
  {
    if a == [] {
      assert a + b == b;
    } else {
      assert (a + b)[1..] == a[1..] + b;
      FiringsConcat(a[1..], b, time + if a[0].Target? then a[0].period else 0);
    }
  }

  // Facts about schedules.

  ghost predicate Sorted(d: seq<Timed>) {
    forall i, j | 0 <= i <= j < |d| :: d[i].at <= d[j].at
  }

  ghost predicate NotBefore(d: seq<Timed>, time: int) {
    forall i | 0 <= i < |d| :: d[i].at >= time
  }

  lemma SortedPrepended(x: Timed, d: seq<Timed>)
    requires Sorted(d) && NotBefore(d, x.at)
    ensures Sorted([x] + d) && NotBefore([x] + d, x.at)
  {
  }

  lemma {:induction false} DeadlinesSorted(pending: seq<Deferred>, base: int)
    requires forall i | 0 <= i < |pending| :: pending[i].delay >= 0
    ensures Sorted(Deadlines(pending, base)) && NotBefore(Deadlines(pending, base), base)
    decreases |pending|
  {
    if pending != [] {
      hide Sorted, NotBefore;
      var at := base + pending[0].delay;
      DeadlinesSorted(pending[1..], at);
      SortedPrepended(Timed(at, pending[0].action), Deadlines(pending[1..], at));
      NotBeforeEarlier(Deadlines(pending, base), at, base);
    }
  }

  lemma NotBeforeEarlier(d: seq<Timed>, time: int, earlier: int)
    requires NotBefore(d, time) && earlier <= time
    ensures NotBefore(d, earlier)
  {
  }

  /** How many deadlines come before a time. */
  function Before(d: seq<Timed>, time: int): (k: nat)
    ensures k <= |d|
  {
    if d == [] || d[0].at >= time then 0 else 1 + Before(d[1..], time)
  }

  /** Deferring keeps the schedule sorted, and puts the newcomer before everything due at its own time or
      later and after everything due before it. */
  lemma {:induction false} InsertedInOrder(d: seq<Timed>, x: Timed)
    requires Sorted(d)
    ensures Sorted(Inserted(d, x))
    ensures var k := Before(d, x.at);
            && Inserted(d, x) == d[..k] + [x] + d[k..]
            && (forall i | 0 <= i < k :: d[i].at < x.at) && (forall i | k <= i < |d| :: d[i].at >= x.at)
    decreases |d|
  {
    var k := Before(d, x.at);
    InsertedAt(d, x);
    SplitAt(d, x.at);
  }

  lemma {:induction false} InsertedAt(d: seq<Timed>, x: Timed)
    ensures var k := Before(d, x.at); Inserted(d, x) == d[..k] + [x] + d[k..]
    decreases |d|
  {
    if d != [] && d[0].at < x.at {
      var k := Before(d[1..], x.at);
      InsertedAt(d[1..], x);
      assert [d[0]] + d[1..][..k] == d[..k + 1] && d[1..][k..] == d[k + 1..];
    }
  }

  lemma {:induction false} SplitAt(d: seq<Timed>, time: int)
    requires Sorted(d)
    ensures var k := Before(d, time);
            (forall i | 0 <= i < k :: d[i].at < time) && (forall i | k <= i < |d| :: d[i].at >= time)
    decreases |d|
  {
    if d != [] && d[0].at < time {
      SplitAt(d[1..], time);
      assert forall i | 1 <= i < |d| :: d[i] == d[1..][i - 1];
    }
  }

  /** Running cuts a schedule in two. */
  lemma {:induction false} DueThenLater(d: seq<Timed>, time: int)
    ensures Due(d, time) + Later(d, time) == d
    ensures forall x | x in Due(d, time) :: x.at <= time
    ensures Sorted(d) ==> forall x | x in Later(d, time) :: x.at > time
    decreases |d|
  {
    hide Sorted;
    if Sorted(d) {
      LaterThan(d, time);
    }
    DueBy(d, time);
    if d != [] && d[0].at <= time {
      DueThenLater(d[1..], time);
      assert d == [d[0]] + d[1..];
    }
  }

  lemma {:induction false} DueBy(d: seq<Timed>, time: int)
    ensures forall x | x in Due(d, time) :: x.at <= time
    decreases |d|
  {
    if d != [] && d[0].at <= time {
      DueBy(d[1..], time);
    }
  }

  lemma {:induction false} LaterThan(d: seq<Timed>, time: int)
    requires Sorted(d)
    ensures forall x | x in Later(d, time) :: x.at > time
    decreases |d|
  {
    if d != [] && d[0].at <= time {
      LaterThan(d[1..], time);
    } else {
      forall x | x in d ensures x.at > time {
        var i :| 0 <= i < |d| && d[i] == x;
      }
    }
  }

  /** An action deferred before a run takes its place among what the run performs if it comes due, and
      changes nothing about the run otherwise. */
  lemma {:induction false} DeferThenRun(d: seq<Timed>, x: Timed, time: int)
    requires Sorted(d)
    ensures Due(Inserted(d, x), time) == if x.at <= time then Inserted(Due(d, time), x) else Due(d, time)
    ensures Later(Inserted(d, x), time) == if x.at <= time then Later(d, time) else Inserted(Later(d, time), x)
    decreases |d|
  {
    if d != [] && d[0].at < x.at {
      DeferThenRun(d[1..], x, time);
    }
  }

  lemma {:induction false} DuePostponed(d: seq<Timed>, shift: int, time: int)
    ensures Due(Postponed(d, shift), time + shift) == Postponed(Due(d, time), shift)
    ensures Later(Postponed(d, shift), time + shift) == Postponed(Later(d, time), shift)
    decreases |d|
  {
    if d != [] {
      DuePostponed(d[1..], shift, time);
    }
  }

  lemma {:induction false} PostponedTwice(d: seq<Timed>, a: int, b: int)
    ensures Postponed(Postponed(d, a), b) == Postponed(d, a + b)
    ensures Postponed(d, 0) == d
    decreases |d|
  {
    if d != [] {
      PostponedTwice(d[1..], a, b);
    }
  }

  lemma {:induction false} PostponedConcat(c: seq<Timed>, d: seq<Timed>, shift: int)
    ensures Postponed(c + d, shift) == Postponed(c, shift) + Postponed(d, shift)
    decreases |c|
  {
    if c == [] {
      assert c + d == d;
    } else {
      assert (c + d)[1..] == c[1..] + d;
      PostponedConcat(c[1..], d, shift);
    }
  }

  /** The schedule left by running for a time, relative to the new present. */
  function After(d: seq<Timed>, time: int): seq<Timed> {
    Postponed(Later(d, time), -time)
  }

  /** Running for a and then for b fires the same actions at the same times as running for a + b, and
      leaves the same schedule. */
  lemma RunsCompose(d: seq<Timed>, a: int, b: int)
    requires b >= 0
    ensures Due(d, a + b) == Due(d, a) + Postponed(Due(After(d, a), b), a)
    ensures After(d, a + b) == After(After(d, a), b)
  {
    hide Due, Later, Postponed;
    var later := Later(d, a);
    CutTwice(d, a, a + b);
    DuePostponed(later, -a, a + b);
    PostponedTwice(Due(later, a + b), -a, a);
    PostponedTwice(Later(later, a + b), -a, -b);
  }

  lemma CutOnce(d: seq<Timed>, time: int)
    ensures d == [] || d[0].at > time ==> Due(d, time) == [] && Later(d, time) == d
    ensures d != [] && d[0].at <= time ==>
              Due(d, time) == [d[0]] + Due(d[1..], time) && Later(d, time) == Later(d[1..], time)
  {
  }

  lemma {:induction false} CutTwice(d: seq<Timed>, earlier: int, later: int)
    requires earlier <= later
    ensures Due(d, later) == Due(d, earlier) + Due(Later(d, earlier), later)
    ensures Later(d, later) == Later(Later(d, earlier), later)
    decreases |d|
  {
    hide Due, Later;
    CutOnce(d, earlier);
    if d != [] && d[0].at <= earlier {
      CutOnce(d, later);
      CutTwice(d[1..], earlier, later);
      Regroup(d[0], Due(d[1..], earlier), Due(Later(d, earlier), later));
    } else {
      assert [] + Due(d, later) == Due(d, later);
    }
  }

  lemma Regroup(x: Timed, a: seq<Timed>, b: seq<Timed>)
    ensures [x] + (a + b) == [x] + a + b
  {
  }

  // Facts about logs.

  lemma {:induction false} PerformancesAppend(d: seq<Timed>, x: Timed)
    ensures Performances(d + [x]) == Performances(d) + [Perform(x.action)]
    decreases |d|
  {
    if d != [] {
      assert (d + [x])[1..] == d[1..] + [x];
      PerformancesAppend(d[1..], x);
    }
  }

  /** Actions performed together, all on time. */
  lemma {:induction false} PerformedOnTime(d: seq<Timed>, time: int, now: int)
    requires forall i | 0 <= i < |d| :: d[i].at == time
    ensures Firings(Performances(d), now) == Postponed(d, now - time)
    ensures Elapsed(Performances(d)) == 0
    ensures PositivePeriods(Performances(d))
    decreases |d|
  {
    if d != [] {
      PerformedOnTime(d[1..], time, now);
    }
  }

  /** What comes due by the first delay comes due exactly then. */
  lemma FirstDue(pending: seq<Deferred>, period: int)
    requires Ordered(pending) && (pending != [] ==> period <= pending[0].delay)
    ensures var due := Due(Deadlines(pending, 0), period);
            forall i | 0 <= i < |due| :: due[i].at == period
  {
    var d := Deadlines(pending, 0);
    DeadlinesSorted(pending, 0);
    DueThenLater(d, period);
    forall i | 0 <= i < |Due(d, period)| ensures Due(d, period)[i].at == period {
      hide Due, Later;
      assert Due(d, period)[i] in Due(d, period) && Due(d, period)[i] == d[i];
      assert d[0].at <= d[i].at;
    }
  }

  lemma PositiveConcat(a: seq<Event>, b: seq<Event>)
    requires PositivePeriods(a) && PositivePeriods(b)
    ensures PositivePeriods(a + b)
  {
  }

  /** One call of the target and the actions it reaches, when it stops at or before the first of them. */
  lemma PeriodOnTime(pending: seq<Deferred>, period: int, events: seq<Event>)
    requires Ordered(pending) && period > 0 && (pending != [] ==> period <= pending[0].delay)
    requires PositivePeriods(events)
    ensures var due := Due(Deadlines(pending, 0), period);
            var longer := events + ([Target(period)] + Performances(due));
            && Firings(longer, 0) == Firings(events, 0) + Postponed(due, Elapsed(events))
            && Elapsed(longer) == Elapsed(events) + period
            && PositivePeriods(longer)
  {
    var due := Due(Deadlines(pending, 0), period);
    FirstDue(pending, period);
    hide Deadlines, Due, Postponed;
    PerformedOnTime(due, period, Elapsed(events) + period);
    TargetThen(period, Performances(due), Elapsed(events));
    hide Firings, Elapsed, PositivePeriods;
    FiringsConcat(events, [Target(period)] + Performances(due), 0);
    PositiveConcat(events, [Target(period)] + Performances(due));
  }

  lemma TargetThen(period: int, log: seq<Event>, time: int)
    requires PositivePeriods(log) && period > 0
    ensures Firings([Target(period)] + log, time) == Firings(log, time + period)
    ensures Elapsed([Target(period)] + log) == period + Elapsed(log)
    ensures PositivePeriods([Target(period)] + log)
  {
    assert ([Target(period)] + log)[1..] == log;
  }

  lemma NothingYet(pending: seq<Deferred>)
    requires Ordered(pending)
    ensures var d := Deadlines(pending, 0); After(d, 0) == d && Due(d, 0) == []
    ensures Firings([], 0) == [] && Elapsed([]) == 0 && PositivePeriods([])
  {
    PostponedTwice(Deadlines(pending, 0), 0, 0);
  }

  class Performer {
    var pending: seq<Deferred>
    var log: seq<Event>

    ghost predicate Valid()
      reads this
    {
      Ordered(pending)
    }

    constructor ()
      ensures Valid() && pending == [] && log == []
    {
      pending, log := [], [];
    }

    method Defer(delay: int, action: Action)
      requires Valid()
      modifies this
      ensures Valid()
      ensures if delay <= 0 then log == old(log) + [Perform(action)] && pending == old(pending)
              else
                && log == old(log)
                && Deadlines(pending, 0) == Inserted(old(Deadlines(pending, 0)), Timed(delay, action))
    {
      // Apply immediately if there is no delay.
      if delay <= 0 {
        log := log + [Perform(action)];
        return;
      }
      hide Inserted, Ordered;
      ghost var x := Timed(delay, action);
      var remaining := delay;
      var i := 0;
      while i < |pending| && pending[i].delay < remaining
        invariant 0 <= i <= |pending| && pending == old(pending) && log == old(log)
        invariant 0 < remaining == delay - Sum(pending[..i])
        invariant Inserted(Deadlines(pending, 0), x)
               == Deadlines(pending[..i], 0) + Inserted(Deadlines(pending[i..], Sum(pending[..i])), x)
      {
        InsertionStep(pending, i, x);
        remaining := remaining - pending[i].delay;
        i := i + 1;
      }
      InsertionMade(pending, i, remaining, x);
      Spliced(pending, i, remaining, action);
      hide Deadlines, Sum, Reduced;
      if i < |pending| {
        pending := pending[i := Deferred(pending[i].delay - remaining, pending[i].action)];
      }
      pending := pending[..i] + [Deferred(remaining, action)] + pending[i..];
    }

    /** The time until the next action, or -1 if there is none. */
    method TimeUntilNextAction() returns (time: int)
      requires Valid()
      ensures if pending == [] then time == -1 else time == pending[0].delay == Deadlines(pending, 0)[0].at > 0
    {
      if pending == [] {
        return -1;
      }
      return pending[0].delay;
    }

    method IsEmpty() returns (r: bool)
      ensures r <==> Deadlines(pending, 0) == []
    {
      r := pending == [];
    }

    /** Performs what comes due within a time, in order, and makes the rest relative to then. */
    method Advance(time: int)
      requires Valid()
      modifies this
      ensures Valid()
      ensures Deadlines(pending, 0) == After(old(Deadlines(pending, 0)), time)
      ensures log == old(log) + Performances(Due(old(Deadlines(pending, 0)), time))
    {
      hide Due, Later, Performances, Reached, Sorted, NotBefore;
      ghost var was, done := pending, [];
      ghost var d := Deadlines(pending, 0);
      var remaining := time;
      var i := 0;
      assert pending[0..] == pending;
      ReachedFirst(d, time);
      while i < |pending|
        invariant 0 <= i <= |pending| == |was|
        invariant pending[i..] == was[i..]
        invariant Reached(d, time, done, Deadlines(was[i..], time - remaining))
        invariant log == old(log) + Performances(done)
      {
        assert pending[i] == was[i..][0] == was[i];
        pending := pending[i := Deferred(pending[i].delay - remaining, pending[i].action)];
        if pending[i].delay <= 0 {
          ghost var x := Timed(time - remaining + was[i].delay, was[i].action);
          ReachedNext(d, time, done, was, i, time - remaining);
          PerformancesAppend(done, x);
          done := done + [x];
          remaining := -pending[i].delay;
          log := log + [Perform(pending[i].action)];
          i := i + 1;
        } else {
          break;
        }
      }
      AdvancedTo(was, i, time - remaining, time, pending[i..], d, done);
      if i != 0 {
        pending := pending[i..];
      }
    }

    /** Divides a length of time between the target and the actions that come due: the target gets
        positive periods adding up to the length, and each action is performed exactly when due. */
    method RunFor(length: int)
      requires Valid()
      modifies this
      ensures Valid()
      ensures length <= 0 ==> pending == old(pending) && log == old(log)
      ensures length >= 0 ==> Deadlines(pending, 0) == After(old(Deadlines(pending, 0)), length)
      ensures length >= 0 ==> exists events ::
                && log == old(log) + events && PositivePeriods(events) && Elapsed(events) == length
                && Firings(events, 0) == Due(old(Deadlines(pending, 0)), length)
    {
      hide Deadlines, Due, Later, Postponed, After, Performances, Firings, Elapsed, PositivePeriods, Ordered;
      ghost var d := Deadlines(pending, 0);
      ghost var events: seq<Event> := [];
      var remaining := length;
      NothingYet(pending);
      while true
        invariant Valid()
        invariant length >= 0 ==> remaining >= 0
        invariant length <= 0 ==> remaining == length && pending == old(pending) && events == []
        invariant log == old(log) + events && PositivePeriods(events) && Elapsed(events) == length - remaining
        invariant Deadlines(pending, 0) == After(d, length - remaining)
        invariant Firings(events, 0) == Due(d, length - remaining)
        decreases remaining
      {
        var timeToNext := TimeUntilNextAction();
        if timeToNext == -1 || timeToNext > remaining {
          if remaining > 0 {
            PeriodOnTime(pending, remaining, events);
            RunsCompose(d, length - remaining, remaining);
            events := events + ([Target(remaining)] + Performances(Due(Deadlines(pending, 0), remaining)));
            Update(remaining);
          }
          break;
        }
        remaining := remaining - timeToNext;
        PeriodOnTime(pending, timeToNext, events);
        RunsCompose(d, length - remaining - timeToNext, timeToNext);
        events := events + ([Target(timeToNext)] + Performances(Due(Deadlines(pending, 0), timeToNext)));
        Update(timeToNext);
      }
    }

    method Update(period: int)
      requires Valid()
      modifies this
      ensures Valid()
      ensures Deadlines(pending, 0) == After(old(Deadlines(pending, 0)), period)
      ensures log == old(log) + ([Target(period)] + Performances(Due(old(Deadlines(pending, 0)), period)))
    {
      log := log + [Target(period)];
      Advance(period);
    }
  }

  lemma InsertedAfter(next: Timed, d: seq<Timed>, x: Timed)
    requires next.at < x.at
    ensures Inserted([next] + d, x) == [next] + Inserted(d, x)
  {
    assert ([next] + d)[1..] == d;
  }

  lemma InsertionStep(pending: seq<Deferred>, i: nat, x: Timed)
    requires i < |pending| && Sum(pending[..i]) + pending[i].delay < x.at
    ensures Sum(pending[..i + 1]) == Sum(pending[..i]) + pending[i].delay
    ensures Deadlines(pending[..i], 0) + Inserted(Deadlines(pending[i..], Sum(pending[..i])), x)
         == Deadlines(pending[..i + 1], 0) + Inserted(Deadlines(pending[i + 1..], Sum(pending[..i + 1])), x)
  {
    hide Inserted, Sum;
    var front, base := pending[..i], Sum(pending[..i]);
    var next := Timed(base + pending[i].delay, pending[i].action);
    SumAppend(front, pending[i]);
    assert pending[..i + 1] == front + [pending[i]];
    DeadlinesConcat(front, [pending[i]], 0);
    assert pending[i..][1..] == pending[i + 1..];
    assert Deadlines(pending[..i + 1], 0) == Deadlines(front, 0) + [next];
    assert Deadlines(pending[i..], base) == [next] + Deadlines(pending[i + 1..], next.at);
    InsertedAfter(next, Deadlines(pending[i + 1..], next.at), x);
  }

  /** A newcomer put before the i-th action, whose delay then follows on from it. */
  function WithNewcomer(pending: seq<Deferred>, i: nat, inserted: Deferred): seq<Deferred>
    requires i <= |pending|
  {
    pending[..i] + ([inserted] + Reduced(pending[i..], inserted.delay))
  }

  lemma Spliced(pending: seq<Deferred>, i: nat, remaining: int, action: Action)
    requires i <= |pending|
    ensures var reduced := if i < |pending| then pending[i := Deferred(pending[i].delay - remaining, pending[i].action)]
                           else pending;
            reduced[..i] + [Deferred(remaining, action)] + reduced[i..]
              == WithNewcomer(pending, i, Deferred(remaining, action))
  {
  }

  lemma InsertionMade(pending: seq<Deferred>, i: nat, remaining: int, x: Timed)
    requires Ordered(pending) && i <= |pending| && 0 < remaining == x.at - Sum(pending[..i])
    requires i < |pending| ==> pending[i].delay >= remaining
    ensures var made := WithNewcomer(pending, i, Deferred(remaining, x.action));
            && Ordered(made)
            && Deadlines(made, 0)
                 == Deadlines(pending[..i], 0) + Inserted(Deadlines(pending[i..], Sum(pending[..i])), x)
  {
    hide Deadlines, Inserted, Sum, Ordered, Reduced;
    assert pending == pending[..i] + pending[i..];
    OrderedInserted(pending[..i], pending[i..], Deferred(remaining, x.action));
    InsertionPoint(pending[..i], pending[i..], remaining, x);
  }

  /** The insertion itself, the newcomer's remaining delay being taken off its successor, if any. */
  lemma InsertionPoint(front: seq<Deferred>, back: seq<Deferred>, remaining: int, x: Timed)
    requires remaining == x.at - Sum(front)
    requires back != [] ==> back[0].delay >= remaining
    ensures Deadlines(front, 0) + Inserted(Deadlines(back, Sum(front)), x)
         == Deadlines(front + ([Deferred(remaining, x.action)] + Reduced(back, remaining)), 0)
  {
    hide *;
    DeadlinesConcat(front, [Deferred(remaining, x.action)] + Reduced(back, remaining), 0);
    InsertedFirst(back, Sum(front), remaining, x);
  }

  lemma InsertedFirst(back: seq<Deferred>, base: int, remaining: int, x: Timed)
    requires remaining == x.at - base
    requires back != [] ==> back[0].delay >= remaining
    ensures Inserted(Deadlines(back, base), x)
         == Deadlines([Deferred(remaining, x.action)] + Reduced(back, remaining), base)
  {
    assert ([Deferred(remaining, x.action)] + Reduced(back, remaining))[1..] == Reduced(back, remaining);
    if back != [] {
      assert Reduced(back, remaining)[1..] == back[1..];
    }
  }

  lemma OrderedInserted(front: seq<Deferred>, back: seq<Deferred>, inserted: Deferred)
    requires Ordered(front + back) && inserted.delay > 0
    requires back != [] ==> back[0].delay >= inserted.delay
    ensures Ordered(front + ([inserted] + Reduced(back, inserted.delay)))
  {
    var whole := front + back;
    assert forall i | 0 <= i < |front| :: front[i] == whole[i];
    assert forall i | 0 <= i < |back| :: back[i] == whole[|front| + i];
  }

  /** A list with its first delay reduced. */
  function Reduced(pending: seq<Deferred>, reduction: int): seq<Deferred> {
    if pending == [] then []
    else [Deferred(pending[0].delay - reduction, pending[0].action)] + pending[1..]
  }

  /** An advance has performed the deadlines done, and has the rest before it. */
  ghost predicate Reached(d: seq<Timed>, time: int, done: seq<Timed>, rest: seq<Timed>) {
    Due(d, time) == done + Due(rest, time) && Later(d, time) == Later(rest, time)
  }

  lemma ReachedFirst(d: seq<Timed>, time: int)
    ensures Reached(d, time, [], d) && Performances([]) == []
  {
  }

  lemma ReachedNext(d: seq<Timed>, time: int, done: seq<Timed>, was: seq<Deferred>, i: nat, now: int)
    requires i < |was| && Reached(d, time, done, Deadlines(was[i..], now))
    requires now + was[i].delay <= time
    ensures var at := now + was[i].delay;
            Reached(d, time, done + [Timed(at, was[i].action)], Deadlines(was[i + 1..], at))
  {
    assert was[i..][1..] == was[i + 1..];
  }

  /** What is left when an advance stops, its first delay having been reduced. */
  lemma AdvancedTo(was: seq<Deferred>, i: nat, reached: int, time: int, left: seq<Deferred>, d: seq<Timed>,
                   done: seq<Timed>)
    requires i <= |was| && |left| == |was| - i
    requires left != [] ==>
               && left == [Deferred(was[i].delay - (time - reached), was[i].action)] + was[i + 1..]
               && left[0].delay > 0
    requires Reached(d, time, done, Deadlines(was[i..], reached))
    ensures Due(d, time) == done
    ensures Deadlines(left, 0) == After(d, time)
  {
    var rest := Deadlines(was[i..], reached);
    Rebased(was[i..], reached, -time);
    if left != [] {
      assert was[i..][0] == was[i] && was[i..][1..] == was[i + 1..] == left[1..];
    }
    assert done + [] == done;
  }
}
