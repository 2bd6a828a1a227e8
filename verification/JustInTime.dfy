/** An actor that saves up time for an object and passes it on when it is looked at, scaled. The object is
    modelled by the periods it has been run for. */
module JustInTime {
  import opened Arithmetic
  import opened ClockReceiver

  datatype Preference = None | JustInTime | RealTime

  /** The scaling: local time is multiplied, then divided, and converted to a scale with fewer clocks. */
  datatype Scale = Scale(multiplier: int, divider: int, local: nat, target: nat) {
    predicate Valid() {
      multiplier >= 1 && divider >= 1 && target <= local
    }

    /** The multiplied local time that is worth one unit of the object's. */
    function Period(): (p: int)
      requires Valid()
      ensures p >= 1
    {
      Monotonic(1, divider, Pow2(local - target));
      divider * Pow2(local - target)
    }
  }

  // The specification: time kept back, and what the object has been run for.

  datatype State = State(residue: int, flushed: bool, runs: seq<int>)

  const INITIAL := State(0, true, [])

  function Added(c: Scale, s: State, time: int): State {
    s.(residue := s.residue + time * c.multiplier, flushed := false)
  }

  /** An unscaled object is run even for no time at all. */
  function Flushed(c: Scale, s: State): State
    requires c.Valid()
  {
    if s.flushed then s
    else
      var duration := s.residue / c.Period();
      State(s.residue % c.Period(), true, if c.divider == 1 || duration > 0 then s.runs + [duration] else s.runs)
  }

  /** What is done to an actor: time is added under the object's preference at the time, or it is flushed,
      either for access to the object or, with the addition, because a sequence point was reached. */
  datatype Act = Add(time: nat, preference: Preference, sequencePoint: bool) | Flush

  function Apply(c: Scale, s: State, a: Act): State
    requires c.Valid()
  {
    match a
    case Flush => Flushed(c, s)
    case Add(time, preference, sequencePoint) =>
      if preference.None? then s
      else if preference.RealTime? || sequencePoint then Flushed(c, Added(c, s, time))
      else Added(c, s, time)
  }

  function Run(c: Scale, acts: seq<Act>): State
    requires c.Valid()
    decreases |acts|
  {
    if acts == [] then INITIAL else Apply(c, Run(c, acts[..|acts| - 1]), acts[|acts| - 1])
  }

  /** The time added, other than while the object had no use for any. */
  function Accepted(acts: seq<Act>): nat
    decreases |acts|
  {
    if acts == [] then 0
    else
      var last := acts[|acts| - 1];
      Accepted(acts[..|acts| - 1]) + if last.Add? && !last.preference.None? then last.time else 0
  }

  /** No time is lost or gained, and less than one unit is left after a flush. */
  ghost predicate Conserves(c: Scale, s: State, accepted: int)
    requires c.Valid()
  {
    && Sum(s.runs) * c.Period() + s.residue == accepted * c.multiplier
    && s.residue >= 0 && (s.flushed ==> s.residue < c.Period())
    && forall i | 0 <= i < |s.runs| :: s.runs[i] >= 0
  }

  lemma FlushConserves(c: Scale, s: State, accepted: int)
    requires c.Valid() && Conserves(c, s, accepted)
    ensures Conserves(c, Flushed(c, s), accepted)
  {
    if !s.flushed {
      var p, duration := c.Period(), s.residue / c.Period();
      Divides(s.residue, p);
      SumAppend(s.runs, duration);
      Distribute(Sum(s.runs), duration, p);
    }
  }

  lemma AddConserves(c: Scale, s: State, time: nat, accepted: int)
    requires c.Valid() && Conserves(c, s, accepted)
    ensures Conserves(c, Added(c, s, time), accepted + time)
  {
    Monotonic(0, time, c.multiplier);
    Distribute(accepted, time, c.multiplier);
  }

  /** However additions and flushes are interleaved. */
  lemma {:induction false} RunConserves(c: Scale, acts: seq<Act>)
    requires c.Valid()
    ensures Conserves(c, Run(c, acts), Accepted(acts))
    decreases |acts|
  {
    if acts != [] {
      var before, last := Run(c, acts[..|acts| - 1]), acts[|acts| - 1];
      var accepted := Accepted(acts[..|acts| - 1]);
      RunConserves(c, acts[..|acts| - 1]);
      if last.Flush? {
        FlushConserves(c, before, accepted);
      } else if !last.preference.None? {
        AddConserves(c, before, last.time, accepted);
        FlushConserves(c, Added(c, before, last.time), accepted + last.time);
      }
      hide Conserves, Added, Flushed;
    }
  }

  /** Once flushed, what the object has been run for in all, and what is kept back, depend only on the time
      added: it is as if it had all been added and flushed at once. */
  lemma FlushesDoNotMatter(c: Scale, acts: seq<Act>)
    requires c.Valid()
    ensures var s := Run(c, acts + [Flush]);
            && Sum(s.runs) == Accepted(acts) * c.multiplier / c.Period()
            && s.residue == Accepted(acts) * c.multiplier % c.Period()
  {
    var flushed := acts + [Flush];
    assert flushed[..|flushed| - 1] == acts;
    var s := Run(c, flushed);
    RunConserves(c, flushed);
    FlushedIs(c, Run(c, acts));
    hide Run, Accepted, Flushed;
    DivisionIsUnique(Accepted(acts) * c.multiplier, c.Period(), Sum(s.runs), s.residue);
  }

  lemma FlushedIs(c: Scale, s: State)
    requires c.Valid()
    ensures Flushed(c, s).flushed
  {
  }

  // Any object whose running is additive.

  /** An object's state after some runs. */
  function Ran<S>(step: (S, int) -> S, s: S, runs: seq<int>): S {
    if runs == [] then s else step(Ran(step, s, runs[..|runs| - 1]), runs[|runs| - 1])
  }

  ghost predicate Additive<S(!new)>(step: (S, int) -> S) {
    && (forall s :: step(s, 0) == s)
    && (forall s, a: nat, b: nat :: step(step(s, a), b) == step(s, a + b))
  }

  lemma {:induction false} RanForSum<S(!new)>(step: (S, int) -> S, s: S, runs: seq<int>)
    requires Additive(step) && forall i | 0 <= i < |runs| :: runs[i] >= 0
    ensures Sum(runs) >= 0 && Ran(step, s, runs) == step(s, Sum(runs))
    decreases |runs|
  {
    if runs != [] {
      RanForSum(step, s, runs[..|runs| - 1]);
    }
  }

  /** Such an object ends in the same state however its flushes were placed. */
  lemma SameStateHoweverFlushed<S(!new)>(step: (S, int) -> S, s: S, c: Scale, a: seq<Act>, b: seq<Act>)
    requires Additive(step) && c.Valid() && Accepted(a) == Accepted(b)
    ensures Ran(step, s, Run(c, a + [Flush]).runs) == Ran(step, s, Run(c, b + [Flush]).runs)
  {
    FlushesDoNotMatter(c, a);
    FlushesDoNotMatter(c, b);
    RunConserves(c, a + [Flush]);
    RunConserves(c, b + [Flush]);
    RanForSum(step, s, Run(c, a + [Flush]).runs);
    RanForSum(step, s, Run(c, b + [Flush]).runs);
  }

  // The source's prediction, and what adding time really does.

  predicate Predicted(hasSequencePoints: bool, timeUntilEvent: int, time: nat) {
    hasSequencePoints && time >= timeUntilEvent
  }

  predicate Reached(c: Scale, timeUntilEvent: int, time: nat) {
    timeUntilEvent <= time * c.multiplier
  }

  /** Whether adding some time causes a flush because a sequence point is reached. An object with no use for
      time never looks, and one run in real time has been flushed already. */
  predicate SequencePointFlush(c: Scale, preference: Preference, hasSequencePoints: bool, timeUntilEvent: int,
                               time: nat) {
    preference.JustInTime? && hasSequencePoints && Reached(c, timeUntilEvent, time)
  }

  /** The prediction ignores the object's preference and the multiplier. It is right for all times exactly if
      there are no sequence points, or the preference is just-in-time and either there is no scaling up or the
      event is no more than one unit away. */
  lemma PredictionRight(c: Scale, preference: Preference, hasSequencePoints: bool, timeUntilEvent: int)
    requires c.Valid()
    ensures (forall time: nat :: Predicted(hasSequencePoints, timeUntilEvent, time)
                                 <==> SequencePointFlush(c, preference, hasSequencePoints, timeUntilEvent, time))
            <==> !hasSequencePoints
                 || (preference.JustInTime? && (c.multiplier == 1 || timeUntilEvent <= 1))
  {
    forall time: nat ensures time <= time * c.multiplier && (time == 0 ==> time * c.multiplier == 0) {
      Monotonic(1, c.multiplier, time);
    }
    if hasSequencePoints && !preference.JustInTime? {
      var time := if timeUntilEvent > 0 then timeUntilEvent else 0;
      assert Predicted(hasSequencePoints, timeUntilEvent, time);
    } else if c.multiplier > 1 && timeUntilEvent > 1 {
      var time := timeUntilEvent - 1;
      Monotonic(2, c.multiplier, time);
      assert !Predicted(hasSequencePoints, timeUntilEvent, time);
      assert Reached(c, timeUntilEvent, time);
    }
  }

  /** A just-in-time object is at least never predicted a flush that does not come. */
  lemma PredictedThenFlushed(c: Scale, hasSequencePoints: bool, timeUntilEvent: int, time: nat)
    requires c.Valid() && Predicted(hasSequencePoints, timeUntilEvent, time)
    ensures SequencePointFlush(c, JustInTime, hasSequencePoints, timeUntilEvent, time)
  {
    Monotonic(1, c.multiplier, time);
  }

  /** It fails both ways: without any use for time a flush is predicted that does not come, and with a
      multiplier of two one comes that was not predicted. */
  lemma PredictionWrong(c: Scale)
    requires c.Valid()
    ensures c.multiplier == 1 ==> Predicted(true, 1, 1) && !SequencePointFlush(c, None, true, 1, 1)
    ensures c.multiplier == 2 ==> !Predicted(true, 2, 1) && SequencePointFlush(c, JustInTime, true, 2, 1)
  {
  }

  /** An actor; hasSequencePoints says whether its object has any. */
  class JustInTimeActor {
    const scale: Scale
    const hasSequencePoints: bool
    const timeSinceUpdate: Clocks
    var timeUntilEvent: int
    var timeOverrun: int
    var isFlushed: bool
    var didFlush: bool
    var preference: Preference
    var runs: seq<int>

    ghost predicate Valid()
      reads this, timeSinceUpdate
    {
      scale.Valid() && timeSinceUpdate.denominator == scale.local && timeSinceUpdate.length >= 0
    }

    function Snapshot(): State
      reads this, timeSinceUpdate
    {
      State(timeSinceUpdate.length, isFlushed, runs)
    }

    constructor (scale: Scale, hasSequencePoints: bool)
      requires scale.Valid()
      ensures Valid() && fresh(timeSinceUpdate) && this.scale == scale && Snapshot() == INITIAL
      ensures this.hasSequencePoints == hasSequencePoints && timeUntilEvent == 0
    {
      this.scale, this.hasSequencePoints := scale, hasSequencePoints;
      timeSinceUpdate := new Clocks(0, scale.local);
      timeUntilEvent, timeOverrun, isFlushed, didFlush, preference, runs := 0, 0, true, false, JustInTime, [];
    }

    /** Adds time. The object's next sequence point is an answer it would give if asked after a flush. */
    method Add(time: nat, next: int) returns (flushed: bool)
      requires Valid() && next > 0
      modifies this, timeSinceUpdate
      ensures Valid()
      ensures var reached := SequencePointFlush(scale, old(preference), hasSequencePoints, old(timeUntilEvent), time);
              && Snapshot() == Apply(scale, old(Snapshot()), Act.Add(time, old(preference), reached))
              && flushed == (old(preference).RealTime? || reached)
              && preference == old(preference)
      ensures var left := old(timeUntilEvent) - time * scale.multiplier;
              if SequencePointFlush(scale, old(preference), hasSequencePoints, old(timeUntilEvent), time)
              then timeUntilEvent == next * scale.Period() && timeOverrun == Truncated(left, scale.divider)
              else if old(preference).JustInTime? && hasSequencePoints
              then timeUntilEvent == left && timeOverrun == old(timeOverrun)
              else timeUntilEvent == old(timeUntilEvent) && timeOverrun == old(timeOverrun)
    {
      if preference.None? {
        return false;
      }
      timeSinceUpdate.Add(time * scale.multiplier);
      Monotonic(0, time, scale.multiplier);
      isFlushed := false;
      if preference.RealTime? {
        Flush();
        return true;
      }
      if hasSequencePoints {
        timeUntilEvent := timeUntilEvent - time * scale.multiplier;
        if timeUntilEvent <= 0 {
          timeOverrun := Truncated(timeUntilEvent, scale.divider);
          Flush();
          UpdateSequencePoint(next);
          return true;
        }
      }
      return false;
    }

    method Flush()
      requires Valid()
      modifies this, timeSinceUpdate
      ensures Valid() && Snapshot() == Flushed(scale, old(Snapshot())) && isFlushed
      ensures preference == old(preference) && timeUntilEvent == old(timeUntilEvent) && timeOverrun == old(timeOverrun)
      ensures didFlush == (old(didFlush) || !old(isFlushed))
    {
      if !isFlushed {
        didFlush, isFlushed := true, true;
        ghost var length := timeSinceUpdate.length;
        var duration;
        if scale.divider == 1 {
          duration := timeSinceUpdate.Flush(scale.target);
          UnitPeriod(scale);
          runs := runs + [duration];
        } else {
          duration := timeSinceUpdate.Divide(scale.divider, scale.target);
          if duration > 0 {
            runs := runs + [duration];
          }
        }
        DivisionIsUnique(length, scale.Period(), duration, timeSinceUpdate.length);
      }
    }

    /** The object's answer is in its own units. */
    method UpdateSequencePoint(next: int)
      requires next > 0 && scale.Valid()
      modifies `timeUntilEvent
      ensures hasSequencePoints ==> timeUntilEvent == next * scale.Period()
    {
      if hasSequencePoints {
        var time := next * scale.divider;
        timeUntilEvent := time * Pow2(scale.local - scale.target);
        Associate(next, scale.divider, Pow2(scale.local - scale.target));
      }
    }

    method DidFlush() returns (r: bool)
      modifies `didFlush
      ensures r == old(didFlush) && !didFlush
    {
      r := didFlush;
      didFlush := false;
    }

    /** Whether adding some time is predicted to reach a sequence point: never for an object without any, right
        of a just-in-time one whose time is not scaled up or whose event is close, and otherwise a flush that is
        predicted of it does come. */
    method WillFlush(time: nat) returns (r: bool)
      requires Valid()
      ensures r == Predicted(hasSequencePoints, timeUntilEvent, time)
      ensures var comes := SequencePointFlush(scale, preference, hasSequencePoints, timeUntilEvent, time);
              && (preference.JustInTime? && r ==> comes)
              && (preference.JustInTime? && (scale.multiplier == 1 || timeUntilEvent <= 1) ==> r == comes)
              && (!preference.JustInTime? ==> !comes)
    {
      Monotonic(1, scale.multiplier, time);
      if !hasSequencePoints {
        return false;
      }
      r := time >= timeUntilEvent;
    }
  }

  lemma UnitPeriod(c: Scale)
    requires c.Valid() && c.divider == 1
    ensures c.Period() == Pow2(c.local - c.target) && (c.local == c.target ==> c.Period() == 1)
  {
  }
}
