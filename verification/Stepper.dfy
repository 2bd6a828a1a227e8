/** A Bresenham-like stepper, which says how many output steps to take for steps at an unrelated input rate. */
module Stepper {
  import opened Arithmetic

  datatype Rates = Rates(output: nat, input: nat) {
    predicate Valid() {
      input > 0
    }

    function WholeStep(): nat
      requires Valid()
    {
      output / input
    }

    function Up(): nat
      requires Valid()
    {
      output % input * 2
    }

    function Down(): int {
      input * 2
    }
  }

  // Steps, one at a time or many.

  /** The output steps so far, and the error. */
  datatype State = State(outputs: int, error: int)

  function Initial(r: Rates): State {
    State(0, -r.Down())
  }

  function One(r: Rates, s: State): State
    requires r.Valid()
  {
    var error := s.error + r.Up();
    if error > 0 then State(s.outputs + r.WholeStep() + 1, error - r.Down())
    else State(s.outputs + r.WholeStep(), error)
  }

  function Many(r: Rates, s: State, n: nat): State
    requires r.Valid()
  {
    var error := s.error + r.Up() * n;
    if error > 0 then State(s.outputs + r.WholeStep() * n + 1 + error / r.Down(), error % r.Down() - r.Down())
    else State(s.outputs + r.WholeStep() * n, error)
  }

  datatype Act = Step | Batch(n: nat)

  function Inputs(acts: seq<Act>): nat
    decreases |acts|
  {
    if acts == [] then 0
    else
      var last := acts[|acts| - 1];
      Inputs(acts[..|acts| - 1]) + if last.Step? then 1 else last.n
  }

  function Run(r: Rates, acts: seq<Act>): State
    requires r.Valid()
    decreases |acts|
  {
    if acts == [] then Initial(r)
    else
      var s, last := Run(r, acts[..|acts| - 1]), acts[|acts| - 1];
      if last.Step? then One(r, s) else Many(r, s, last.n)
  }

  /** The error is exactly what separates the outputs from the inputs, scaled, and is bounded. */
  predicate Exact(r: Rates, s: State, inputs: nat) {
    && 2 * inputs * r.output == 2 * r.input * s.outputs + s.error + 2 * r.input
    && -2 * r.input <= s.error <= 0
  }

  lemma WholeAndPart(r: Rates, n: nat)
    requires r.Valid()
    ensures 2 * n * r.output == r.Down() * (r.WholeStep() * n) + r.Up() * n
  {
    Divides(r.output, r.input);
    var q, p := r.output / r.input, r.output % r.input;
    assert r.output == q * r.input + p;
    assert 2 * n * r.output == 2 * n * (q * r.input) + 2 * n * p;
  }

  lemma Distributed(a: int, x: int, y: int)
    ensures a * (x + y) == a * x + a * y
  {
  }

  lemma OneExact(r: Rates, s: State, inputs: nat)
    requires r.Valid() && Exact(r, s, inputs)
    ensures Exact(r, One(r, s), inputs + 1)
  {
    WholeAndPart(r, 1);
    Distributed(2 * r.output, inputs, 1);
    Distributed(2 * r.input, s.outputs, r.WholeStep());
    Distributed(2 * r.input, s.outputs + r.WholeStep(), 1);
    assert r.Up() < r.Down();
  }

  lemma ManyExact(r: Rates, s: State, inputs: nat, n: nat)
    requires r.Valid() && Exact(r, s, inputs)
    ensures Exact(r, Many(r, s, n), inputs + n)
  {
    WholeAndPart(r, n);
    hide Rates.Up, Rates.WholeStep;
    Totals(inputs, n, r.output);
    Advanced(2 * inputs * r.output, 2 * n * r.output, r.Down(), s.outputs, s.error, r.WholeStep() * n, r.Up() * n);
  }

  lemma Totals(a: int, b: int, output: int)
    ensures 2 * (a + b) * output == 2 * a * output + 2 * b * output
  {
    Distribute(2 * a, 2 * b, output);
  }

  lemma Advanced(a: int, b: int, d: int, outputs: int, error: int, whole: int, up: int)
    requires d > 0 && a == d * outputs + error + d && b == d * whole + up
    ensures var now := error + up;
            a + b == if now > 0 then d * (outputs + whole + 1 + now / d) + (now % d - d) + d
                     else d * (outputs + whole) + now + d
    ensures error + up > 0 ==> 0 <= (error + up) % d < d
  {
    Distributed(d, outputs, whole);
    if error + up > 0 {
      ErrorTaken(error + up, d);
      Distributed(d, outputs + whole, 1 + (error + up) / d);
    }
  }

  lemma ErrorTaken(error: int, d: int)
    requires error > 0 && d > 0
    ensures d * (1 + error / d) + (error % d - d) == error && 0 <= error % d < d
  {
    Divides(error, d);
    Distributed(d, 1, error / d);
  }

  /** There is no drift, however the steps are batched. */
  lemma {:induction false} NeverDrifts(r: Rates, acts: seq<Act>)
    requires r.Valid()
    ensures Exact(r, Run(r, acts), Inputs(acts))
    decreases |acts|
  {
    hide Exact, One, Many;
    if acts == [] {
      InitiallyExact(r);
    } else {
      var before, last := acts[..|acts| - 1], acts[|acts| - 1];
      NeverDrifts(r, before);
      if last.Step? {
        OneExact(r, Run(r, before), Inputs(before));
      } else {
        ManyExact(r, Run(r, before), Inputs(before), last.n);
      }
    }
  }

  lemma InitiallyExact(r: Rates)
    requires r.Valid()
    ensures Exact(r, Initial(r), 0)
  {
  }

  /** The parts of output steps in some inputs come to two or more whole ones and nothing over. */
  predicate WholeParts(r: Rates, inputs: nat)
    requires r.Valid()
  {
    var part := inputs * (r.output % r.input);
    part >= 2 * r.input && part % r.input == 0
  }

  /** Two runs with the same inputs are never more than one output apart, and only if the parts of output
      steps come to two or more whole ones; with those, one batch and single steps do differ. */
  lemma NeverFarApart(r: Rates, a: seq<Act>, b: seq<Act>)
    requires r.Valid() && Inputs(a) == Inputs(b)
    ensures var x, y := Run(r, a).outputs, Run(r, b).outputs;
            -1 <= x - y <= 1 && (x != y ==> WholeParts(r, Inputs(a)))
  {
    hide *;
    var s, t, n := Run(r, a), Run(r, b), Inputs(a);
    if r.Up() * n <= r.Down() {
      Unwrapped(r, a);
      Unwrapped(r, b);
    } else {
      NeverDrifts(r, a);
      NeverDrifts(r, b);
      Compared(r, s, t, n);
      if s.outputs != t.outputs {
        WholeOutputs(r, if s.error == 0 then s else t, n);
      }
    }
  }

  /** Until the parts come to more than one output step there is only one way to take them. */
  lemma {:induction false} Unwrapped(r: Rates, acts: seq<Act>)
    requires r.Valid() && r.Up() * Inputs(acts) <= r.Down()
    ensures Run(r, acts) == State(r.WholeStep() * Inputs(acts), r.Up() * Inputs(acts) - r.Down())
    decreases |acts|
  {
    if acts != [] {
      var before, last := acts[..|acts| - 1], acts[|acts| - 1];
      var n := if last.Step? then 1 else last.n;
      Distributed(r.Up(), Inputs(before), n);
      Distributed(r.WholeStep(), Inputs(before), n);
      Monotonic(0, n, r.Up());
      Unwrapped(r, before);
    }
  }

  /** An error of nothing means that the inputs come to whole outputs. */
  lemma WholeOutputs(r: Rates, s: State, n: nat)
    requires r.Valid() && Exact(r, s, n) && s.error == 0 && r.Up() * n > r.Down()
    ensures WholeParts(r, n)
  {
    WholeAndPart(r, n);
    DoubledPart(r, n);
    QuotientOfPart(n * (r.output % r.input), r.input, s.outputs, r.WholeStep() * n);
  }

  lemma DoubledPart(r: Rates, n: nat)
    requires r.Valid()
    ensures r.Up() * n == 2 * (n * (r.output % r.input)) && n * (r.output % r.input) >= 0
  {
  }

  lemma QuotientOfPart(part: int, d: int, outputs: int, whole: int)
    requires d > 0 && 2 * d * whole + 2 * part == 2 * d * outputs + 2 * d && 2 * part > 2 * d
    ensures part >= 2 * d && part % d == 0
  {
    hide *;
    var q := outputs + 1 - whole;
    Distributed(2 * d, outputs, 1);
    Distributed(2 * d, whole, q);
    assert part == q * d;
    DivisionIsUnique(part, d, q, 0);
    Monotonic(q, 1, d);
  }

  lemma AtMostOne(k: int, d: int, e: int)
    requires d > 0 && k * d == e && -d <= e <= d
    ensures -1 <= k <= 1 && (k != 0 ==> e == d || e == -d)
  {
    Monotonic(2, k, d);
    Monotonic(k, -2, d);
  }

  // One batch against as many single steps, from any state.

  function Singly(r: Rates, s: State, n: nat): State
    requires r.Valid()
    decreases n
  {
    if n == 0 then s else One(r, Singly(r, s, n - 1))
  }

  /** Single steps never leave the error at its lowest once it has been taken down. */
  lemma {:induction false} SinglyExact(r: Rates, s: State, inputs: nat, n: nat)
    requires r.Valid() && Exact(r, s, inputs)
    ensures Exact(r, Singly(r, s, n), inputs + n)
    ensures s.error + r.Up() * n <= 0 ==> Singly(r, s, n) == Many(r, s, n)
    ensures s.error + r.Up() * n > 0 ==> Singly(r, s, n).error > -r.Down()
    decreases n
  {
    if n > 0 {
      SinglyExact(r, s, inputs, n - 1);
      OneExact(r, Singly(r, s, n - 1), inputs + n - 1);
      Distributed(r.Up(), n - 1, 1);
      Distributed(r.WholeStep(), n - 1, 1);
      hide Exact;
    }
  }

  /** Wherever a stepper has got to, a batch gives one more output than single steps exactly when it takes the
      error to a positive multiple of what is subtracted for an output, and otherwise the same number. */
  lemma BatchAgainstSingles(r: Rates, s: State, inputs: nat, n: nat)
    requires r.Valid() && Exact(r, s, inputs)
    ensures var error := s.error + r.Up() * n;
            Many(r, s, n).outputs - Singly(r, s, n).outputs ==
              if error > 0 && error % r.Down() == 0 then 1 else 0
  {
    SinglyExact(r, s, inputs, n);
    ManyExact(r, s, inputs, n);
    hide Singly, Exact;
    Compared(r, Many(r, s, n), Singly(r, s, n), inputs + n);
  }

  /** From the start that is when the parts come to two or more whole output steps. */
  lemma BatchFromStart(r: Rates, n: nat)
    requires r.Valid()
    ensures Many(r, Initial(r), n).outputs - Singly(r, Initial(r), n).outputs == if WholeParts(r, n) then 1 else 0
  {
    InitiallyExact(r);
    BatchAgainstSingles(r, Initial(r), 0, n);
    DoubledPart(r, n);
    hide Singly, Many, Exact, Rates.Up;
    PartAndError(n * (r.output % r.input), r.input);
  }

  lemma PartAndError(part: int, d: int)
    requires d > 0 && part >= 0
    ensures var error := 2 * part - 2 * d;
            (error > 0 && error % (2 * d) == 0) <==> (part >= 2 * d && part % d == 0)
  {
    if part > d {
      WholeSteps(part, d);
    }
  }

  /** Two exact states after the same inputs. */
  lemma Compared(r: Rates, b: State, s: State, n: nat)
    requires r.Valid() && Exact(r, b, n) && Exact(r, s, n)
    ensures -1 <= b.outputs - s.outputs <= 1
    ensures b.outputs - s.outputs == 1 ==> s.error == 0 && b.error == -r.Down()
    ensures b.outputs - s.outputs == -1 ==> b.error == 0 && s.error == -r.Down()
    ensures b.outputs == s.outputs ==> b.error == s.error
  {
    OutputsApart(2 * n * r.output, 2 * r.input, b.outputs, b.error, s.outputs, s.error);
  }

  lemma OutputsApart(total: int, d: int, x: int, ex: int, y: int, ey: int)
    requires d > 0 && total == d * x + ex + d && total == d * y + ey + d && -d <= ex <= 0 && -d <= ey <= 0
    ensures -1 <= x - y <= 1
    ensures x - y == 1 ==> ey == 0 && ex == -d
    ensures x - y == -1 ==> ex == 0 && ey == -d
    ensures x == y ==> ex == ey
  {
    Distributed(d, x - y, y);
    AtMostOne(x - y, d, ey - ex);
  }

  /** Doubling both, and taking one step off, leaves divisibility alone. */
  lemma WholeSteps(part: int, d: int)
    requires d > 0 && part > d
    ensures (2 * part - 2 * d) % (2 * d) == 0 <==> part % d == 0
    ensures part % d == 0 ==> part >= 2 * d
  {
    Divides(part, d);
    Divides(2 * part - 2 * d, 2 * d);
    if part % d == 0 {
      var q := part / d;
      Distributed(2 * d, q, -1);
      DivisionIsUnique(2 * part - 2 * d, 2 * d, q - 1, 0);
      Monotonic(q, 1, d);
    } else if (2 * part - 2 * d) % (2 * d) == 0 {
      var q := (2 * part - 2 * d) / (2 * d);
      assert 2 * part == 2 * (q * d) + 2 * d;
      Distributed(d, q, 1);
      DivisionIsUnique(part, d, q + 1, 0);
    }
  }

  /** A stepper; the ghost counts are of what has gone into it and come out. */
  class Stepper {
    var accumulatedError: int
    const rates: Rates
    const wholeStep: nat
    const adjustmentUp: nat
    const adjustmentDown: nat
    ghost var inputs: nat
    ghost var outputs: int

    ghost predicate Valid()
      reads this
    {
      && rates.Valid()
      && wholeStep == rates.WholeStep() && adjustmentUp == rates.Up() && adjustmentDown == rates.Down()
      && Exact(rates, State(outputs, accumulatedError), inputs)
    }

    constructor (outputRate: nat, inputRate: nat)
      requires inputRate > 0
      ensures Valid() && rates == Rates(outputRate, inputRate) && inputs == 0 && outputs == 0
    {
      rates := Rates(outputRate, inputRate);
      accumulatedError := -(inputRate * 2);
      wholeStep, adjustmentUp, adjustmentDown := outputRate / inputRate, outputRate % inputRate * 2, inputRate * 2;
      inputs, outputs := 0, 0;
      new;
      InitiallyExact(rates);
    }

    method Step() returns (update: nat)
      requires Valid()
      modifies this
      ensures Valid() && inputs == old(inputs) + 1 && outputs == old(outputs) + update
      ensures State(outputs, accumulatedError) == One(rates, old(State(outputs, accumulatedError)))
    {
      OneExact(rates, State(outputs, accumulatedError), inputs);
      hide Exact;
      update := wholeStep;
      accumulatedError := accumulatedError + adjustmentUp;
      if accumulatedError > 0 {
        update := update + 1;
        accumulatedError := accumulatedError - adjustmentDown;
      }
      inputs, outputs := inputs + 1, outputs + update;
    }

    method StepMany(n: nat) returns (update: nat)
      requires Valid()
      modifies this
      ensures Valid() && inputs == old(inputs) + n && outputs == old(outputs) + update
      ensures State(outputs, accumulatedError) == Many(rates, old(State(outputs, accumulatedError)), n)
    {
      ManyExact(rates, State(outputs, accumulatedError), inputs, n);
      hide Exact;
      update := wholeStep * n;
      accumulatedError := accumulatedError + adjustmentUp * n;
      if accumulatedError > 0 {
        update := update + 1 + accumulatedError / adjustmentDown;
        accumulatedError := accumulatedError % adjustmentDown - adjustmentDown;
      }
      inputs, outputs := inputs + n, outputs + update;
    }
  }
}
