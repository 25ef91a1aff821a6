/** The fee-consistent scale factor: an at most eight-step fixed-point loop. */
module FeeScale {
  import opened Arith
  import opened Prelude
  import opened Sums

  const MAX_STEPS: nat := 8
  const STEP_TOLERANCE: real := 0.00000000000001

  function Move(lam: real, target: real, current: real): (r: real)
    ensures r >= 0.0
  {
    Abs(Times(lam, target) - current)
  }

  /** Dollars moved in each pair when targets are scaled by `lam`. */
  function Moves(lam: real, target: seq<real>, current: seq<real>): (r: seq<real>)
    requires |target| == |current|
    ensures |r| == |target|
    ensures forall p :: 0 <= p < |target| ==> r[p] == Move(lam, target[p], current[p])
  {
    seq(|target|, p requires 0 <= p < |target| => Move(lam, target[p], current[p]))
  }

  function Traded(lam: real, target: seq<real>, current: seq<real>): real
    requires |target| == |current|
  {
    Sum(Moves(lam, target, current))
  }

  function NextScale(free: real, c: real, target: seq<real>, current: seq<real>, lam: real): real
    requires |target| == |current|
  {
    if free > 0.0 then (free - Times(c, Traded(lam, target, current))) / free else 0.0
  }

  function ScaleFrom(steps: nat, free: real, c: real, target: seq<real>, current: seq<real>, lam: real): real
    requires |target| == |current|
  {
    if steps == 0 then lam
    else
      var next := NextScale(free, c, target, current, lam);
      if Abs(next - lam) < STEP_TOLERANCE then next
      else ScaleFrom(steps - 1, free, c, target, current, next)
  }

  function Scale(free: real, c: real, target: seq<real>, current: seq<real>): real
    requires |target| == |current|
  {
    ScaleFrom(MAX_STEPS, free, c, target, current, 1.0)
  }

  /** The loop as the rebalance runs it. */
  method SolveScale(free: real, c: real, target: seq<real>, current: seq<real>) returns (lam: real)
    requires |target| == |current|
    ensures lam == Scale(free, c, target, current)
  {
    lam := 1.0;
    var step := 0;
    while step < MAX_STEPS
      invariant 0 <= step <= MAX_STEPS
      invariant ScaleFrom(MAX_STEPS - step, free, c, target, current, lam) == Scale(free, c, target, current)
    {
      var tr := TradedLoop(lam, target, current);
      var next := if free > 0.0 then (free - Times(c, tr)) / free else 0.0;
      if Abs(next - lam) < STEP_TOLERANCE {
        lam := next;
        return;
      }
      lam := next;
      step := step + 1;
    }
  }

  method TradedLoop(lam: real, target: seq<real>, current: seq<real>) returns (tr: real)
    requires |target| == |current|
    ensures tr == Traded(lam, target, current)
  {
    tr := 0.0;
    ghost var moves := Moves(lam, target, current);
    for p := 0 to |target|
      invariant tr == Sum(moves[..p])
    {
      tr := tr + Abs(Times(lam, target[p]) - current[p]);
      SumExtend(moves, p);
    }
    assert moves[..|target|] == moves;
  }

  /** How far the scaled targets are from "free value minus fees". */
  function Residual(free: real, c: real, target: seq<real>, current: seq<real>, lam: real): real
    requires |target| == |current|
  {
    Times(lam, free) - (free - Times(c, Traded(lam, target, current)))
  }

  /** The contraction factor of one step: `c` itself when targets sum to `free`. */
  function Factor(free: real, c: real, target: seq<real>): real
    requires free > 0.0
  {
    Times(c, Sum(target) / free)
  }

  /** What is left to close after `steps` steps, the first of size at most `e`. */
  function Tail(q: real, steps: nat, e: real): real {
    Max(Times(Pow(q, steps), e), Times(q, STEP_TOLERANCE))
  }

  function ResidualBound(free: real, c: real, target: seq<real>): real
    requires free > 0.0
  {
    var q := Factor(free, c, target);
    Times(Tail(q, MAX_STEPS, c + q), free)
  }

  /** What the rebalance hands to the loop; fees and tolerance leave the scale in [0, 1]. */
  ghost predicate Solvable(free: real, c: real, target: seq<real>, current: seq<real>) {
    && |target| == |current|
    && free > 0.0
    && c >= 0.0
    && (forall p :: 0 <= p < |target| ==> target[p] >= 0.0 && current[p] >= 0.0)
    && Sum(current) <= free
    && c + Factor(free, c, target) <= 1.0
  }

  lemma MoveBounds(lam: real, t: real, u: real)
    requires lam >= 0.0 && t >= 0.0 && u >= 0.0
    ensures Move(lam, t, u) <= Times(lam, t) + u
  {
    hide Times;
    TimesNonNegative(lam, t);
  }

  lemma MoveLipschitz(x: real, y: real, t: real, u: real)
    requires t >= 0.0
    ensures Abs(Move(x, t, u) - Move(y, t, u)) <= Times(Abs(x - y), t)
  {
    hide Times;
    AbsOfTimes(x - y, t);
    TimesAlgebra(x, y, t);
  }

  lemma TradedBounds(lam: real, target: seq<real>, current: seq<real>)
    requires |target| == |current|
    requires lam >= 0.0
    requires forall p :: 0 <= p < |target| ==> target[p] >= 0.0 && current[p] >= 0.0
    ensures 0.0 <= Traded(lam, target, current) <= Times(lam, Sum(target)) + Sum(current)
  {
    hide Move, Times, Sum;
    var moves := Moves(lam, target, current);
    var scaled := seq(|target|, p requires 0 <= p < |target| => Times(lam, target[p]));
    var total := seq(|target|, p requires 0 <= p < |target| => scaled[p] + current[p]);
    forall p | 0 <= p < |target| ensures 0.0 <= moves[p] <= total[p] {
      MoveBounds(lam, target[p], current[p]);
    }
    SumNonNegative(moves);
    SumMonotone(moves, total);
    SumOfScaled(scaled, lam, target);
    SumOfSums(total, scaled, current);
  }

  lemma TradedLipschitz(x: real, y: real, target: seq<real>, current: seq<real>)
    requires |target| == |current|
    requires forall p :: 0 <= p < |target| ==> target[p] >= 0.0
    ensures Abs(Traded(x, target, current) - Traded(y, target, current)) <= Times(Abs(x - y), Sum(target))
  {
    hide Move, Moves, Times, Sum;
    var f, g := Moves(x, target, current), Moves(y, target, current);
    forall p | 0 <= p < |target| ensures Abs(f[p] - g[p]) <= Times(Abs(x - y), target[p]) {
      MoveLipschitz(x, y, target[p], current[p]);
    }
    SumLipschitz(f, g, Abs(x - y), target);
  }

  /** The fee equation with the quotients multiplied out. */
  lemma NextScaleTimesFree(free: real, c: real, target: seq<real>, current: seq<real>, lam: real)
    requires |target| == |current| && free > 0.0
    ensures Times(NextScale(free, c, target, current, lam), free) == free - Times(c, Traded(lam, target, current))
    ensures Times(Factor(free, c, target), free) == Times(c, Sum(target))
    ensures Residual(free, c, target, current, lam) == Times(lam - NextScale(free, c, target, current, lam), free)
  {
    hide Times, Traded;
    var s, fees := Sum(target), Times(c, Traded(lam, target, current));
    TimesQuotient(free - fees, free);
    TimesQuotient(s, free);
    TimesAssociates(c, s / free, free);
    TimesAlgebra(lam, NextScale(free, c, target, current, lam), free);
  }

  lemma FactorRange(free: real, c: real, target: seq<real>, current: seq<real>)
    requires Solvable(free, c, target, current)
    ensures 0.0 <= Factor(free, c, target) <= 1.0
  {
    hide Times, Factor;
    NextScaleTimesFree(free, c, target, current, 1.0);
    SumNonNegative(target);
    TimesNonNegative(c, Sum(target));
    TimesAlgebra(0.0, 0.0, free);
    TimesCancels(0.0, Factor(free, c, target), free);
  }

  /** The decrease of the scale below 1 is at most the fee on everything traded. */
  lemma NextScaleRange(free: real, c: real, target: seq<real>, current: seq<real>, lam: real)
    requires Solvable(free, c, target, current)
    requires 0.0 <= lam <= 1.0
    ensures 1.0 - c - Factor(free, c, target) <= NextScale(free, c, target, current, lam) <= 1.0
  {
    hide Times, Factor, NextScale, Traded;
    var s, tr, q := Sum(target), Traded(lam, target, current), Factor(free, c, target);
    var next := NextScale(free, c, target, current, lam);
    TradedBounds(lam, target, current);
    NextScaleTimesFree(free, c, target, current, lam);
    SumNonNegative(target);
    TimesMonotone(lam, 1.0, s);
    TimesAlgebra(s, free, c);
    TimesAlgebra(0.0, 0.0, s);
    TimesNonNegative(c, tr);
    TimesMonotone(tr, s + free, c);
    TimesAlgebra(1.0 - c, q, free);
    TimesAlgebra(1.0, c, free);
    TimesCancels(next, 1.0, free);
    TimesCancels(1.0 - c - q, next, free);
  }

  /** One step is a contraction with factor `Factor`. */
  lemma NextScaleContracts(free: real, c: real, target: seq<real>, current: seq<real>, x: real, y: real)
    requires Solvable(free, c, target, current)
    ensures Abs(NextScale(free, c, target, current, x) - NextScale(free, c, target, current, y))
         <= Times(Factor(free, c, target), Abs(x - y))
  {
    hide Times, Factor, NextScale, Traded;
    var s, q, d := Sum(target), Factor(free, c, target), Abs(x - y);
    var tx, ty := Traded(x, target, current), Traded(y, target, current);
    var nx, ny := NextScale(free, c, target, current, x), NextScale(free, c, target, current, y);
    TradedLipschitz(x, y, target, current);
    NextScaleTimesFree(free, c, target, current, x);
    NextScaleTimesFree(free, c, target, current, y);
    TimesAlgebra(nx, ny, free);
    TimesAlgebra(ty, tx, c);
    AbsOfTimes(nx - ny, free);
    AbsOfTimes(ty - tx, c);
    TimesMonotone(Abs(ty - tx), Times(d, s), c);
    TimesAssociates(d, c, s);
    TimesAssociates(d, q, free);
    TimesAlgebra(d, 0.0, q);
    TimesCancels(Abs(nx - ny), Times(q, d), free);
  }

  /** |residual| when the next step has size at most `e`. */
  lemma ResidualWithin(free: real, c: real, target: seq<real>, current: seq<real>, lam: real, e: real)
    requires |target| == |current| && free > 0.0
    requires Abs(lam - NextScale(free, c, target, current, lam)) <= e
    ensures Abs(Residual(free, c, target, current, lam)) <= Times(e, free)
  {
    hide Times, NextScale, Residual;
    var next := NextScale(free, c, target, current, lam);
    NextScaleTimesFree(free, c, target, current, lam);
    AbsOfTimes(lam - next, free);
    TimesMonotone(Abs(lam - next), e, free);
  }

  /** After `steps` more steps from a scale whose next step has size at most `e`. */
  lemma {:induction false} ScaleFromStep(steps: nat, free: real, c: real, target: seq<real>, current: seq<real>,
                                         lam: real, e: real)
    requires Solvable(free, c, target, current)
    requires 0.0 <= lam <= 1.0 && e >= 0.0
    requires Abs(NextScale(free, c, target, current, lam) - lam) <= e
    ensures var r := ScaleFrom(steps, free, c, target, current, lam);
      && 0.0 <= r <= 1.0
      && (steps > 0 ==> 1.0 - c - Factor(free, c, target) <= r)
      && Abs(r - NextScale(free, c, target, current, r)) <= Tail(Factor(free, c, target), steps, e)
  {
    hide Times, Factor, NextScale;
    var q := Factor(free, c, target);
    FactorRange(free, c, target, current);
    if steps > 0 {
      var next := NextScale(free, c, target, current, lam);
      NextScaleRange(free, c, target, current, lam);
      NextScaleContracts(free, c, target, current, next, lam);
      if Abs(next - lam) < STEP_TOLERANCE {
        TimesMonotone(Abs(next - lam), STEP_TOLERANCE, q);
      } else {
        TimesMonotone(Abs(next - lam), e, q);
        TimesNonNegative(q, e);
        ScaleFromStep(steps - 1, free, c, target, current, next, Times(q, e));
        TimesAssociates(q, Pow(q, steps - 1), e);
      }
    } else {
      TimesAlgebra(0.0, 0.0, e);
    }
  }

  /**
   * The loop's own contract: the scale lies in [1 - c - q, 1] and misses "invested value equals
   * free value minus fees" by at most a ninth-order term or the step tolerance. Targets that sum
   * to `free` have q == c: see ExactTargets.
   */
  lemma ScaleIsFeeConsistent(free: real, c: real, target: seq<real>, current: seq<real>)
    requires Solvable(free, c, target, current)
    ensures 0.0 <= 1.0 - c - Factor(free, c, target) <= Scale(free, c, target, current) <= 1.0
    ensures Abs(Residual(free, c, target, current, Scale(free, c, target, current))) <= ResidualBound(free, c, target)
  {
    hide Times, Factor, NextScale, Tail, Residual;
    var q := Factor(free, c, target);
    FactorRange(free, c, target, current);
    NextScaleRange(free, c, target, current, 1.0);
    ScaleFromStep(MAX_STEPS, free, c, target, current, 1.0, c + q);
    ResidualWithin(free, c, target, current, Scale(free, c, target, current), Tail(q, MAX_STEPS, c + q));
  }

  /** The documented case: targets sum to exactly the free value and a side costs under one half. */
  lemma ExactTargets(free: real, c: real, target: seq<real>, current: seq<real>)
    requires |target| == |current| && free > 0.0 && 0.0 <= c < 0.5
    requires forall p :: 0 <= p < |target| ==> target[p] >= 0.0 && current[p] >= 0.0
    requires Sum(target) == free && Sum(current) <= free
    ensures 0.0 < 1.0 - 2.0 * c <= Scale(free, c, target, current) <= 1.0
    ensures Abs(Residual(free, c, target, current, Scale(free, c, target, current)))
         <= Times(Max(2.0 * Pow(c, 9), Times(c, STEP_TOLERANCE)), free)
  {
    hide Times, Factor, NextScale, Residual, Scale;
    NextScaleTimesFree(free, c, target, current, 1.0);
    TimesInjective(Factor(free, c, target), c, free);
    ScaleIsFeeConsistent(free, c, target, current);
    TimesAlgebra(c, c, Pow(c, 8));
  }

  /** Any exact solution of the fee equation is within residual / ((1 - q) * free) of the loop's answer. */
  lemma ExactSolutionIsNear(free: real, c: real, target: seq<real>, current: seq<real>, exact: real)
    requires Solvable(free, c, target, current)
    requires Residual(free, c, target, current, exact) == 0.0
    ensures Times(Times(1.0 - Factor(free, c, target), Abs(Scale(free, c, target, current) - exact)), free)
         <= ResidualBound(free, c, target)
  {
    hide Times, Factor, NextScale, Residual, Tail;
    var lam, q := Scale(free, c, target, current), Factor(free, c, target);
    var next, same := NextScale(free, c, target, current, lam), NextScale(free, c, target, current, exact);
    FactorRange(free, c, target, current);
    NextScaleRange(free, c, target, current, 1.0);
    ScaleFromStep(MAX_STEPS, free, c, target, current, 1.0, c + q);
    NextScaleContracts(free, c, target, current, lam, exact);
    NextScaleTimesFree(free, c, target, current, exact);
    TimesAlgebra(0.0, 0.0, free);
    TimesInjective(exact - same, 0.0, free);
    var gap := Abs(lam - exact);
    TimesAlgebra(1.0, q, gap);
    TimesMonotone(Times(1.0 - q, gap), Tail(q, MAX_STEPS, c + q), free);
  }

  // ---- when the answer is exact ----

  /** The iterate from which the loop computes its answer. */
  function LastFrom(steps: nat, free: real, c: real, target: seq<real>, current: seq<real>, lam: real): real
    requires |target| == |current| && steps > 0
  {
    var next := NextScale(free, c, target, current, lam);
    if Abs(next - lam) < STEP_TOLERANCE || steps == 1 then lam
    else LastFrom(steps - 1, free, c, target, current, next)
  }

  function Last(free: real, c: real, target: seq<real>, current: seq<real>): real
    requires |target| == |current|
  {
    LastFrom(MAX_STEPS, free, c, target, current, 1.0)
  }

  lemma {:induction false} ScaleIsNextOfLast(steps: nat, free: real, c: real, target: seq<real>, current: seq<real>, lam: real)
    requires |target| == |current| && steps > 0
    ensures ScaleFrom(steps, free, c, target, current, lam)
         == NextScale(free, c, target, current, LastFrom(steps, free, c, target, current, lam))
  {
    hide NextScale;
    var next := NextScale(free, c, target, current, lam);
    if Abs(next - lam) >= STEP_TOLERANCE && steps > 1 {
      ScaleIsNextOfLast(steps - 1, free, c, target, current, next);
    }
  }

  /**
   * On all inputs the miss is the fee on the difference between what the last step was charged for
   * and what is traded; so the answer is exact just when those two notionals agree.
   */
  lemma ExactWhenLastStepTradesTheSame(free: real, c: real, target: seq<real>, current: seq<real>)
    requires |target| == |current| && free > 0.0
    ensures var lam, last := Scale(free, c, target, current), Last(free, c, target, current);
      && Residual(free, c, target, current, lam)
         == Times(c, Traded(lam, target, current) - Traded(last, target, current))
      && (Residual(free, c, target, current, lam) == 0.0
          <==> c == 0.0 || Traded(lam, target, current) == Traded(last, target, current))
  {
    hide Times, NextScale, Traded;
    var lam, last := Scale(free, c, target, current), Last(free, c, target, current);
    ScaleIsNextOfLast(MAX_STEPS, free, c, target, current, 1.0);
    NextScaleTimesFree(free, c, target, current, last);
    TimesAlgebra(Traded(lam, target, current), Traded(last, target, current), c);
    TimesIsZero(c, Traded(lam, target, current) - Traded(last, target, current));
  }

  /** The scale stays at 1 and is exact just when nothing is charged: no fee, or nothing to trade. */
  lemma UnscaledExactlyWhenNothingIsCharged(free: real, c: real, target: seq<real>, current: seq<real>)
    requires |target| == |current| && free > 0.0
    ensures (Scale(free, c, target, current) == 1.0
             && Residual(free, c, target, current, Scale(free, c, target, current)) == 0.0)
       <==> c == 0.0 || Traded(1.0, target, current) == 0.0
  {
    hide Times, NextScale, Traded;
    StepFromOne(free, c, target, current);
    NextScaleTimesFree(free, c, target, current, 1.0);
    TimesAlgebra(0.0, 0.0, free);
    TimesInjectiveIff(1.0 - NextScale(free, c, target, current, 1.0), 0.0, free);
  }

  lemma StepFromOne(free: real, c: real, target: seq<real>, current: seq<real>)
    requires |target| == |current| && free > 0.0
    ensures NextScale(free, c, target, current, 1.0) == 1.0 <==> c == 0.0 || Traded(1.0, target, current) == 0.0
  {
    hide Times, Traded;
    NextScaleTimesFree(free, c, target, current, 1.0);
    TimesAlgebra(1.0, 0.0, free);
    TimesInjectiveIff(NextScale(free, c, target, current, 1.0), 1.0, free);
    TimesIsZero(c, Traded(1.0, target, current));
  }

  lemma TimesIsZero(x: real, y: real)
    ensures Times(x, y) == 0.0 <==> x == 0.0 || y == 0.0
  {
  }

  lemma TimesInjectiveIff(x: real, y: real, k: real)
    requires k > 0.0
    ensures Times(x, k) == Times(y, k) <==> x == y
  {
    if Times(x, k) == Times(y, k) {
      TimesInjective(x, y, k);
    }
  }

  /** The lowest scale the loop can return. */
  function Lowest(free: real, c: real, target: seq<real>): real
    requires free > 0.0
  {
    1.0 - c - Factor(free, c, target)
  }

  /** No pair changes between being bought and being sold while the scale moves between `lo` and 1. */
  ghost predicate KeepsSides(lo: real, target: seq<real>, current: seq<real>)
    requires |target| == |current|
  {
    forall p :: 0 <= p < |target| ==> current[p] <= Times(lo, target[p]) || current[p] >= target[p]
  }

  function Side(lo: real, t: real, u: real): real {
    if u <= Times(lo, t) then t else -t
  }

  /** Target dollars of bought pairs count positively, those of sold pairs negatively. */
  function Sides(lo: real, target: seq<real>, current: seq<real>): (r: seq<real>)
    requires |target| == |current|
    ensures |r| == |target|
  {
    seq(|target|, p requires 0 <= p < |target| => Side(lo, target[p], current[p]))
  }

  lemma MoveOnSide(lo: real, x: real, t: real, u: real)
    requires lo <= x <= 1.0 && t >= 0.0 && (u <= Times(lo, t) || u >= t)
    ensures Move(x, t, u) == if u <= Times(lo, t) then Times(x, t) - u else u - Times(x, t)
  {
    hide Times;
    TimesMonotone(lo, x, t);
    TimesMonotone(x, 1.0, t);
    TimesAlgebra(0.0, 0.0, t);
  }

  /** Then the traded notional is linear in the scale, with slope bought minus sold targets. */
  lemma TradedOnSides(lo: real, x: real, y: real, target: seq<real>, current: seq<real>)
    requires |target| == |current| && lo <= x <= 1.0 && lo <= y <= 1.0 && KeepsSides(lo, target, current)
    requires forall p :: 0 <= p < |target| ==> target[p] >= 0.0
    ensures Traded(x, target, current) - Traded(y, target, current) == Times(x - y, Sum(Sides(lo, target, current)))
  {
    hide Times, Move, Sum;
    var sides := Sides(lo, target, current);
    var change := seq(|target|, p requires 0 <= p < |target| => Times(x - y, sides[p]));
    forall p | 0 <= p < |target|
      ensures Moves(x, target, current)[p] == Moves(y, target, current)[p] + change[p]
    {
      MoveOnSide(lo, x, target[p], current[p]);
      MoveOnSide(lo, y, target[p], current[p]);
      TimesAlgebra(x, y, target[p]);
      TimesAlgebra(0.0, target[p], x - y);
      TimesAlgebra(0.0, 0.0, x - y);
    }
    SumOfScaled(change, x - y, sides);
    SumOfSums(Moves(x, target, current), Moves(y, target, current), change);
  }

  /** One more step changes nothing just when the step before changed nothing or the slope is zero. */
  lemma StepOnSides(free: real, c: real, target: seq<real>, current: seq<real>, x: real)
    requires Solvable(free, c, target, current) && KeepsSides(Lowest(free, c, target), target, current)
    requires Lowest(free, c, target) <= x <= 1.0
    ensures var next := NextScale(free, c, target, current, x);
      && Lowest(free, c, target) <= next <= 1.0
      && (NextScale(free, c, target, current, next) == next
          <==> c == 0.0 || Sum(Sides(Lowest(free, c, target), target, current)) == 0.0 || next == x)
  {
    hide Times, Traded, NextScale, Sum, Factor, Sides;
    var lo := Lowest(free, c, target);
    var slope := Sum(Sides(lo, target, current));
    var next := NextScale(free, c, target, current, x);
    NextScaleRange(free, c, target, current, x);
    TradedOnSides(lo, next, x, target, current);
    NextScaleTimesFree(free, c, target, current, x);
    NextScaleTimesFree(free, c, target, current, next);
    TimesAlgebra(Traded(next, target, current), Traded(x, target, current), c);
    TimesInjectiveIff(NextScale(free, c, target, current, next), next, free);
    TimesIsZero(c, Times(next - x, slope));
    TimesIsZero(next - x, slope);
  }

  lemma {:induction false} ScaleOnSides(steps: nat, free: real, c: real, target: seq<real>, current: seq<real>, lam: real)
    requires Solvable(free, c, target, current) && KeepsSides(Lowest(free, c, target), target, current)
    requires Lowest(free, c, target) <= lam <= 1.0 && steps > 0
    ensures var r := ScaleFrom(steps, free, c, target, current, lam);
      NextScale(free, c, target, current, r) == r
      <==> c == 0.0 || Sum(Sides(Lowest(free, c, target), target, current)) == 0.0
           || NextScale(free, c, target, current, lam) == lam
  {
    hide NextScale, Sum, Factor, Sides, Lowest;
    var next := NextScale(free, c, target, current, lam);
    StepOnSides(free, c, target, current, lam);
    if Abs(next - lam) >= STEP_TOLERANCE && steps > 1 {
      ScaleOnSides(steps - 1, free, c, target, current, next);
    }
  }

  /**
   * Exactness from the inputs alone: when no pair changes sides, the answer is exact if and only if
   * there is no fee, nothing to trade, or bought and sold targets are equal.
   */
  lemma ExactExactlyWhenSidesBalance(free: real, c: real, target: seq<real>, current: seq<real>)
    requires Solvable(free, c, target, current) && KeepsSides(Lowest(free, c, target), target, current)
    ensures Residual(free, c, target, current, Scale(free, c, target, current)) == 0.0
       <==> c == 0.0 || Traded(1.0, target, current) == 0.0
            || Sum(Sides(Lowest(free, c, target), target, current)) == 0.0
  {
    hide Times, NextScale, Traded, Sum, Factor, Sides, KeepsSides;
    var lam := Scale(free, c, target, current);
    FactorRange(free, c, target, current);
    ScaleOnSides(MAX_STEPS, free, c, target, current, 1.0);
    StepFromOne(free, c, target, current);
    NextScaleTimesFree(free, c, target, current, lam);
    TimesIsZero(lam - NextScale(free, c, target, current, lam), free);
  }

  // ---- pairs that may change sides ----

  /** The side of a pair as the scale falls from 1: sold if it is held at its target or more. */
  function SideFromOne(t: real, u: real): real {
    if u >= t then -t else t
  }

  function SidesFromOne(target: seq<real>, current: seq<real>): (r: seq<real>)
    requires |target| == |current|
    ensures |r| == |target|
  {
    seq(|target|, p requires 0 <= p < |target| => SideFromOne(target[p], current[p]))
  }

  /** Between two scales a move changes by at least what its side at the lower end says, and at most what its side at 1 says. */
  lemma MoveIsConvex(lo: real, x: real, y: real, t: real, u: real)
    requires lo <= y <= x <= 1.0 && t >= 0.0
    ensures Times(x - y, Side(lo, t, u)) <= Move(x, t, u) - Move(y, t, u) <= Times(x - y, SideFromOne(t, u))
  {
    hide Times;
    TimesMonotone(lo, y, t);
    TimesMonotone(y, x, t);
    TimesMonotone(x, 1.0, t);
    TimesAlgebra(0.0, 0.0, t);
    TimesAlgebra(x, y, t);
    TimesAlgebra(0.0, t, x - y);
    TimesAlgebra(0.0, 0.0, x - y);
  }

  /** So does the traded notional. */
  lemma TradedIsConvex(lo: real, x: real, y: real, target: seq<real>, current: seq<real>)
    requires |target| == |current| && lo <= y <= x <= 1.0
    requires forall p :: 0 <= p < |target| ==> target[p] >= 0.0
    ensures Times(x - y, Sum(Sides(lo, target, current)))
         <= Traded(x, target, current) - Traded(y, target, current)
         <= Times(x - y, Sum(SidesFromOne(target, current)))
  {
    hide Times, Move, Sum, Side, SideFromOne;
    var low, high := Sides(lo, target, current), SidesFromOne(target, current);
    var rise := seq(|target|, p requires 0 <= p < |target| => Move(x, target[p], current[p]) - Move(y, target[p], current[p]));
    var least := seq(|target|, p requires 0 <= p < |target| => Times(x - y, low[p]));
    var most := seq(|target|, p requires 0 <= p < |target| => Times(x - y, high[p]));
    forall p | 0 <= p < |target| ensures least[p] <= rise[p] <= most[p] {
      MoveIsConvex(lo, x, y, target[p], current[p]);
    }
    SumOfScaled(least, x - y, low);
    SumOfScaled(most, x - y, high);
    SumMonotone(least, rise);
    SumMonotone(rise, most);
    SumOfSums(Moves(x, target, current), Moves(y, target, current), rise);
  }

  /** Bought targets outweigh sold ones already at the lowest scale, or sold ones still outweigh them at 1. */
  ghost predicate IsLopsided(lo: real, target: seq<real>, current: seq<real>)
    requires |target| == |current|
  {
    Sum(Sides(lo, target, current)) > 0.0 || Sum(SidesFromOne(target, current)) < 0.0
  }

  lemma DifferentScalesTradeDifferently(lo: real, x: real, y: real, target: seq<real>, current: seq<real>)
    requires |target| == |current| && lo <= x <= 1.0 && lo <= y <= 1.0 && IsLopsided(lo, target, current)
    requires forall p :: 0 <= p < |target| ==> target[p] >= 0.0
    ensures Traded(x, target, current) == Traded(y, target, current) ==> x == y
  {
    hide Times, Traded, Sum, Sides, SidesFromOne;
    var high, low := if x >= y then x else y, if x >= y then y else x;
    var up, down := Sum(Sides(lo, target, current)), Sum(SidesFromOne(target, current));
    TradedIsConvex(lo, high, low, target, current);
    if high > low {
      if up > 0.0 {
        TimesPositive(high - low, up);
      } else {
        TimesPositive(high - low, -down);
        TimesAlgebra(0.0, down, high - low);
        TimesAlgebra(0.0, 0.0, high - low);
      }
    }
  }

  lemma {:induction false} ScaleWhenLopsided(steps: nat, free: real, c: real, target: seq<real>, current: seq<real>, lam: real)
    requires Solvable(free, c, target, current) && c > 0.0 && IsLopsided(Lowest(free, c, target), target, current)
    requires Lowest(free, c, target) <= lam <= 1.0
    ensures var r := ScaleFrom(steps, free, c, target, current, lam);
      NextScale(free, c, target, current, r) == r <==> NextScale(free, c, target, current, lam) == lam
  {
    hide Times, NextScale, Traded, Sum, Factor, IsLopsided;
    if steps > 0 {
      var next := NextScale(free, c, target, current, lam);
      NextScaleRange(free, c, target, current, lam);
      StepSeparates(free, c, target, current, lam);
      if Abs(next - lam) >= STEP_TOLERANCE {
        ScaleWhenLopsided(steps - 1, free, c, target, current, next);
      }
    }
  }

  /** A step from a scale that is not the fixed point does not reach the fixed point. */
  lemma StepSeparates(free: real, c: real, target: seq<real>, current: seq<real>, lam: real)
    requires Solvable(free, c, target, current) && c > 0.0 && IsLopsided(Lowest(free, c, target), target, current)
    requires Lowest(free, c, target) <= lam <= 1.0
    ensures var next := NextScale(free, c, target, current, lam);
      NextScale(free, c, target, current, next) == next <==> next == lam
  {
    hide Times, NextScale, Traded, Sum, Factor, IsLopsided;
    var next := NextScale(free, c, target, current, lam);
    NextScaleRange(free, c, target, current, lam);
    DifferentScalesTradeDifferently(Lowest(free, c, target), next, lam, target, current);
    NextScaleTimesFree(free, c, target, current, lam);
    NextScaleTimesFree(free, c, target, current, next);
    if NextScale(free, c, target, current, next) == next {
      TimesAlgebra(Traded(next, target, current), Traded(lam, target, current), c);
      TimesIsZero(c, Traded(next, target, current) - Traded(lam, target, current));
    }
  }

  /** Whether or not pairs change sides, a lopsided rebalance is exact if and only if there is no fee or nothing to trade. */
  lemma LopsidedIsExactOnlyWhenNothingIsCharged(free: real, c: real, target: seq<real>, current: seq<real>)
    requires Solvable(free, c, target, current) && IsLopsided(Lowest(free, c, target), target, current)
    ensures Residual(free, c, target, current, Scale(free, c, target, current)) == 0.0
       <==> c == 0.0 || Traded(1.0, target, current) == 0.0
  {
    hide Times, NextScale, Traded, Sum, Factor, IsLopsided;
    var lam := Scale(free, c, target, current);
    if c == 0.0 {
      UnscaledExactlyWhenNothingIsCharged(free, c, target, current);
    } else {
      FactorRange(free, c, target, current);
      ScaleWhenLopsided(MAX_STEPS, free, c, target, current, 1.0);
      StepFromOne(free, c, target, current);
      NextScaleTimesFree(free, c, target, current, lam);
      TimesIsZero(lam - NextScale(free, c, target, current, lam), free);
    }
  }

  // ---- the sign of the miss ----

  /** More is spent than there is if and only if there is a fee and the last step raised the traded notional. */
  lemma OverspendsWhenLastStepTradesMore(free: real, c: real, target: seq<real>, current: seq<real>)
    requires |target| == |current| && free > 0.0 && c >= 0.0
    ensures var lam, last := Scale(free, c, target, current), Last(free, c, target, current);
      Residual(free, c, target, current, lam) > 0.0
      <==> c > 0.0 && Traded(lam, target, current) > Traded(last, target, current)
  {
    hide Times, NextScale, Traded, Residual, Scale, Last;
    var lam, last := Scale(free, c, target, current), Last(free, c, target, current);
    var rise := Traded(lam, target, current) - Traded(last, target, current);
    ExactWhenLastStepTradesTheSame(free, c, target, current);
    TimesAlgebra(0.0, 0.0, rise);
    TimesAlgebra(0.0, 0.0, c);
    if rise > 0.0 && c > 0.0 {
      TimesPositive(c, rise);
    } else if rise <= 0.0 {
      TimesMonotone(rise, 0.0, c);
    }
  }

  /** The first k, from the given one on, with c to the k below the step tolerance; at most the number of steps. */
  function LeastPower(c: real, k: nat): (n: nat)
    requires 1 <= k <= MAX_STEPS
    ensures k <= n <= MAX_STEPS
    ensures n < MAX_STEPS ==> Pow(c, n) < STEP_TOLERANCE
    ensures forall j :: k <= j < n ==> Pow(c, j) >= STEP_TOLERANCE
    decreases MAX_STEPS - k
  {
    if k == MAX_STEPS || Pow(c, k) < STEP_TOLERANCE then k else LeastPower(c, k + 1)
  }

  /** How many steps the loop takes when everything is bought from cash. */
  function CashSteps(c: real): nat {
    LeastPower(c, 1)
  }

  lemma {:induction false} PowOfNegative(c: real, k: nat)
    ensures Pow(-c, k) == if k % 2 == 0 then Pow(c, k) else -Pow(c, k)
  {
    hide Times;
    if k > 0 {
      PowOfNegative(c, k - 1);
      TimesAlgebra(0.0, c, Pow(-c, k - 1));
      TimesAlgebra(0.0, Pow(c, k - 1), c);
      TimesAlgebra(0.0, 0.0, c);
      TimesAlgebra(0.0, 0.0, Pow(-c, k - 1));
    }
  }

  lemma {:induction false} PowPositive(c: real, k: nat)
    requires c > 0.0
    ensures Pow(c, k) > 0.0
  {
    hide Times;
    if k > 0 {
      PowPositive(c, k - 1);
      TimesPositive(c, Pow(c, k - 1));
    }
  }

  /** Targets bought from cash alone. */
  ghost predicate FromCash(free: real, c: real, target: seq<real>, current: seq<real>) {
    && Solvable(free, c, target, current) && Sum(target) == free
    && (forall p :: 0 <= p < |current| ==> current[p] == 0.0)
  }

  lemma CashStep(free: real, c: real, target: seq<real>, current: seq<real>, x: real)
    requires FromCash(free, c, target, current) && x >= 0.0
    ensures Traded(x, target, current) == Times(x, free)
    ensures NextScale(free, c, target, current, x) == 1.0 - Times(c, x)
    ensures Residual(free, c, target, current, x) == Times(x + Times(c, x) - 1.0, free)
  {
    hide Times, NextScale;
    forall p | 0 <= p < |target| ensures Moves(x, target, current)[p] == Times(x, target[p]) {
      TimesNonNegative(x, target[p]);
    }
    SumOfScaled(Moves(x, target, current), x, target);
    NextScaleTimesFree(free, c, target, current, x);
    TimesAssociates(c, x, free);
    TimesAlgebra(1.0, Times(c, x), free);
    TimesInjective(NextScale(free, c, target, current, x), 1.0 - Times(c, x), free);
    TimesAlgebra(x, 1.0 - Times(c, x), free);
  }

  /** From cash, k steps leave a gap to the fixed point of minus the (k + 1)st power of minus the fee. */
  lemma {:induction false} CashGap(k: nat, free: real, c: real, target: seq<real>, current: seq<real>, lam: real)
    requires FromCash(free, c, target, current) && k < MAX_STEPS && 0.0 <= lam <= 1.0
    requires lam + Times(c, lam) - 1.0 == -Pow(-c, k + 1)
    ensures var r := ScaleFrom(MAX_STEPS - k, free, c, target, current, lam);
      r >= 0.0 && r + Times(c, r) - 1.0 == -Pow(-c, LeastPower(c, k + 1) + 1)
    decreases MAX_STEPS - k
  {
    hide Times, NextScale, Factor, Traded, Sum, Pow;
    var next := NextScale(free, c, target, current, lam);
    CashStep(free, c, target, current, lam);
    InRange(free, c, target, current, lam);
    GapStep(c, lam, k);
    if Pow(c, k + 1) >= STEP_TOLERANCE && k + 1 < MAX_STEPS {
      CashGap(k + 1, free, c, target, current, next);
    }
  }

  lemma InRange(free: real, c: real, target: seq<real>, current: seq<real>, lam: real)
    requires Solvable(free, c, target, current) && 0.0 <= lam <= 1.0
    ensures c >= 0.0 && 0.0 <= NextScale(free, c, target, current, lam) <= 1.0
  {
    hide NextScale, Factor;
    NextScaleRange(free, c, target, current, lam);
  }

  /** One step from cash multiplies the gap by minus the fee, and its size is the gap. */
  lemma GapStep(c: real, lam: real, k: nat)
    requires c >= 0.0 && lam + Times(c, lam) - 1.0 == -Pow(-c, k + 1)
    ensures var next := 1.0 - Times(c, lam);
      && next + Times(c, next) - 1.0 == -Pow(-c, k + 2)
      && Abs(next - lam) == Pow(c, k + 1)
  {
    hide Times;
    TimesAlgebra(lam + Times(c, lam), 1.0, c);
    TimesAlgebra(lam, Times(c, lam), c);
    TimesAlgebra(1.0, Times(c, lam), c);
    TimesAlgebra(0.0, Pow(-c, k + 1), c);
    TimesAlgebra(0.0, c, Pow(-c, k + 1));
    TimesAlgebra(0.0, 0.0, c);
    TimesAlgebra(0.0, 0.0, Pow(-c, k + 1));
    PowOfNegative(c, k + 1);
    PowNonNegative(c, k + 1);
  }

  lemma PowNonNegative(c: real, k: nat)
    requires c >= 0.0
    ensures Pow(c, k) >= 0.0
  {
    hide Times;
    if c > 0.0 {
      PowPositive(c, k);
    } else if k > 0 {
      TimesAlgebra(0.0, 0.0, Pow(c, k - 1));
    }
  }

  /**
   * From cash alone the miss is a signed power of the fee: the rebalance spends more than it has if
   * and only if there is a fee and the loop takes an even number of steps, and less if that is odd.
   */
  lemma CashMissAlternates(free: real, c: real, target: seq<real>, current: seq<real>)
    requires FromCash(free, c, target, current)
    ensures var miss, n := Residual(free, c, target, current, Scale(free, c, target, current)), CashSteps(c);
      && Abs(miss) == Times(Pow(c, n + 1), free)
      && (miss > 0.0 <==> c > 0.0 && n % 2 == 0)
      && (miss < 0.0 <==> c > 0.0 && n % 2 == 1)
  {
    hide Times, NextScale, Factor, Residual;
    var lam, n := Scale(free, c, target, current), CashSteps(c);
    TimesAlgebra(0.0, 0.0, c);
    TimesAlgebra(0.0, 1.0, c);
    assert Pow(-c, 0) == 1.0;
    TimesAlgebra(1.0, 0.0, -c);
    CashGap(0, free, c, target, current, 1.0);
    CashStep(free, c, target, current, lam);
    PowOfNegative(c, n + 1);
    PowNonNegative(c, n + 1);
    AbsOfTimes(lam + Times(c, lam) - 1.0, free);
    TimesAlgebra(0.0, Pow(c, n + 1), free);
    TimesAlgebra(0.0, 0.0, free);
    if c > 0.0 {
      PowPositive(c, n + 1);
      TimesPositive(Pow(c, n + 1), free);
    } else {
      TimesAlgebra(0.0, 0.0, Pow(c, n));
    }
  }

  /** The three fees of the protocol: 25 and 35 basis points take six steps, 50 take seven. */
  lemma ProtocolFees()
    ensures CashSteps(0.0025) == 6 && CashSteps(0.0035) == 6 && CashSteps(0.0050) == 7
  {
    FewPowers(0.0025);
    FewPowers(0.0035);
    FewPowers(0.0050);
  }

  lemma FewPowers(c: real)
    ensures Pow(c, 1) == c && Pow(c, 2) == c * c && Pow(c, 3) == c * (c * c) && Pow(c, 4) == c * (c * (c * c))
    ensures Pow(c, 5) == c * (c * (c * (c * c))) && Pow(c, 6) == c * (c * (c * (c * (c * c))))
    ensures Pow(c, 7) == c * (c * (c * (c * (c * (c * c)))))
  {
    assert Pow(c, 0) == 1.0;
  }

  /** From cash alone every pair is bought, so any positive fee makes the answer inexact. */
  lemma AllCashIsExactOnlyWithoutFees(free: real, c: real, target: seq<real>, current: seq<real>)
    requires Solvable(free, c, target, current) && Sum(target) == free
    requires forall p :: 0 <= p < |current| ==> current[p] == 0.0
    ensures Residual(free, c, target, current, Scale(free, c, target, current)) == 0.0 <==> c == 0.0
  {
    hide Times, NextScale, Factor, Residual, Scale;
    var lo := Lowest(free, c, target);
    forall p | 0 <= p < |target|
      ensures current[p] <= Times(lo, target[p]) && Moves(1.0, target, current)[p] == target[p]
    {
      TimesNonNegative(lo, target[p]);
      TimesAlgebra(0.0, 0.0, target[p]);
    }
    assert Sides(lo, target, current) == target;
    assert Moves(1.0, target, current) == target;
    ExactExactlyWhenSidesBalance(free, c, target, current);
  }
}
