/**
 * What one day of the engine keeps: sound holdings, and an exact accounting of value across the
 * open, the BTC redeployment and the rebalance.
 */
module PortfolioLaws {
  import opened Arith
  import opened FeeScale
  import opened Grid
  import opened Portfolio
  import opened Prelude
  import opened Sums

  /** Half, less the room the crowd-out tolerance needs. */
  const MAX_FEE: real := 0.4999999999

  /** Every held pair has a price and a nonnegative quantity, and is listed unless it is BTC. */
  ghost predicate Sound(g: Market, t: nat, h: Holdings) {
    forall p :: p in h ==>
      p < g.pairs && h[p] >= 0.0 && LastClose(g, t, p).Some? && (Listed(g, t, p) || p == g.btc)
  }

  /** What holds between the open and the trades of day t. */
  ghost predicate SoundOpening(g: Market, t: nat, o: Opening) {
    && Sound(g, t, o.kept)
    && (forall p :: p in o.kept ==> Listed(g, t, p))
    && o.cash >= 0.0 && o.exited >= 0.0
    && o.value >= Value(g, t, o.kept) + o.cash
  }

  // ---- prices ----

  lemma {:induction false} LastClosePositive(g: Market, t: nat, p: nat)
    requires Valid(g) && t < |g.rows| && p < g.pairs
    ensures LastClose(g, t, p).Some? ==> LastClose(g, t, p).value > 0.0
  {
    assert ValidCell(g.rows[t][p]);
    if t > 0 {
      LastClosePositive(g, t - 1, p);
    }
  }

  /** A pair that has closed once stays priced. */
  lemma {:induction false} PriceRemains(g: Market, s: nat, t: nat, p: nat)
    requires s <= t && LastClose(g, s, p).Some?
    ensures LastClose(g, t, p).Some?
  {
    if s < t {
      PriceRemains(g, s, t - 1, p);
    }
  }

  lemma MarkPositive(g: Market, t: nat, p: nat)
    requires Valid(g) && t < |g.rows| && p < g.pairs && LastClose(g, t, p).Some?
    ensures Mark(g, t, p) > 0.0
  {
    assert ValidCell(g.rows[t][p]);
    LastClosePositive(g, t, p);
  }

  lemma OpenIsPriced(g: Market, t: nat, p: nat)
    requires Valid(g) && t < |g.rows| && p < g.pairs && At(g, t, p).open.Some?
    ensures LastClose(g, t, p).Some? && Listed(g, t, p) && At(g, t, p).open.value > 0.0
  {
    assert ValidCell(g.rows[t][p]);
  }

  lemma MarksNonNegative(g: Market, t: nat, h: Holdings)
    requires Valid(g) && t < |g.rows| && Sound(g, t, h)
    ensures forall p :: 0 <= p < g.pairs ==> Marks(g, t, h)[p] >= 0.0
    ensures Value(g, t, h) >= 0.0
  {
    hide Times, LastClose, Mark;
    forall p | 0 <= p < g.pairs ensures Marks(g, t, h)[p] >= 0.0 {
      TimesAlgebra(0.0, 0.0, Mark(g, t, p));
      if p in h {
        MarkPositive(g, t, p);
        TimesNonNegative(h[p], Mark(g, t, p));
      }
    }
    SumNonNegative(Marks(g, t, h));
  }

  // ---- open ----

  /** Price change of each held pair from day t - 1 to day t; a delisted pair leaves at its last close. */
  function Gains(g: Market, t: nat, h: Holdings): (r: seq<real>)
    requires t > 0
    ensures |r| == g.pairs
  {
    seq(g.pairs, p requires 0 <= p < g.pairs => Times(Quantity(h, p), ExitPrice(g, t, p) - Mark(g, t - 1, p)))
  }

  function ExitPrice(g: Market, t: nat, p: nat): real
    requires t > 0
  {
    if Listed(g, t, p) then Mark(g, t, p) else LastClose(g, t - 1, p).GetOr(0.0)
  }

  /** M(t) is yesterday's post-trade value plus price gains minus the fee on forced exits. */
  lemma OpenIdentity(g: Market, t: nat, c: real, h: Holdings)
    requires t > 0
    ensures OpenDay(g, t, c, h).value
         == Value(g, t - 1, h) + Sum(Gains(g, t, h)) - Times(c, OpenDay(g, t, c, h).exited)
  {
    hide Times, LastClose, Mark, Listed;
    var kept := Kept(g, t, h);
    var total := seq(g.pairs, p requires 0 <= p < g.pairs => Times(Quantity(h, p), ExitPrice(g, t, p)));
    forall p | 0 <= p < g.pairs
      ensures total[p] == Marks(g, t, kept)[p] + Exits(g, t, h)[p]
      ensures total[p] == Marks(g, t - 1, h)[p] + Gains(g, t, h)[p]
    {
      TimesAlgebra(0.0, 0.0, Mark(g, t, p));
      TimesAlgebra(0.0, 0.0, ExitPrice(g, t, p));
      TimesAlgebra(ExitPrice(g, t, p), Mark(g, t - 1, p), Quantity(h, p));
    }
    SumOfSums(total, Marks(g, t, kept), Exits(g, t, h));
    SumOfSums(total, Marks(g, t - 1, h), Gains(g, t, h));
  }

  lemma ExitsNonNegative(g: Market, t: nat, h: Holdings)
    requires Valid(g) && 0 < t < |g.rows| && Sound(g, t - 1, h)
    ensures forall p :: 0 <= p < g.pairs ==> Exits(g, t, h)[p] >= 0.0
    ensures Sum(Exits(g, t, h)) >= 0.0
  {
    hide Times, LastClose, Listed;
    forall p | 0 <= p < g.pairs ensures Exits(g, t, h)[p] >= 0.0 {
      if p in h && !Listed(g, t, p) {
        LastClosePositive(g, t - 1, p);
        TimesNonNegative(h[p], LastClose(g, t - 1, p).value);
      }
    }
    SumNonNegative(Exits(g, t, h));
  }

  lemma OpenKeepsSound(g: Market, t: nat, c: real, h: Holdings)
    requires Valid(g) && 0 < t < |g.rows| && Sound(g, t - 1, h) && 0.0 <= c <= MAX_FEE
    ensures SoundOpening(g, t, OpenDay(g, t, c, h))
  {
    hide Times;
    var exited := Sum(Exits(g, t, h));
    ExitsNonNegative(g, t, h);
    TimesMonotone(c, 1.0, exited);
    TimesAlgebra(0.0, 0.0, exited);
  }

  /** Prices stay positive, so a sleeve that was worth something still is after the open. */
  lemma OpenStaysPositive(g: Market, t: nat, c: real, h: Holdings)
    requires Valid(g) && 0 < t < |g.rows| && Sound(g, t - 1, h) && 0.0 <= c <= MAX_FEE
    requires Value(g, t - 1, h) > 0.0
    ensures OpenDay(g, t, c, h).value > 0.0
  {
    hide Times, LastClose, Mark, Listed;
    var p := SumPositiveWitness(Marks(g, t - 1, h));
    var o := OpenDay(g, t, c, h);
    OpenKeepsSound(g, t, c, h);
    MarksNonNegative(g, t, o.kept);
    ExitsNonNegative(g, t, h);
    TimesAlgebra(0.0, 0.0, Mark(g, t - 1, p));
    assert p in h && h[p] > 0.0;
    if Listed(g, t, p) {
      MarkPositive(g, t, p);
      TimesPositive(h[p], Mark(g, t, p));
      SumAtLeastEntry(Marks(g, t, o.kept), p);
    } else {
      LastClosePositive(g, t - 1, p);
      TimesPositive(h[p], LastClose(g, t - 1, p).value);
      SumAtLeastEntry(Exits(g, t, h), p);
      TimesAlgebra(1.0, c, o.exited);
      TimesPositive(1.0 - c, o.exited);
    }
  }

  // ---- redeployment ----

  /** Without a rebalance the day costs exactly the fee on the BTC bought with forced cash. */
  lemma RedeployIdentity(g: Market, t: nat, c: real, o: Opening)
    requires Valid(g) && t < |g.rows| && SoundOpening(g, t, o) && 0.0 <= c <= MAX_FEE
    requires o.value == Value(g, t, o.kept) + o.cash && (o.cash > 0.0 ==> LastClose(g, t, g.btc).Some?)
    ensures Value(g, t, Redeployed(g, t, c, o)) == o.value - Times(c, BuyNotional(c, o.cash))
    ensures BuyNotional(c, o.cash) >= 0.0
    ensures Sound(g, t, Redeployed(g, t, c, o))
  {
    hide Times, LastClose, Mark, Listed;
    TimesAlgebra(0.0, 0.0, c);
    if o.cash > 0.0 {
      MarkPositive(g, t, g.btc);
      var px, buy := Mark(g, t, g.btc), BuyNotional(c, o.cash);
      BuyPositive(c, o.cash);
      QuotientNonNegative(buy, px);
      var after := Redeployed(g, t, c, o);
      var added := seq(g.pairs, p requires 0 <= p < g.pairs => if p == g.btc then buy else 0.0);
      forall p | 0 <= p < g.pairs ensures Marks(g, t, after)[p] == Marks(g, t, o.kept)[p] + added[p] {
        if p == g.btc {
          TimesAlgebra(Quantity(o.kept, p), buy / px, px);
          TimesQuotient(buy, px);
        }
      }
      SumOfSums(Marks(g, t, after), Marks(g, t, o.kept), added);
      SumSingle(added, g.btc);
    }
  }

  lemma BuyPositive(c: real, cash: real)
    requires c >= 0.0 && cash > 0.0
    ensures BuyNotional(c, cash) > 0.0
    ensures BuyNotional(c, cash) + Times(c, BuyNotional(c, cash)) == cash
  {
    hide Times;
    var buy := BuyNotional(c, cash);
    TimesQuotient(cash, 1.0 + c);
    TimesAlgebra(1.0, c, buy);
    TimesAlgebra(0.0, buy, 1.0 + c);
    if buy <= 0.0 {
      TimesMonotone(buy, 0.0, 1.0 + c);
    }
  }

  lemma QuotientNonNegative(x: real, y: real)
    requires x >= 0.0 && y > 0.0
    ensures x / y >= 0.0
  {
  }

  // ---- rebalance ----

  /** Frozen and tradeable positions split the kept value. */
  lemma FrozenPlusLoose(g: Market, t: nat, h: Holdings)
    ensures Value(g, t, h) == Value(g, t, Frozen(g, t, h)) + Value(g, t, Loose(g, t, h))
  {
    hide Times, Mark, Tradeable;
    var whole, frozen, loose := Marks(g, t, h), Marks(g, t, Frozen(g, t, h)), Marks(g, t, Loose(g, t, h));
    forall p | 0 <= p < g.pairs ensures whole[p] == frozen[p] + loose[p] {
      TimesAlgebra(0.0, 0.0, Mark(g, t, p));
    }
    SumOfSums(whole, frozen, loose);
  }

  /** Tradeable positions are worth at most the free value; the difference is forced cash. */
  lemma FreeCoversCurrent(g: Market, t: nat, o: Opening)
    requires Valid(g) && t < |g.rows| && SoundOpening(g, t, o)
    ensures var current := Marks(g, t, Loose(g, t, o.kept));
      && (forall p :: 0 <= p < g.pairs ==> current[p] >= 0.0)
      && 0.0 <= Sum(current) <= FreeValue(g, t, o)
  {
    hide Marks, LastClose, Tradeable, Listed;
    FrozenPlusLoose(g, t, o.kept);
    MarksNonNegative(g, t, Loose(g, t, o.kept));
  }

  /** Sum of a vector changed at one position. */
  lemma SumUpdate(v: seq<real>, k: nat, x: real)
    requires k < |v|
    ensures Sum(v[k := v[k] + x]) == Sum(v) + x
  {
    var added := seq(|v|, p requires 0 <= p < |v| => if p == k then x else 0.0);
    SumOfSums(v[k := v[k] + x], v, added);
    SumSingle(added, k);
  }

  /**
   * Targets are nonnegative and sum to the free value, up to the crowd-out tolerance; an excess
   * needs a pick, so it happens only when the free value is about the minimum notional or more.
   */
  lemma TargetsSumToFree(btc: nat, free: real, alloc: seq<real>)
    requires btc < |alloc| && free >= 0.0
    requires forall p :: 0 <= p < |alloc| ==> alloc[p] == 0.0 || alloc[p] >= MIN_NOTIONAL_USD
    ensures var target := Targets(btc, free, alloc);
      && (forall p :: 0 <= p < |target| ==> target[p] >= 0.0)
      && free <= Sum(target) <= free + CROWD_OUT_TOLERANCE
      && (Sum(target) > free ==> free >= MIN_NOTIONAL_USD - CROWD_OUT_TOLERANCE)
      && (forall p :: 0 <= p < |target| && p != btc && target[p] > 0.0 ==> alloc[p] > 0.0)
  {
    hide Times;
    var total := Sum(alloc);
    SumNonNegative(alloc);
    TimesAlgebra(0.0, 0.0, total);
    if total > free + CROWD_OUT_TOLERANCE {
      var scale := free / total;
      QuotientNonNegative(free, total);
      TimesQuotient(free, total);
      SumOfScaled(Targets(btc, free, alloc), scale, alloc);
      forall p | 0 <= p < |alloc| ensures Times(scale, alloc[p]) >= 0.0 && (alloc[p] == 0.0 ==> Times(scale, alloc[p]) == 0.0) {
        TimesNonNegative(scale, alloc[p]);
        TimesAlgebra(0.0, 0.0, scale);
      }
    } else {
      SumUpdate(alloc, btc, Max(free - total, 0.0));
      if total > free {
        var k := SumPositiveWitness(alloc);
        SumAtLeastEntry(alloc, k);
      }
    }
  }

  /** The allocations of k picks total at most k thirds of the sleeve. */
  lemma {:induction false} AllocatedAtMost(g: Market, t: nat, value: real, picks: seq<nat>)
    requires value >= 0.0
    ensures Sum(Allocations(g, t, value, picks)) <= Times(|picks| as real, value / 3.0)
  {
    hide Sum, Times, Tradeable;
    TimesAlgebra(0.0, 0.0, value / 3.0);
    var after := Allocations(g, t, value, picks);
    if picks == [] {
      SumOfZeros(after);
    } else {
      var n := |picks| - 1;
      var before := Allocations(g, t, value, picks[..n]);
      AllocatedAtMost(g, t, value, picks[..n]);
      TimesAlgebra(n as real, 1.0, value / 3.0);
      if picks[n] < g.pairs {
        var raised := before[picks[n] := before[picks[n]] + value / 3.0];
        SumUpdate(before, picks[n], value / 3.0);
        SumMonotone(after, raised);
      } else {
        SumMonotone(after, before);
      }
    }
  }

  /** An executable pick, other than BTC, of at least the minimum notional. */
  predicate Affordable(g: Market, t: nat, value: real, picks: seq<nat>, p: nat) {
    p < g.pairs && p != g.btc && p in picks && Tradeable(g, t, p) && value / 3.0 >= 10.0
  }

  /** BTC is such a pick itself. */
  predicate BtcIsPicked(g: Market, t: nat, value: real, picks: seq<nat>) {
    g.btc in picks && Tradeable(g, t, g.btc) && value / 3.0 >= 10.0
  }

  /**
   * Equal weights: all affordable picks get the same dollars, never more than a third of M(t), and
   * exactly a third when nothing is frozen; no other pair but BTC gets any. Where they get less than
   * a third there is no residue: BTC gets the same if it is picked, and nothing otherwise.
   */
  lemma PicksShareEqually(g: Market, t: nat, c: real, o: Opening, picks: seq<nat>)
    requires Valid(g) && t < |g.rows| && SoundOpening(g, t, o) && |picks| <= K_PICKS
    ensures var target := PlanDay(g, t, c, o, picks).target;
      && (forall p: nat, q: nat :: Affordable(g, t, o.value, picks, p) && Affordable(g, t, o.value, picks, q) ==> target[p] == target[q])
      && (forall p: nat :: Affordable(g, t, o.value, picks, p) ==> 0.0 <= target[p] <= o.value / 3.0)
      && (forall p: nat :: Affordable(g, t, o.value, picks, p) && Frozen(g, t, o.kept) == map[] ==> target[p] == o.value / 3.0)
      && (forall p: nat :: p < g.pairs && p != g.btc && !Affordable(g, t, o.value, picks, p) ==> target[p] == 0.0)
      && (forall p: nat :: Affordable(g, t, o.value, picks, p) && target[p] != o.value / 3.0 ==>
            target[g.btc] == if BtcIsPicked(g, t, o.value, picks) then target[p] else 0.0)
      && (forall p: nat :: Affordable(g, t, o.value, picks, p) && BtcIsPicked(g, t, o.value, picks) ==> target[p] <= target[g.btc])
  {
    hide Sum, Times, Marks, LastClose, Tradeable, Listed, Scale;
    var free, alloc := FreeValue(g, t, o), Allocations(g, t, o.value, picks);
    var total, target := Sum(alloc), PlanDay(g, t, c, o, picks).target;
    FreeCoversCurrent(g, t, o);
    MarksNonNegative(g, t, o.kept);
    AllocatedAtMost(g, t, o.value, picks);
    TimesMonotone(|picks| as real, 3.0, o.value / 3.0);
    ThreeThirds(o.value);
    if Frozen(g, t, o.kept) == map[] {
      NothingFrozen(g, t);
    }
    if total > free + CROWD_OUT_TOLERANCE {
      var scale := free / total;
      QuotientNonNegative(free, total);
      TimesQuotient(free, total);
      TimesAlgebra(1.0, 0.0, total);
      TimesCancels(scale, 1.0, total);
      TimesAlgebra(0.0, 0.0, scale);
      TimesMonotone(scale, 1.0, o.value / 3.0);
      TimesNonNegative(scale, o.value / 3.0);
      TimesAlgebra(0.0, 0.0, o.value / 3.0);
    }
  }

  lemma ThreeThirds(x: real)
    ensures Times(3.0, x / 3.0) == x
  {
  }

  lemma NothingFrozen(g: Market, t: nat)
    ensures Value(g, t, map[]) == 0.0
  {
    SumOfZeros(Marks(g, t, map[]));
  }

  lemma PlanTargets(g: Market, t: nat, c: real, o: Opening, picks: seq<nat>)
    requires Valid(g) && t < |g.rows| && SoundOpening(g, t, o)
    ensures var plan := PlanDay(g, t, c, o, picks);
      && plan.free >= 0.0
      && (forall p :: 0 <= p < g.pairs ==> plan.target[p] >= 0.0 && plan.current[p] >= 0.0)
      && plan.free <= Sum(plan.target) <= plan.free + CROWD_OUT_TOLERANCE
      && (Sum(plan.target) > plan.free ==> plan.free >= MIN_NOTIONAL_USD - CROWD_OUT_TOLERANCE)
      && Sum(plan.current) <= plan.free
      && (forall p :: 0 <= p < g.pairs && p != g.btc && plan.target[p] > 0.0 ==> p in picks && Tradeable(g, t, p))
  {
    hide Marks, LastClose, Tradeable, Listed, Scale, Targets, FreeValue;
    FreeCoversCurrent(g, t, o);
    TargetsSumToFree(g.btc, FreeValue(g, t, o), Allocations(g, t, o.value, picks));
  }

  /** The scale loop is called within its contract and its answer is positive. */
  lemma PlanSolvable(g: Market, t: nat, c: real, o: Opening, picks: seq<nat>)
    requires Valid(g) && t < |g.rows| && SoundOpening(g, t, o) && 0.0 <= c <= MAX_FEE
    requires PlanDay(g, t, c, o, picks).free > 0.0
    ensures var plan := PlanDay(g, t, c, o, picks);
      && Solvable(plan.free, c, plan.target, plan.current)
      && 0.0 < plan.lam <= 1.0
      && Abs(Residual(plan.free, c, plan.target, plan.current, plan.lam)) <= ResidualBound(plan.free, c, plan.target)
  {
    hide Times, Factor, Residual, ResidualBound, Scale, Targets, Marks, FreeValue;
    var plan := PlanDay(g, t, c, o, picks);
    PlanTargets(g, t, c, o, picks);
    var q := Factor(plan.free, c, plan.target);
    NextScaleTimesFree(plan.free, c, plan.target, plan.current, 1.0);
    FeeRoom(plan.free, c, Sum(plan.target), q);
    ScaleIsFeeConsistent(plan.free, c, plan.target, plan.current);
  }

  lemma FeeRoom(free: real, c: real, total: real, q: real)
    requires free > 0.0 && 0.0 <= c <= MAX_FEE
    requires free <= total <= free + CROWD_OUT_TOLERANCE
    requires total > free ==> free >= MIN_NOTIONAL_USD - CROWD_OUT_TOLERANCE
    requires Times(q, free) == Times(c, total)
    ensures c + q <= 0.9999999999
  {
    hide Times;
    if total == free {
      TimesInjective(q, c, free);
    } else {
      TimesMonotone(c, MAX_FEE, total);
      TimesMonotone(c, MAX_FEE, free);
      TimesAlgebra(0.9999999999, c, free);
      LinearTimes(free, total);
      TimesCancels(q, 0.9999999999 - c, free);
    }
  }

  lemma LinearTimes(x: real, y: real)
    ensures Times(MAX_FEE, x) == MAX_FEE * x && Times(MAX_FEE, y) == MAX_FEE * y
    ensures Times(0.9999999999, x) == 0.9999999999 * x
  {
  }

  /** What a rebalance fails to invest because BTC has no open price. */
  function Lost(g: Market, t: nat, plan: Plan): real {
    Times(plan.lam, Sum(Dropped(g, t, plan.target)))
  }

  /** How far a rebalance is from "invested value equals pre-trade value minus fees". */
  function Slip(c: real, plan: Plan): real
    requires |plan.target| == |plan.current|
  {
    Residual(plan.free, c, plan.target, plan.current, plan.lam) + Times(plan.lam, Sum(plan.target) - plan.free)
  }

  function SlipBound(c: real, plan: Plan): real {
    (if plan.free > 0.0 then ResidualBound(plan.free, c, plan.target) else 0.0) + CROWD_OUT_TOLERANCE
  }

  function Fees(c: real, plan: Plan): real
    requires |plan.target| == |plan.current|
  {
    Times(c, Traded(plan.lam, plan.target, plan.current))
  }

  /** The value after buying is the frozen value plus every target dollar that had an open price. */
  lemma RebalancedValue(g: Market, t: nat, frozen: Holdings, lam: real, target: seq<real>)
    requires Valid(g) && t < |g.rows| && |target| == g.pairs
    requires forall p :: 0 <= p < |target| ==> target[p] >= 0.0
    ensures Value(g, t, Rebalanced(g, t, frozen, lam, target))
         == Value(g, t, frozen) + Times(lam, Sum(target)) - Times(lam, Sum(Dropped(g, t, target)))
  {
    hide Sum, Times, Marks, Rebalanced, Dropped, ScaledDifference;
    var after, dropped := Rebalanced(g, t, frozen, lam, target), Dropped(g, t, target);
    var scaled := ScaledDifference(lam, target, dropped);
    forall p | 0 <= p < g.pairs ensures Marks(g, t, after)[p] == Marks(g, t, frozen)[p] + scaled[p] {
      RebalancedMark(g, t, frozen, lam, target, p);
    }
    SumOfSums(Marks(g, t, after), Marks(g, t, frozen), scaled);
    SumOfScaledDifference(lam, target, dropped);
  }

  lemma RebalancedMark(g: Market, t: nat, frozen: Holdings, lam: real, target: seq<real>, p: nat)
    requires Valid(g) && t < |g.rows| && |target| == g.pairs && p < g.pairs && target[p] >= 0.0
    ensures Marks(g, t, Rebalanced(g, t, frozen, lam, target))[p]
         == Marks(g, t, frozen)[p] + ScaledDifference(lam, target, Dropped(g, t, target))[p]
  {
    hide Times, Mark, Rebalanced, BoughtQuantity, Quantity, Dropped;
    BoughtValue(g, t, lam, target, p);
    TimesAlgebra(Quantity(frozen, p), BoughtQuantity(g, t, lam, target, p), Mark(g, t, p));
    RebalancedQuantity(g, t, frozen, lam, target, p);
  }

  function ScaledDifference(lam: real, x: seq<real>, y: seq<real>): (r: seq<real>)
    requires |x| == |y|
    ensures |r| == |x|
  {
    seq(|x|, p requires 0 <= p < |x| => Times(lam, x[p] - y[p]))
  }

  lemma SumOfScaledDifference(lam: real, x: seq<real>, y: seq<real>)
    requires |x| == |y|
    ensures Sum(ScaledDifference(lam, x, y)) == Times(lam, Sum(x)) - Times(lam, Sum(y))
  {
    hide Sum, Times;
    var difference := seq(|x|, p requires 0 <= p < |x| => x[p] - y[p]);
    SumOfScaled(ScaledDifference(lam, x, y), lam, difference);
    SumOfSums(x, difference, y);
    TimesAlgebra(Sum(x), Sum(y), lam);
  }

  lemma RebalancedQuantity(g: Market, t: nat, frozen: Holdings, lam: real, target: seq<real>, p: nat)
    ensures Quantity(Rebalanced(g, t, frozen, lam, target), p)
         == Quantity(frozen, p) + BoughtQuantity(g, t, lam, target, p)
  {
  }

  lemma BoughtValue(g: Market, t: nat, lam: real, target: seq<real>, p: nat)
    requires Valid(g) && t < |g.rows| && |target| == g.pairs && p < g.pairs && target[p] >= 0.0
    ensures Times(BoughtQuantity(g, t, lam, target, p), Mark(g, t, p))
         == Times(lam, target[p] - Dropped(g, t, target)[p])
  {
    hide Times, LastClose;
    assert ValidCell(g.rows[t][p]);
    TimesAlgebra(0.0, 0.0, Mark(g, t, p));
    TimesAlgebra(0.0, 0.0, lam);
    if Bought(g, t, target, p) {
      TimesQuotient(Times(lam, target[p]), At(g, t, p).open.value);
    }
  }

  /** Nothing is invested and nothing traded when everything is frozen. */
  lemma NothingFree(g: Market, t: nat, c: real, o: Opening, picks: seq<nat>)
    requires Valid(g) && t < |g.rows| && SoundOpening(g, t, o)
    requires PlanDay(g, t, c, o, picks).free == 0.0
    ensures var plan := PlanDay(g, t, c, o, picks);
      && Sum(plan.target) == 0.0 && Slip(c, plan) == 0.0 && Fees(c, plan) == 0.0
      && (forall p :: 0 <= p < g.pairs ==> plan.target[p] == 0.0)
  {
    hide Times, Targets, Marks, FreeValue, Scale;
    var plan := PlanDay(g, t, c, o, picks);
    PlanTargets(g, t, c, o, picks);
    TimesAlgebra(0.0, 0.0, c);
    TimesAlgebra(0.0, 0.0, plan.lam);
    SumNonNegative(plan.current);
    forall p | 0 <= p < g.pairs ensures plan.target[p] == 0.0 && plan.current[p] == 0.0 {
      SumAtLeastEntry(plan.target, p);
      SumAtLeastEntry(plan.current, p);
    }
    SumOfZeros(Moves(plan.lam, plan.target, plan.current));
  }

  /**
   * The rebalance is self-financing: value after trading equals M(t) minus the fee on everything
   * traded, up to `Slip`, less what the missing BTC price drops.
   */
  lemma RebalanceIdentity(g: Market, t: nat, c: real, o: Opening, picks: seq<nat>)
    requires Valid(g) && t < |g.rows| && SoundOpening(g, t, o) && 0.0 <= c <= MAX_FEE
    ensures var plan := PlanDay(g, t, c, o, picks);
      && Value(g, t, RebalanceDay(g, t, c, o, picks)) == o.value - Fees(c, plan) + Slip(c, plan) - Lost(g, t, plan)
      && Abs(Slip(c, plan)) <= SlipBound(c, plan)
  {
    hide Times, Residual, ResidualBound, Scale, Targets, Marks, Traded, Factor;
    var plan := PlanDay(g, t, c, o, picks);
    PlanTargets(g, t, c, o, picks);
    RebalancedValue(g, t, Frozen(g, t, o.kept), plan.lam, plan.target);
    SlipUnfolds(c, plan);
    if plan.free > 0.0 {
      PlanSolvable(g, t, c, o, picks);
      var excess := Sum(plan.target) - plan.free;
      TimesMonotone(plan.lam, 1.0, excess);
      TimesNonNegative(plan.lam, excess);
      TimesAlgebra(0.0, 0.0, excess);
    } else {
      NothingFree(g, t, c, o, picks);
    }
  }

  lemma SlipUnfolds(c: real, plan: Plan)
    requires |plan.target| == |plan.current|
    ensures Slip(c, plan) == Times(plan.lam, Sum(plan.target)) - plan.free + Fees(c, plan)
  {
    hide Times, Traded;
    TimesAlgebra(Sum(plan.target), plan.free, plan.lam);
    TimesAlgebra(plan.free, 0.0, plan.lam);
  }

  /**
   * The slip in full: the fee on what the scale loop's last step left out, plus the crowd-out excess.
   * Where targets sum to the free value the rebalance is therefore exact if and only if there is no
   * fee, or the loop's last two scales trade the same notional; and it spends more than there is if and
   * only if there is a fee and the last scale trades more.
   */
  lemma RebalanceIsExactWhen(g: Market, t: nat, c: real, o: Opening, picks: seq<nat>)
    requires Valid(g) && t < |g.rows| && SoundOpening(g, t, o) && 0.0 <= c <= MAX_FEE
    requires PlanDay(g, t, c, o, picks).free > 0.0
    ensures var plan := PlanDay(g, t, c, o, picks);
      var now := Traded(plan.lam, plan.target, plan.current);
      var last := Traded(Last(plan.free, c, plan.target, plan.current), plan.target, plan.current);
      && Slip(c, plan) == Times(c, now - last) + Times(plan.lam, Sum(plan.target) - plan.free)
      && (Sum(plan.target) == plan.free ==> (Slip(c, plan) == 0.0 <==> c == 0.0 || now == last))
      && (Sum(plan.target) == plan.free && At(g, t, g.btc).open.Some? ==>
            (Value(g, t, RebalanceDay(g, t, c, o, picks)) == o.value - Fees(c, plan) <==> c == 0.0 || now == last))
      && (Sum(plan.target) == plan.free && At(g, t, g.btc).open.Some? ==>
            (Value(g, t, RebalanceDay(g, t, c, o, picks)) + Fees(c, plan) > o.value <==> c > 0.0 && now > last))
  {
    hide Times, Residual, Scale, Last, Traded, Targets, Marks, FreeValue, Sum, SlipBound, Dropped;
    RebalanceIdentity(g, t, c, o, picks);
    OnlyBtcIsDropped(g, t, c, o, picks);
    var plan := PlanDay(g, t, c, o, picks);
    ExactWhenLastStepTradesTheSame(plan.free, c, plan.target, plan.current);
    OverspendsWhenLastStepTradesMore(plan.free, c, plan.target, plan.current);
    TimesAlgebra(0.0, 0.0, plan.lam);
    TimesAlgebra(0.0, 0.0, Sum(plan.target) - plan.free);
  }

  /** Targets sum to exactly the free value outside the narrow band of the crowd-out tolerance. */
  lemma NoExcessOutsideTheBand(g: Market, t: nat, c: real, o: Opening, picks: seq<nat>)
    requires Valid(g) && t < |g.rows| && SoundOpening(g, t, o)
    ensures var plan, total := PlanDay(g, t, c, o, picks), Sum(Allocations(g, t, o.value, picks));
      Sum(plan.target) == plan.free <==> total <= plan.free || total > plan.free + CROWD_OUT_TOLERANCE
  {
    hide Times, Sum, Marks, LastClose, Tradeable, Listed, Scale, Allocations;
    var free, alloc := FreeValue(g, t, o), Allocations(g, t, o.value, picks);
    FreeCoversCurrent(g, t, o);
    if Sum(alloc) > free + CROWD_OUT_TOLERANCE {
      TimesQuotient(free, Sum(alloc));
      SumOfScaled(Targets(g.btc, free, alloc), free / Sum(alloc), alloc);
    } else {
      SumUpdate(alloc, g.btc, Max(free - Sum(alloc), 0.0));
    }
  }

  /** Only BTC can be dropped: every other target is an executable pick. */
  lemma OnlyBtcIsDropped(g: Market, t: nat, c: real, o: Opening, picks: seq<nat>)
    requires Valid(g) && t < |g.rows| && SoundOpening(g, t, o)
    ensures var plan := PlanDay(g, t, c, o, picks);
      Sum(Dropped(g, t, plan.target)) == (if At(g, t, g.btc).open.Some? then 0.0 else plan.target[g.btc])
  {
    hide LastClose, Listed, Scale, Targets, Marks, FreeValue;
    PlanTargets(g, t, c, o, picks);
    SumSingle(Dropped(g, t, PlanDay(g, t, c, o, picks).target), g.btc);
  }

  /** Without a BTC open, BTC's target is exactly the residue the allocations leave. */
  lemma ResidueWithoutBtcOpen(g: Market, t: nat, c: real, o: Opening, picks: seq<nat>)
    requires Valid(g) && t < |g.rows| && SoundOpening(g, t, o)
    requires At(g, t, g.btc).open.None?
    ensures var plan := PlanDay(g, t, c, o, picks);
      plan.target[g.btc] == Max(plan.free - Sum(Allocations(g, t, o.value, picks)), 0.0)
  {
    hide Sum, Times, LastClose, Listed, Scale, FreeValue, Marks;
    var free, alloc := FreeValue(g, t, o), Allocations(g, t, o.value, picks);
    assert alloc[g.btc] == 0.0;
    TimesAlgebra(0.0, 0.0, free / (if Sum(alloc) > 0.0 then Sum(alloc) else 1.0));
    FreeCoversCurrent(g, t, o);
  }

  /**
   * A rebalance destroys value if and only if BTC has no open price and the allocations leave a
   * residue of the free value.
   */
  lemma LosesExactlyWhenBtcHasNoOpen(g: Market, t: nat, c: real, o: Opening, picks: seq<nat>)
    requires Valid(g) && t < |g.rows| && SoundOpening(g, t, o) && 0.0 <= c <= MAX_FEE
    ensures Lost(g, t, PlanDay(g, t, c, o, picks)) >= 0.0
    ensures Lost(g, t, PlanDay(g, t, c, o, picks)) == 0.0
       <==> At(g, t, g.btc).open.Some? || Sum(Allocations(g, t, o.value, picks)) >= FreeValue(g, t, o)
  {
    hide Times, Scale, Targets, Marks, Dropped, FreeValue, Residual, ResidualBound, Factor, Allocations;
    var plan := PlanDay(g, t, c, o, picks);
    PlanTargets(g, t, c, o, picks);
    OnlyBtcIsDropped(g, t, c, o, picks);
    TimesAlgebra(0.0, 0.0, plan.lam);
    if At(g, t, g.btc).open.None? {
      ResidueWithoutBtcOpen(g, t, c, o, picks);
    }
    if plan.free > 0.0 {
      PlanSolvable(g, t, c, o, picks);
      if plan.target[g.btc] > 0.0 {
        TimesPositive(plan.lam, plan.target[g.btc]);
      }
    } else {
      NothingFree(g, t, c, o, picks);
    }
  }

  /** The failing family: with no executable pick and no BTC open, only the frozen value is left. */
  lemma NoBtcOpenLosesAllFreeValue(g: Market, t: nat, c: real, o: Opening, picks: seq<nat>)
    requires Valid(g) && t < |g.rows| && SoundOpening(g, t, o) && 0.0 <= c <= MAX_FEE
    requires At(g, t, g.btc).open.None? && forall p :: p in picks ==> !Tradeable(g, t, p)
    ensures var after := Value(g, t, RebalanceDay(g, t, c, o, picks));
      && after == Value(g, t, Frozen(g, t, o.kept)) == o.value - FreeValue(g, t, o)
      && (FreeValue(g, t, o) > 0.0 <==> after < o.value)
      && (FreeValue(g, t, o) > 0.0 <==> Lost(g, t, PlanDay(g, t, c, o, picks)) > 0.0)
  {
    hide Times, Scale, Targets, Marks, LastClose, Tradeable;
    var plan := PlanDay(g, t, c, o, picks);
    PlanTargets(g, t, c, o, picks);
    RebalancedValue(g, t, Frozen(g, t, o.kept), plan.lam, plan.target);
    OnlyBtcIsDropped(g, t, c, o, picks);
    SumSingle(plan.target, g.btc);
    SumOfZeros(Allocations(g, t, o.value, picks));
    LosesExactlyWhenBtcHasNoOpen(g, t, c, o, picks);
  }

  lemma RebalanceKeepsSound(g: Market, t: nat, c: real, o: Opening, picks: seq<nat>)
    requires Valid(g) && t < |g.rows| && SoundOpening(g, t, o) && 0.0 <= c <= MAX_FEE
    ensures Sound(g, t, RebalanceDay(g, t, c, o, picks))
  {
    hide Times, LastClose, Targets, Marks, Scale, FreeValue, Residual, ResidualBound, Factor, Listed;
    var plan := PlanDay(g, t, c, o, picks);
    var after := RebalanceDay(g, t, c, o, picks);
    PlanTargets(g, t, c, o, picks);
    forall p | p in after
      ensures p < g.pairs && after[p] >= 0.0 && LastClose(g, t, p).Some? && (Listed(g, t, p) || p == g.btc)
    {
      if Bought(g, t, plan.target, p) {
        OpenIsPriced(g, t, p);
        BoughtNonNegative(g, t, c, o, picks, p);
      }
    }
  }

  lemma BoughtNonNegative(g: Market, t: nat, c: real, o: Opening, picks: seq<nat>, p: nat)
    requires Valid(g) && t < |g.rows| && SoundOpening(g, t, o) && 0.0 <= c <= MAX_FEE
    requires p < g.pairs && Bought(g, t, PlanDay(g, t, c, o, picks).target, p)
    ensures var plan := PlanDay(g, t, c, o, picks);
      BoughtQuantity(g, t, plan.lam, plan.target, p) > 0.0
  {
    hide Times, LastClose, Targets, Marks, Scale, FreeValue, Residual, ResidualBound, Factor;
    var plan := PlanDay(g, t, c, o, picks);
    assert ValidCell(g.rows[t][p]);
    PlanTargets(g, t, c, o, picks);
    SumAtLeastEntry(plan.target, p);
    if plan.free > 0.0 {
      PlanSolvable(g, t, c, o, picks);
      TimesPositive(plan.lam, plan.target[p]);
      QuotientPositive(Times(plan.lam, plan.target[p]), At(g, t, p).open.value);
    } else {
      NothingFree(g, t, c, o, picks);
    }
  }

  lemma QuotientPositive(x: real, y: real)
    requires x > 0.0 && y > 0.0
    ensures x / y > 0.0
  {
  }

  /** A frozen quantity never decreases, and only BTC's can grow. */
  lemma FrozenNeverShrinks(g: Market, t: nat, c: real, o: Opening, picks: seq<nat>, p: nat)
    requires Valid(g) && t < |g.rows| && SoundOpening(g, t, o) && 0.0 <= c <= MAX_FEE
    requires p in o.kept && !Tradeable(g, t, p)
    ensures var after := RebalanceDay(g, t, c, o, picks);
      && p in after && after[p] >= o.kept[p]
      && (p != g.btc ==> after[p] == o.kept[p])
  {
    hide Times, LastClose, Targets, Marks, Scale, FreeValue, Listed;
    PlanTargets(g, t, c, o, picks);
    if Bought(g, t, PlanDay(g, t, c, o, picks).target, p) {
      BoughtNonNegative(g, t, c, o, picks, p);
    }
  }

  /** A rebalance that drops nothing leaves a positive sleeve positive. */
  lemma RebalanceStaysPositive(g: Market, t: nat, c: real, o: Opening, picks: seq<nat>)
    requires Valid(g) && t < |g.rows| && SoundOpening(g, t, o) && 0.0 <= c <= MAX_FEE
    requires o.value > 0.0 && Lost(g, t, PlanDay(g, t, c, o, picks)) == 0.0
    ensures Value(g, t, RebalanceDay(g, t, c, o, picks)) > 0.0
  {
    hide Times, LastClose, Targets, Marks, Scale, Residual, ResidualBound, Factor, Tradeable, Listed;
    var plan := PlanDay(g, t, c, o, picks);
    var frozen := Frozen(g, t, o.kept);
    PlanTargets(g, t, c, o, picks);
    RebalancedValue(g, t, frozen, plan.lam, plan.target);
    MarksNonNegative(g, t, frozen);
    TimesAlgebra(0.0, 0.0, plan.lam);
    if plan.free > 0.0 {
      PlanSolvable(g, t, c, o, picks);
      TimesPositive(plan.lam, Sum(plan.target));
    } else {
      NothingFree(g, t, c, o, picks);
    }
  }

  // ---- positions, pair by pair ----

  /** The pair is listed, opens and has volume on day t. */
  predicate CanTrade(g: Market, t: nat, p: nat)
    requires t < |g.rows| && p < |g.rows[t]|
  {
    var cell := g.rows[t][p];
    cell.listed && cell.open.Some? && cell.volume.Some? && cell.volume.value > 0.0
  }

  /**
   * A rebalance pair by pair. What cannot trade keeps its quantity, and only BTC's can grow; what can
   * trade is sold whole and bought back to its scaled target at the open.
   */
  lemma RebalanceByPair(g: Market, t: nat, c: real, o: Opening, picks: seq<nat>, p: nat)
    requires Valid(g) && t < |g.rows| && SoundOpening(g, t, o) && 0.0 <= c <= MAX_FEE && p < g.pairs
    ensures var plan, after, cell := PlanDay(g, t, c, o, picks), RebalanceDay(g, t, c, o, picks), g.rows[t][p];
      && (CanTrade(g, t, p) ==>
            && Times(Quantity(after, p), cell.open.value) == Times(plan.lam, plan.target[p])
            && plan.current[p] == Times(Quantity(o.kept, p), cell.open.value))
      && (!CanTrade(g, t, p) ==> plan.current[p] == 0.0 && Quantity(after, p) >= Quantity(o.kept, p))
      && (!CanTrade(g, t, p) && p != g.btc ==>
            plan.target[p] == 0.0 && Quantity(after, p) == Quantity(o.kept, p) && (p in after <==> p in o.kept))
      && (!CanTrade(g, t, p) && p == g.btc && cell.open.Some? ==>
            Times(Quantity(after, p) - Quantity(o.kept, p), cell.open.value) == Times(plan.lam, plan.target[p]))
      && (!CanTrade(g, t, p) && p == g.btc && cell.open.None? ==> Quantity(after, p) == Quantity(o.kept, p))
  {
    hide Times, LastClose, Targets, Scale, FreeValue, Residual, ResidualBound, Factor, Allocations;
    var plan, frozen := PlanDay(g, t, c, o, picks), Frozen(g, t, o.kept);
    PlanTargets(g, t, c, o, picks);
    RebalancedQuantity(g, t, frozen, plan.lam, plan.target, p);
    TimesAlgebra(0.0, 0.0, Mark(g, t, p));
    TimesAlgebra(0.0, 0.0, plan.lam);
    if Bought(g, t, plan.target, p) {
      BoughtNonNegative(g, t, c, o, picks, p);
      OpenIsPriced(g, t, p);
      TimesQuotient(Times(plan.lam, plan.target[p]), g.rows[t][p].open.value);
    }
  }

  /** What there is to invest: forced cash, the unspent part of M(t), and what can trade, at the open. */
  lemma FreeIsCashAndTradeable(g: Market, t: nat, c: real, o: Opening, picks: seq<nat>)
    requires Valid(g) && t < |g.rows| && SoundOpening(g, t, o)
    ensures var plan := PlanDay(g, t, c, o, picks);
      plan.free == o.value - Value(g, t, o.kept) + Sum(plan.current)
  {
    hide Marks, LastClose, Tradeable, Listed, Scale, Targets;
    FrozenPlusLoose(g, t, o.kept);
  }

  /** Forced cash buys BTC at its open, or its last close, and leaves every other position alone. */
  lemma RedeployBuysOnlyBtc(g: Market, t: nat, c: real, o: Opening, p: nat)
    requires Valid(g) && t < |g.rows| && SoundOpening(g, t, o) && 0.0 <= c <= MAX_FEE
    requires o.cash > 0.0 ==> LastClose(g, t, g.btc).Some?
    ensures var after := Redeployed(g, t, c, o);
      && (p != g.btc ==> (p in after <==> p in o.kept) && Quantity(after, p) == Quantity(o.kept, p))
      && (o.cash == 0.0 ==> after == o.kept)
      && (o.cash > 0.0 ==>
            var price := if g.rows[t][g.btc].open.Some? then g.rows[t][g.btc].open.value else LastClose(g, t, g.btc).value;
            && price > 0.0
            && Times(1.0 + c, Times(Quantity(after, g.btc) - Quantity(o.kept, g.btc), price)) == o.cash)
  {
    hide Times, LastClose;
    if o.cash > 0.0 {
      MarkPositive(g, t, g.btc);
      BuyPositive(c, o.cash);
      TimesQuotient(BuyNotional(c, o.cash), Mark(g, t, g.btc));
      TimesAlgebra(1.0, c, BuyNotional(c, o.cash));
    }
  }

  /** A pair delisted by day t leaves at the close of the latest earlier day that had one. */
  lemma ExitsAtLatestClose(g: Market, t: nat, h: Holdings, p: nat)
    requires Valid(g) && 0 < t < |g.rows| && Sound(g, t - 1, h) && p in h
    ensures p in Kept(g, t, h) <==> g.rows[t][p].listed
    ensures p in Kept(g, t, h) ==> Kept(g, t, h)[p] == h[p] && Exits(g, t, h)[p] == 0.0
    ensures p !in Kept(g, t, h) ==>
      exists s: nat :: IsLatestClose(g, s, t - 1, p) && Exits(g, t, h)[p] == Times(h[p], g.rows[s][p].close.value)
  {
    hide Times, LastClose;
    LastCloseIsLatest(g, t - 1, p);
  }
}
