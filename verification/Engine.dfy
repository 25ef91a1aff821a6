/** The imperative day loop: holdings and daily series updated in place, proved against `Simulation.Run`. */
module Engine {
  import opened Arith
  import opened FeeScale
  import opened Grid
  import opened Portfolio
  import opened PortfolioLaws
  import opened Prelude
  import opened Simulation
  import opened Sums

  datatype EngineError = NeverActivates

  /** A dictionary of dollars as a vector: absent means zero. */
  function Dollars(d: Holdings, n: nat): (r: seq<real>)
    ensures |r| == n
  {
    seq(n, p requires 0 <= p < n => Quantity(d, p))
  }

  method Total(d: Holdings, n: nat) returns (s: real)
    ensures s == Sum(Dollars(d, n))
  {
    s := 0.0;
    ghost var v := Dollars(d, n);
    for p := 0 to n
      invariant s == Sum(v[..p])
    {
      if p in d {
        s := s + d[p];
      }
      SumExtend(v, p);
    }
    assert v[..n] == v;
  }

  class Sleeve {
    const g: Market
    const m: Member
    var holdings: Holdings
    const values: array<Option<real>>
    const traded: array<real>

    ghost predicate Ready()
      reads this
    {
      && Setup(g, m)
      && values.Length == traded.Length == |g.rows|
      && (forall p :: p in holdings ==> p < g.pairs)
    }

    constructor (g: Market, m: Member)
      requires Setup(g, m)
      ensures Ready() && this.g == g && this.m == m && holdings == map[]
      ensures fresh(values) && fresh(traded)
      ensures forall t :: 0 <= t < |g.rows| ==> values[t] == None && traded[t] == 0.0
    {
      this.g := g;
      this.m := m;
      holdings := map[];
      values := new Option<real>[|g.rows|](_ => None);
      traded := new real[|g.rows|](_ => 0.0);
    }

    /** Mark positions at the open of day t and force out delisted pairs, fee charged. */
    method MarkAndExit(t: nat) returns (mVal: real, forcedCash: real)
      requires Ready() && 0 < t < |g.rows| && traded[t] == 0.0
      modifies `holdings, traded
      ensures Ready()
      ensures var o := OpenDay(g, t, m.fee, old(holdings));
        holdings == o.kept && mVal == o.value && forcedCash == o.cash && traded[t] == o.exited
      ensures forall u :: 0 <= u < traded.Length && u != t ==> traded[u] == old(traded[u])
    {
      hide BtcIsPricedInTime, Times, Sum, LastClose;
      mVal, forcedCash := 0.0, 0.0;
      var kept: Holdings := map[];
      ghost var marks, exits := Marks(g, t, Kept(g, t, holdings)), Exits(g, t, holdings);
      TimesAlgebra(0.0, 0.0, m.fee);
      EmptySum(marks);
      EmptySum(exits);
      for p := 0 to g.pairs
        invariant holdings == old(holdings)
        invariant kept == map q | q in holdings && q < p && Listed(g, t, q) :: holdings[q]
        invariant mVal == Sum(marks[..p]) && traded[t] == Sum(exits[..p])
        invariant forcedCash == traded[t] - Times(m.fee, traded[t])
        invariant forall u :: 0 <= u < traded.Length && u != t ==> traded[u] == old(traded[u])
      {
        SumExtend(marks, p);
        SumExtend(exits, p);
        TimesAlgebra(0.0, 0.0, Mark(g, t, p));
        if p in holdings {
          var quantity := holdings[p];
          if !Listed(g, t, p) {
            var proceeds := Times(quantity, LastClose(g, t - 1, p).GetOr(0.0));
            var fee := Times(proceeds, m.fee);
            forcedCash := forcedCash + (proceeds - fee);
            TimesAlgebra(traded[t], proceeds, m.fee);
            traded[t] := traded[t] + proceeds;
          } else if At(g, t, p).open.None? {
            mVal := mVal + Times(quantity, LastClose(g, t, p).GetOr(0.0));
            kept := kept[p := quantity];
          } else {
            mVal := mVal + Times(quantity, At(g, t, p).open.value);
            kept := kept[p := quantity];
          }
        }
      }
      assert marks[..g.pairs] == marks && exits[..g.pairs] == exits;
      assert kept == Kept(g, t, holdings);
      holdings := kept;
      mVal := mVal + forcedCash;
    }

    /** On a day without a rebalance forced cash buys BTC at once. */
    method Redeploy(t: nat, forcedCash: real, ghost o: Opening)
      requires Ready() && 0 < t < |g.rows| && SoundOpening(g, t, o)
      requires holdings == o.kept && forcedCash == o.cash && traded[t] == o.exited
      requires LastClose(g, t, g.btc).Some?
      modifies `holdings, traded
      ensures Ready()
      ensures holdings == Redeployed(g, t, m.fee, o)
      ensures traded[t] == o.exited + BuyNotional(m.fee, o.cash)
      ensures forall u :: 0 <= u < traded.Length && u != t ==> traded[u] == old(traded[u])
    {
      hide BtcIsPricedInTime;
      if forcedCash > 0.0 {
        MarkPositive(g, t, g.btc);
        var px := if At(g, t, g.btc).open.Some? then At(g, t, g.btc).open.value else LastClose(g, t, g.btc).GetOr(0.0);
        var buyNotional := forcedCash / (1.0 + m.fee);
        holdings := holdings[g.btc := (if g.btc in holdings then holdings[g.btc] else 0.0) + buyNotional / px];
        traded[t] := traded[t] + buyNotional;
      }
    }

    /** Held pairs that cannot trade at t, and what they are marked at. */
    method Freeze(t: nat) returns (frozen: Holdings, frozenVal: real)
      requires Ready() && t < |g.rows|
      ensures frozen == Frozen(g, t, holdings) && frozenVal == Value(g, t, frozen)
    {
      hide BtcIsPricedInTime, Times, Sum, LastClose, Tradeable, Mark;
      frozen, frozenVal := map[], 0.0;
      ghost var marks := Marks(g, t, Frozen(g, t, holdings));
      EmptySum(marks);
      for p := 0 to g.pairs
        invariant frozen == map q | q in holdings && q < p && !Tradeable(g, t, q) :: holdings[q]
        invariant frozenVal == Sum(marks[..p])
      {
        SumExtend(marks, p);
        TimesAlgebra(0.0, 0.0, Mark(g, t, p));
        if p in holdings && !Tradeable(g, t, p) {
          frozen := frozen[p := holdings[p]];
          frozenVal := frozenVal + Times(holdings[p], Mark(g, t, p));
        }
      }
      assert marks[..g.pairs] == marks;
      assert frozen == Frozen(g, t, holdings);
    }

    /** One third of M(t) for each executable pick of at least the minimum notional. */
    method Allocate(t: nat, mVal: real, picks: seq<nat>) returns (target: Holdings)
      requires Ready() && t < |g.rows| && Ranking.Distinct(picks)
      ensures Dollars(target, g.pairs) == Allocations(g, t, mVal, picks)
    {
      target := map[];
      for i := 0 to |picks|
        invariant forall p :: p in target ==> p in picks[..i]
        invariant forall p :: 0 <= p < g.pairs ==>
          Quantity(target, p) == if p in picks[..i] && Tradeable(g, t, p) && mVal / 3.0 >= MIN_NOTIONAL_USD then mVal / 3.0 else 0.0
      {
        var p := picks[i];
        assert p !in picks[..i];
        var alloc := mVal / 3.0;
        if Tradeable(g, t, p) && alloc >= MIN_NOTIONAL_USD {
          target := target[p := Quantity(target, p) + alloc];
        }
        assert picks[..i + 1] == picks[..i] + [p];
      }
      assert picks[..|picks|] == picks;
    }

    /** The target dollars: crowd-out scaling or BTC residue. */
    method ChooseTargets(t: nat, mVal: real, free: real, picks: seq<nat>) returns (target: Holdings)
      requires Ready() && t < |g.rows| && Ranking.Distinct(picks)
      ensures Dollars(target, g.pairs) == Targets(g.btc, free, Allocations(g, t, mVal, picks))
    {
      hide BtcIsPricedInTime, Times, Sum, Allocations;
      target := Allocate(t, mVal, picks);
      ghost var alloc := Dollars(target, g.pairs);
      var picksTotal := Total(target, g.pairs);
      var resid := Max(free - picksTotal, 0.0);
      if picksTotal > free + CROWD_OUT_TOLERANCE {
        var scale := if picksTotal > 0.0 then free / picksTotal else 0.0;
        TimesAlgebra(0.0, 0.0, scale);
        target := map p | p in target :: Times(scale, target[p]);
        resid := 0.0;
      }
      target := target[g.btc := Quantity(target, g.btc) + resid];
      var want := Targets(g.btc, free, alloc);
      forall p | 0 <= p < g.pairs ensures Dollars(target, g.pairs)[p] == want[p] {
      }
    }

    /** Sell and buy to the fee-consistent targets at the open of day t. */
    method Rebalance(t: nat, mVal: real, ghost o: Opening)
      requires Ready() && 0 < t < |g.rows|
      requires holdings == o.kept && mVal == o.value && traded[t] == o.exited
      modifies `holdings, traded
      ensures Ready()
      ensures var plan := PlanDay(g, t, m.fee, o, Picks(g, m, t - 1));
        && holdings == RebalanceDay(g, t, m.fee, o, Picks(g, m, t - 1))
        && traded[t] == o.exited + Traded(plan.lam, plan.target, plan.current)
      ensures forall u :: 0 <= u < traded.Length && u != t ==> traded[u] == old(traded[u])
    {
      hide BtcIsPricedInTime, Times, Sum, LastClose, Tradeable, Mark, Targets, Allocations, Scale, Picks, Traded;
      var picks := Picks(g, m, t - 1);
      PicksAreBest(g, m, t - 1);
      var frozen, frozenVal := Freeze(t);
      var free := mVal - frozenVal;
      var target := ChooseTargets(t, mVal, free, picks);
      var current := CurrentDollars(t);
      ghost var plan := PlanDay(g, t, m.fee, o, picks);
      var d, cur := Dollars(target, g.pairs), Dollars(current, g.pairs);
      var lam := SolveScale(free, m.fee, d, cur);
      var tr := TradedLoop(lam, d, cur);
      traded[t] := traded[t] + tr;
      holdings := Invest(t, frozen, lam, d);
    }

    method CurrentDollars(t: nat) returns (current: Holdings)
      requires Ready() && t < |g.rows|
      ensures Dollars(current, g.pairs) == Marks(g, t, Loose(g, t, holdings))
    {
      hide BtcIsPricedInTime, Times, LastClose;
      current := map[];
      for p := 0 to g.pairs
        invariant forall q :: q in current ==> q < p
        invariant forall q :: 0 <= q < p ==> Quantity(current, q) == Marks(g, t, Loose(g, t, holdings))[q]
      {
        TimesAlgebra(0.0, 0.0, Mark(g, t, p));
        if p in holdings && Tradeable(g, t, p) {
          current := current[p := Times(holdings[p], At(g, t, p).open.value)];
        }
      }
    }

    method Invest(t: nat, frozen: Holdings, lam: real, target: seq<real>) returns (after: Holdings)
      requires Ready() && t < |g.rows| && |target| == g.pairs
      requires forall p :: p in frozen ==> p < g.pairs
      ensures after == Rebalanced(g, t, frozen, lam, target)
      ensures forall p :: p in after ==> p < g.pairs
    {
      hide BtcIsPricedInTime, FormBefore, Times, LastClose, Mark, Valid;
      after := frozen;
      for p := 0 to g.pairs
        invariant after.Keys == frozen.Keys + set q: nat | q < p && Bought(g, t, target, q)
        invariant forall q :: q in after && q < p ==> after[q] == Quantity(frozen, q) + BoughtQuantity(g, t, lam, target, q)
        invariant forall q :: q in after && q >= p ==> after[q] == Quantity(frozen, q)
      {
        if Bought(g, t, target, p) {
          OpenIsPriced(g, t, p);
          after := after[p := (if p in after then after[p] else 0.0) + Times(lam, target[p]) / At(g, t, p).open.value];
        }
      }
    }

    /** The whole simulation: day by day from the first execution day to the end of the grid, unless the member never activates. */
    method RunMember() returns (r: Result<nat, EngineError>)
      requires Ready() && holdings == map[]
      requires forall t :: 0 <= t < |g.rows| ==> values[t] == None && traded[t] == 0.0
      modifies this, values, traded
      ensures Ready()
      ensures FormBefore(g, m, |g.rows|) == if r.Ok? then Some(r.value) else None
      ensures forall t :: 0 <= t < |g.rows| ==> DayRecorded(t)
      ensures |g.rows| > 0 ==> holdings == HoldingsOf(Run(g, m, |g.rows| - 1))
    {
      hide BtcIsPricedInTime, Run, Valid, FormBefore;
      var first := FindFirstForm();
      if first.None? {
        NeverLive(g, m);
        return Err(NeverActivates);
      }
      r := Ok(first.value);
      var start := first.value + 1;
      IdleBefore(g, m, first.value);
      for t := start to |g.rows|
        invariant Ready()
        invariant holdings == (if t == start then map[] else HoldingsOf(Run(g, m, t - 1)))
        invariant forall u :: 0 <= u < t ==> DayRecorded(u)
        invariant forall u :: t <= u < |g.rows| ==> values[u] == None && traded[u] == 0.0
      {
        LiveFrom(g, m, first.value, t);
        label Before:
        RunDay(t, first.value);
        forall u | 0 <= u <= t ensures DayRecorded(u) {
          assert u < t ==> old@Before(DayRecorded(u)) && values[u] == old@Before(values[u]);
        }
      }
      assert forall u :: 0 <= u < |g.rows| ==> DayRecorded(u);
    }

    /** The series agree with the specification on day t: M(t) and traded notional, or nothing yet. */
    ghost predicate DayRecorded(t: nat)
      requires Ready() && t < |g.rows|
      reads this, values, traded
    {
      match Run(g, m, t)
      case Idle => values[t] == None && traded[t] == 0.0
      case Live(_, o, _, tr) => values[t] == Some(o.value) && traded[t] == tr
    }

    method FindFirstForm() returns (first: Option<nat>)
      requires Ready()
      ensures first == FormBefore(g, m, |g.rows|)
    {
      hide Activates;
      first := None;
      var t := 1;
      while t + 2 < |g.rows|
        invariant 1 <= t && (t == 1 || t + 2 <= |g.rows|)
        invariant FirstFormBelow(g, m, t) == None
      {
        if Activates(g, m, t) {
          assert FirstFormBelow(g, m, t + 1) == Some(t);
          NoFormUntilFirst(g, m, t + 1, SearchEnd(g, |g.rows|));
          return Some(t);
        }
        t := t + 1;
      }
    }

    method RunDay(t: nat, first: nat)
      requires Ready() && first < t < |g.rows|
      requires Run(g, m, t).Live? && Run(g, m, t).first == first
      requires holdings == (if t == first + 1 then map[] else HoldingsOf(Run(g, m, t - 1)))
      requires values[t] == None && traded[t] == 0.0
      modifies `holdings, values, traded
      ensures Ready()
      ensures holdings == Run(g, m, t).holdings
      ensures DayRecorded(t)
      ensures forall u :: 0 <= u < |g.rows| && u != t ==> values[u] == old(values[u]) && traded[u] == old(traded[u])
    {
      hide BtcIsPricedInTime, Times, OpenDay, RebalanceDay, PlanDay, Redeployed, FirstFormBelow, Picks, SoundOpening;
      ghost var o := Run(g, m, t).opening;
      RunIsSound(g, m, t);
      BtcIsPriced(g, m, t);
      var mVal, forcedCash := INITIAL_NOTIONAL_USD, 0.0;
      if t > first + 1 {
        mVal, forcedCash := MarkAndExit(t);
      }
      values[t] := Some(mVal);
      if (t - 1 - first) % m.horizon == 0 {
        Rebalance(t, mVal, o);
      } else {
        Redeploy(t, forcedCash, o);
      }
    }
  }

  lemma EmptySum(v: seq<real>)
    ensures Sum(v[..0]) == 0.0
  {
  }

  /** Before the first execution day nothing happens. */
  lemma IdleBefore(g: Market, m: Member, first: nat)
    requires m.horizon > 0 && m.fee >= 0.0 && g.btc < g.pairs
    requires FormBefore(g, m, |g.rows|) == Some(first)
    ensures first + 2 < |g.rows|
    ensures forall t :: 0 <= t <= first ==> Run(g, m, t).Idle?
  {
    hide FirstFormBelow, CloseDay, OpenDay;
    FirstFormIsFirst(g, m, SearchEnd(g, |g.rows|));
    forall t | 0 <= t <= first ensures Run(g, m, t).Idle? {
      NoFormUntilFirst(g, m, SearchEnd(g, t), SearchEnd(g, |g.rows|));
    }
  }

  lemma NeverLive(g: Market, m: Member)
    requires m.horizon > 0 && m.fee >= 0.0 && g.btc < g.pairs
    requires FormBefore(g, m, |g.rows|) == None
    ensures forall t :: 0 <= t <= |g.rows| ==> Run(g, m, t).Idle?
  {
    hide FirstFormBelow, CloseDay, OpenDay;
    forall t | 0 <= t <= |g.rows| ensures Run(g, m, t).Idle? {
      NoFormUntilFirst(g, m, SearchEnd(g, t), SearchEnd(g, |g.rows|));
    }
  }

  lemma LiveFrom(g: Market, m: Member, first: nat, t: nat)
    requires m.horizon > 0 && m.fee >= 0.0 && g.btc < g.pairs
    requires FormBefore(g, m, |g.rows|) == Some(first) && first < t < |g.rows|
    ensures Run(g, m, t).Live? && Run(g, m, t).first == first
  {
    hide FirstFormBelow, OpenDay, RebalanceDay, PlanDay, Redeployed, Picks;
    FirstFormIsFirst(g, m, SearchEnd(g, |g.rows|));
    NoFormUntilFirst(g, m, SearchEnd(g, t), SearchEnd(g, |g.rows|));
  }
}
