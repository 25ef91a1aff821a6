/**
 * The day loop of the engine as a function of the day, and what holds over every run. `Engine` proves
 * the imperative loop against it.
 */
module Simulation {
  import opened Arith
  import opened FeeScale
  import opened Grid
  import opened Portfolio
  import opened PortfolioLaws
  import opened Prelude
  import Ranking
  import opened Sums

  /** What a run needs: a valid grid, a fee in range, and a BTC price by the first execution day. */
  ghost predicate Setup(g: Market, m: Member) {
    Valid(g) && g.btc < g.pairs && ValidMember(m) && 0.0 <= m.fee <= MAX_FEE && BtcIsPricedInTime(g, m)
  }

  ghost predicate BtcIsPricedInTime(g: Market, m: Member) {
    var first := FormBefore(g, m, |g.rows|);
    first.Some? ==> LastClose(g, first.value + 1, g.btc).Some?
  }

  /** The state after day t: nothing yet, or the day's opening, closing holdings and traded notional. */
  datatype Book = Idle | Live(first: nat, opening: Opening, holdings: Holdings, traded: real)

  /** The search visits days 1 .. n - 3; before day t it has visited those below t. */
  function SearchEnd(g: Market, t: nat): nat {
    if t + 2 <= |g.rows| then t else if |g.rows| < 2 then 0 else |g.rows| - 2
  }

  /** The first form day among the days before t that the search visits. */
  function FormBefore(g: Market, m: Member, t: nat): Option<nat> {
    FirstFormBelow(g, m, SearchEnd(g, t))
  }

  /** Day t rebalances when t - 1 is a form day. */
  predicate IsRebalance(first: nat, horizon: nat, t: nat)
    requires first < t && horizon > 0
  {
    (t - 1 - first) % horizon == 0
  }

  function HoldingsOf(b: Book): Holdings {
    if b.Live? then b.holdings else map[]
  }

  function CloseDay(g: Market, m: Member, t: nat, first: nat, o: Opening): Book
    requires first < t && m.horizon > 0 && m.fee >= 0.0 && g.btc < g.pairs
  {
    if IsRebalance(first, m.horizon, t) then
      var picks := Picks(g, m, t - 1);
      var plan := PlanDay(g, t, m.fee, o, picks);
      Live(first, o, RebalanceDay(g, t, m.fee, o, picks),
           o.exited + Traded(plan.lam, plan.target, plan.current))
    else
      Live(first, o, Redeployed(g, t, m.fee, o), o.exited + BuyNotional(m.fee, o.cash))
  }

  function OpeningOn(g: Market, m: Member, t: nat, first: nat, before: Holdings): Opening
    requires first < t
  {
    if t == first + 1 then FIRST_OPENING else OpenDay(g, t, m.fee, before)
  }

  function Run(g: Market, m: Member, t: nat): Book
    requires m.horizon > 0 && m.fee >= 0.0 && g.btc < g.pairs
  {
    match FormBefore(g, m, t)
    case None => Idle
    case Some(first) =>
      if first >= t then Idle
      else CloseDay(g, m, t, first, OpeningOn(g, m, t, first, HoldingsOf(if t == first + 1 then Idle else Run(g, m, t - 1))))
  }

  // ---- causality: no day looks ahead ----

  lemma MarksCausal(a: Market, b: Market, t: nat, h: Holdings)
    requires SameThrough(a, b, t)
    ensures Marks(a, t, h) == Marks(b, t, h)
  {
    hide BtcIsPricedInTime, Times;
    forall p | 0 <= p < a.pairs ensures Mark(a, t, p) == Mark(b, t, p) {
      LastCloseCausal(a, b, t, p);
    }
  }

  lemma OpenDayCausal(a: Market, b: Market, t: nat, c: real, h: Holdings)
    requires SameThrough(a, b, t) && t > 0
    ensures OpenDay(a, t, c, h) == OpenDay(b, t, c, h)
  {
    hide BtcIsPricedInTime, Times, LastClose, Marks, Sum;
    assert Kept(a, t, h) == Kept(b, t, h);
    MarksCausal(a, b, t, Kept(a, t, h));
    forall p | 0 <= p < a.pairs ensures Exits(a, t, h)[p] == Exits(b, t, h)[p] {
      LastCloseCausal(a, b, t - 1, p);
    }
    assert Exits(a, t, h) == Exits(b, t, h);
  }

  lemma PlanCausal(a: Market, b: Market, t: nat, c: real, o: Opening, picks: seq<nat>)
    requires SameThrough(a, b, t) && a.btc < a.pairs
    ensures Frozen(a, t, o.kept) == Frozen(b, t, o.kept)
    ensures PlanDay(a, t, c, o, picks) == PlanDay(b, t, c, o, picks)
  {
    hide BtcIsPricedInTime, Times, Marks, Sum, Scale, Targets;
    assert Frozen(a, t, o.kept) == Frozen(b, t, o.kept);
    assert Loose(a, t, o.kept) == Loose(b, t, o.kept);
    MarksCausal(a, b, t, Frozen(a, t, o.kept));
    MarksCausal(a, b, t, Loose(a, t, o.kept));
    assert Allocations(a, t, o.value, picks) == Allocations(b, t, o.value, picks);
  }

  lemma InvestCausal(a: Market, b: Market, t: nat, frozen: Holdings, lam: real, target: seq<real>)
    requires SameThrough(a, b, t)
    ensures Rebalanced(a, t, frozen, lam, target) == Rebalanced(b, t, frozen, lam, target)
  {
    hide BtcIsPricedInTime, Times, Quantity;
    forall p: nat ensures At(a, t, p) == At(b, t, p) {
    }
  }

  lemma RebalanceCausal(a: Market, b: Market, t: nat, c: real, o: Opening, picks: seq<nat>)
    requires SameThrough(a, b, t) && a.btc < a.pairs
    ensures PlanDay(a, t, c, o, picks) == PlanDay(b, t, c, o, picks)
    ensures RebalanceDay(a, t, c, o, picks) == RebalanceDay(b, t, c, o, picks)
  {
    hide PlanDay, Frozen, Rebalanced, SameThrough;
    SameEarlier(a, b, t);
    PlanCausal(a, b, t, c, o, picks);
    var plan := PlanDay(a, t, c, o, picks);
    InvestCausal(a, b, t, Frozen(a, t, o.kept), plan.lam, plan.target);
  }

  lemma RedeployCausal(a: Market, b: Market, t: nat, c: real, o: Opening)
    requires SameThrough(a, b, t) && c >= 0.0
    ensures Redeployed(a, t, c, o) == Redeployed(b, t, c, o)
  {
    LastCloseCausal(a, b, t, a.btc);
  }

  lemma SameEarlier(a: Market, b: Market, t: nat)
    requires SameThrough(a, b, t)
    ensures t > 0 ==> SameThrough(a, b, t - 1)
    ensures a.btc == b.btc && a.pairs == b.pairs
  {
  }

  lemma CloseDayCausal(a: Market, b: Market, m: Member, t: nat, first: nat, o: Opening)
    requires SameThrough(a, b, t)
    requires first < t && m.horizon > 0 && m.fee >= 0.0 && a.btc < a.pairs
    ensures CloseDay(a, m, t, first, o) == CloseDay(b, m, t, first, o)
  {
    hide Redeployed, PlanDay, RebalanceDay, Picks, Traded, SameThrough, Activates;
    SameEarlier(a, b, t);
    PicksCausal(a, b, m, t - 1);
    RebalanceCausal(a, b, t, m.fee, o, Picks(a, m, t - 1));
    RedeployCausal(a, b, t, m.fee, o);
  }

  /** Histories that agree through day t give the same first form day, holdings, values and trades through t. */
  lemma {:induction false} RunCausal(a: Market, b: Market, m: Member, t: nat)
    requires SameThrough(a, b, t)
    requires m.horizon > 0 && m.fee >= 0.0 && a.btc < a.pairs
    ensures Run(a, m, t) == Run(b, m, t)
  {
    hide FirstFormBelow, OpenDay, CloseDay;
    var hi := SearchEnd(a, t);
    FirstFormCausal(a, b, m, hi);
    match FormBefore(a, m, t)
    case None =>
    case Some(first) =>
      if first < t {
        if t > first + 1 {
          RunCausal(a, b, m, t - 1);
          OpenDayCausal(a, b, t, m.fee, HoldingsOf(Run(a, m, t - 1)));
        }
        CloseDayCausal(a, b, m, t, first,
                       OpeningOn(a, m, t, first, HoldingsOf(if t == first + 1 then Idle else Run(a, m, t - 1))));
      }
  }

  // ---- every reachable state ----

  /** The search result for a shorter range is the same day, or nothing if that day is outside it. */
  lemma {:induction false} NoFormUntilFirst(g: Market, m: Member, lo: nat, hi: nat)
    requires lo <= hi
    ensures FirstFormBelow(g, m, hi).Some? ==>
      FirstFormBelow(g, m, lo) == if FirstFormBelow(g, m, hi).value < lo then FirstFormBelow(g, m, hi) else None
    ensures FirstFormBelow(g, m, hi).None? ==> FirstFormBelow(g, m, lo).None?
  {
    hide Activates;
    FirstFormIsFirst(g, m, lo);
    if lo < hi {
      NoFormUntilFirst(g, m, lo, hi - 1);
    }
  }

  /** Once live, the engine was live with the same first form day on every day since. */
  lemma LivePersists(g: Market, m: Member, t: nat)
    requires m.horizon > 0 && m.fee >= 0.0 && g.btc < g.pairs
    requires Run(g, m, t).Live?
    ensures var first := Run(g, m, t).first;
      && 1 <= first < t
      && FormBefore(g, m, t) == Some(first)
      && (t > first + 1 ==> Run(g, m, t - 1).Live? && Run(g, m, t - 1).first == first)
  {
    hide Activates, OpenDay, RebalanceDay, PlanDay, Picks, Redeployed, Traded;
    var hi := SearchEnd(g, t);
    var first := Run(g, m, t).first;
    FirstFormIsFirst(g, m, hi);
    if t > first + 1 {
      var lo := SearchEnd(g, t - 1);
      NoFormUntilFirst(g, m, lo, hi);
      assert FormBefore(g, m, t - 1) == FirstFormBelow(g, m, lo);
    }
  }

  lemma FirstOpeningSound(g: Market, t: nat)
    ensures SoundOpening(g, t, FIRST_OPENING)
    ensures FIRST_OPENING.value == Value(g, t, FIRST_OPENING.kept) + INITIAL_NOTIONAL_USD
  {
    NothingFrozen(g, t);
  }

  /** The rebalance plan of a live rebalance day. */
  function PlanOn(g: Market, m: Member, t: nat): Plan
    requires m.horizon > 0 && m.fee >= 0.0 && g.btc < g.pairs && t > 0
    requires Run(g, m, t).Live?
  {
    PlanDay(g, t, m.fee, Run(g, m, t).opening, Picks(g, m, t - 1))
  }

  predicate RebalancedOn(g: Market, m: Member, t: nat)
    requires m.horizon > 0 && m.fee >= 0.0 && g.btc < g.pairs
  {
    var b := Run(g, m, t);
    b.Live? && b.first < t && IsRebalance(b.first, m.horizon, t)
  }

  /** What day t does to the ledger: price gains, traded notional, rounding slip and dropped residue. */
  datatype Entry = Entry(gains: real, traded: real, slip: real, slipBound: real, lost: real) {
    function Plus(e: Entry): Entry {
      Entry(gains + e.gains, traded + e.traded, slip + e.slip, slipBound + e.slipBound, lost + e.lost)
    }
  }

  const NO_ENTRY := Entry(0.0, 0.0, 0.0, 0.0, 0.0)

  function EntryOn(g: Market, m: Member, t: nat): Entry
    requires m.horizon > 0 && m.fee >= 0.0 && g.btc < g.pairs && t > 0
    requires Run(g, m, t).Live?
  {
    var b := Run(g, m, t);
    var gains := if t == b.first + 1 then 0.0 else Sum(Gains(g, t, HoldingsOf(Run(g, m, t - 1))));
    if RebalancedOn(g, m, t) then
      var plan := PlanOn(g, m, t);
      Entry(gains, b.traded, Slip(m.fee, plan), SlipBound(m.fee, plan), Lost(g, t, plan))
    else Entry(gains, b.traded, 0.0, 0.0, 0.0)
  }

  /** All entries from the first execution day through day t. */
  function LedgerThrough(g: Market, m: Member, t: nat): Entry
    requires m.horizon > 0 && m.fee >= 0.0 && g.btc < g.pairs
  {
    if t == 0 || Run(g, m, t).Idle? then NO_ENTRY
    else LedgerThrough(g, m, t - 1).Plus(EntryOn(g, m, t))
  }

  lemma IdleUntilFirst(g: Market, m: Member, t: nat)
    requires m.horizon > 0 && m.fee >= 0.0 && g.btc < g.pairs && t > 0
    requires Run(g, m, t).Live? && t == Run(g, m, t).first + 1
    ensures Run(g, m, t - 1).Idle?
  {
    hide FirstFormBelow, CloseDay, OpenDay;
    LivePersists(g, m, t);
    var hi := SearchEnd(g, t);
    var lo := SearchEnd(g, t - 1);
    NoFormUntilFirst(g, m, lo, hi);
    assert FormBefore(g, m, t - 1) == FirstFormBelow(g, m, lo);
  }

  /** On every live day BTC has a price. */
  lemma BtcIsPriced(g: Market, m: Member, t: nat)
    requires Setup(g, m) && t < |g.rows| && Run(g, m, t).Live?
    ensures LastClose(g, t, g.btc).Some?
  {
    hide FirstFormBelow, Run, Valid, LastClose;
    LivePersists(g, m, t);
    NoFormUntilFirst(g, m, SearchEnd(g, t), SearchEnd(g, |g.rows|));
    PriceRemains(g, Run(g, m, t).first + 1, t, g.btc);
  }

  /** One live day: sound before and after trading, and the value identity of the day. */
  lemma DayKeepsSound(g: Market, m: Member, t: nat, o: Opening)
    requires Setup(g, m) && 0 < t < |g.rows|
    requires Run(g, m, t).Live? && Run(g, m, t).opening == o
    requires SoundOpening(g, t, o)
    requires RebalancedOn(g, m, t) || o.value == Value(g, t, o.kept) + o.cash
    ensures Sound(g, t, Run(g, m, t).holdings)
    ensures var b, e := Run(g, m, t), EntryOn(g, m, t);
      && Value(g, t, b.holdings) == o.value - Times(m.fee, b.traded - o.exited) + e.slip - e.lost
      && Abs(e.slip) <= e.slipBound && e.lost >= 0.0
  {
    hide BtcIsPricedInTime, Times, Value, Valid, Sound, SoundOpening, Run, EntryOn, PlanDay, RebalanceDay, Redeployed, Picks, Slip, SlipBound, Lost,
      Traded, RebalancedOn, BuyNotional;
    LivePersists(g, m, t);
    BookOn(g, m, t);
    if RebalancedOn(g, m, t) {
      var picks := Picks(g, m, t - 1);
      RebalanceKeepsSound(g, t, m.fee, o, picks);
      RebalanceIdentity(g, t, m.fee, o, picks);
      LosesExactlyWhenBtcHasNoOpen(g, t, m.fee, o, picks);
    } else {
      BtcIsPriced(g, m, t);
      RedeployIdentity(g, t, m.fee, o);
    }
  }

  /** What a live day's book and ledger entry are made of. */
  lemma BookOn(g: Market, m: Member, t: nat)
    requires m.horizon > 0 && m.fee >= 0.0 && g.btc < g.pairs && t > 0
    requires Run(g, m, t).Live? && Run(g, m, t).first < t
    ensures var b, e := Run(g, m, t), EntryOn(g, m, t);
      if RebalancedOn(g, m, t) then
        var picks := Picks(g, m, t - 1);
        var plan := PlanDay(g, t, m.fee, b.opening, picks);
        && b.holdings == RebalanceDay(g, t, m.fee, b.opening, picks)
        && b.traded - b.opening.exited == Traded(plan.lam, plan.target, plan.current)
        && e.slip == Slip(m.fee, plan) && e.slipBound == SlipBound(m.fee, plan) && e.lost == Lost(g, t, plan)
      else
        && b.holdings == Redeployed(g, t, m.fee, b.opening)
        && b.traded - b.opening.exited == BuyNotional(m.fee, b.opening.cash)
        && e.slip == e.slipBound == e.lost == 0.0
  {
    hide BtcIsPricedInTime, Times, Picks, PlanDay, RebalanceDay, Redeployed, Slip, SlipBound, Lost, Gains, Traded, BuyNotional,
      FirstFormBelow, OpenDay, Sum;
  }

  lemma FirstDayRebalances(g: Market, m: Member, t: nat)
    requires Setup(g, m) && Run(g, m, t).Live? && t == Run(g, m, t).first + 1
    ensures RebalancedOn(g, m, t) && Run(g, m, t).opening == FIRST_OPENING
  {
    hide Picks, PlanDay, RebalanceDay, Redeployed, FirstFormBelow;
  }

  /** Every reachable day: openings and holdings are sound, and the books of the day balance. */
  lemma {:induction false} RunIsSound(g: Market, m: Member, t: nat)
    requires Setup(g, m) && 0 < t < |g.rows| && Run(g, m, t).Live?
    ensures var b, e := Run(g, m, t), EntryOn(g, m, t);
      && SoundOpening(g, t, b.opening) && Sound(g, t, b.holdings)
      && Value(g, t, b.holdings) == b.opening.value - Times(m.fee, b.traded - b.opening.exited) + e.slip - e.lost
      && Abs(e.slip) <= e.slipBound && e.lost >= 0.0
  {
    hide BtcIsPricedInTime, Times, Sound, SoundOpening, Picks, PlanDay, RebalanceDay, Redeployed, EntryOn, FirstFormBelow, Marks;
    LivePersists(g, m, t);
    var b := Run(g, m, t);
    if t == b.first + 1 {
      FirstDayRebalances(g, m, t);
      FirstOpeningSound(g, t);
    } else {
      RunIsSound(g, m, t - 1);
      OpenKeepsSound(g, t, m.fee, HoldingsOf(Run(g, m, t - 1)));
    }
    DayKeepsSound(g, m, t, b.opening);
  }

  /**
   * Whole-run self-financing. After the trades of any day the sleeve is worth the initial notional
   * plus all price gains, minus the fee on every dollar ever traded, up to the accumulated slip of
   * the scale loop, less whatever a missing BTC open dropped.
   */
  lemma {:induction false} SelfFinancing(g: Market, m: Member, t: nat)
    requires Setup(g, m) && 0 < t < |g.rows| && Run(g, m, t).Live?
    ensures var all := LedgerThrough(g, m, t);
      && Value(g, t, Run(g, m, t).holdings)
         == INITIAL_NOTIONAL_USD + all.gains - Times(m.fee, all.traded) + all.slip - all.lost
      && Abs(all.slip) <= all.slipBound
      && all.lost >= 0.0
  {
    hide BtcIsPricedInTime, Times, Sound, SoundOpening, Picks, PlanDay, RebalanceDay, Redeployed, FirstFormBelow, Marks, Gains,
      Slip, SlipBound, Lost, Run;
    RunIsSound(g, m, t);
    LivePersists(g, m, t);
    var b, e := Run(g, m, t), EntryOn(g, m, t);
    var before := LedgerThrough(g, m, t - 1);
    TimesAlgebra(0.0, 0.0, m.fee);
    TimesAlgebra(before.traded, b.traded, m.fee);
    TimesAlgebra(b.traded, b.opening.exited, m.fee);
    if t == b.first + 1 {
      IdleUntilFirst(g, m, t);
      FirstDayOpening(g, m, t);
    } else {
      SelfFinancing(g, m, t - 1);
      LaterOpening(g, m, t);
    }
  }

  /**
   * What the daily return measures: M(t) - M(t - 1) is the price gain on the post-trade holdings of
   * day t - 1, less that day's trading fees (so they fall on the following return), less the fee on
   * the exits forced at the open of day t.
   */
  lemma DailyChangeIsGainsMinusFees(g: Market, m: Member, t: nat, before: Book, b: Book)
    requires Setup(g, m) && 1 < t < |g.rows|
    requires before == Run(g, m, t - 1) && b == Run(g, m, t) && before.Live? && b.Live?
    ensures var e := EntryOn(g, m, t - 1);
      && b.opening.value - before.opening.value
         == Sum(Gains(g, t, before.holdings)) - Times(m.fee, before.traded - before.opening.exited)
            - Times(m.fee, b.opening.exited) + e.slip - e.lost
      && Abs(e.slip) <= e.slipBound && e.lost >= 0.0
  {
    hide BtcIsPricedInTime, Times, Sum, Sound, SoundOpening, Picks, PlanDay, RebalanceDay, Redeployed, FirstFormBelow, Marks, Gains,
      Slip, SlipBound, Lost, Run, OpenDay, Valid, EntryOn;
    LivePersists(g, m, t);
    LivePersists(g, m, t - 1);
    if t == b.first + 1 {
      IdleUntilFirst(g, m, t);
    }
    RunIsSound(g, m, t - 1);
    LaterOpening(g, m, t);
  }

  lemma FirstDayOpening(g: Market, m: Member, t: nat)
    requires Setup(g, m) && Run(g, m, t).Live? && t == Run(g, m, t).first + 1
    ensures Run(g, m, t).opening == FIRST_OPENING
  {
    FirstDayRebalances(g, m, t);
  }

  lemma LaterOpening(g: Market, m: Member, t: nat)
    requires Setup(g, m) && Run(g, m, t).Live? && t > Run(g, m, t).first + 1
    ensures var before := HoldingsOf(Run(g, m, t - 1));
      && Run(g, m, t).opening == OpenDay(g, t, m.fee, before)
      && Run(g, m, t).opening.value
         == Value(g, t - 1, before) + Sum(Gains(g, t, before)) - Times(m.fee, Run(g, m, t).opening.exited)
  {
    hide Picks, PlanDay, RebalanceDay, Redeployed, FirstFormBelow, OpenDay;
    OpenIdentity(g, t, m.fee, HoldingsOf(Run(g, m, t - 1)));
  }

  /** While nothing has been dropped, the sleeve is worth something before and after every day's trades. */
  lemma {:induction false} StaysPositive(g: Market, m: Member, t: nat)
    requires Setup(g, m) && 0 < t < |g.rows| && Run(g, m, t).Live?
    requires LedgerThrough(g, m, t).lost == 0.0
    ensures Run(g, m, t).opening.value > 0.0
    ensures Value(g, t, Run(g, m, t).holdings) > 0.0
  {
    hide BtcIsPricedInTime, Times, Sound, SoundOpening, Picks, PlanDay, RebalanceDay, Redeployed, FirstFormBelow, Marks, Gains,
      Slip, SlipBound, Lost, Run, OpenDay;
    RunIsSound(g, m, t);
    LivePersists(g, m, t);
    var b := Run(g, m, t);
    if t == b.first + 1 {
      IdleUntilFirst(g, m, t);
      FirstDayOpening(g, m, t);
    } else {
      SelfFinancing(g, m, t - 1);
      StaysPositive(g, m, t - 1);
      LaterOpening(g, m, t);
      RunIsSound(g, m, t - 1);
      OpenStaysPositive(g, t, m.fee, HoldingsOf(Run(g, m, t - 1)));
    }
    DayStaysPositive(g, m, t);
  }

  lemma DayStaysPositive(g: Market, m: Member, t: nat)
    requires Setup(g, m) && 0 < t < |g.rows| && Run(g, m, t).Live?
    requires EntryOn(g, m, t).lost == 0.0 && Run(g, m, t).opening.value > 0.0
    ensures Value(g, t, Run(g, m, t).holdings) > 0.0
  {
    hide BtcIsPricedInTime, Times, Value, Valid, Sound, Run, EntryOn, PlanDay, RebalanceDay, Redeployed, Picks, Slip, SlipBound, Lost,
      Traded, RebalancedOn;
    RunIsSound(g, m, t);
    LivePersists(g, m, t);
    BookOn(g, m, t);
    var o := Run(g, m, t).opening;
    if RebalancedOn(g, m, t) {
      RebalanceStaysPositive(g, t, m.fee, o, Picks(g, m, t - 1));
    } else {
      TimesAlgebra(0.0, 0.0, m.fee);
      if o.cash > 0.0 {
        BuyPositive(m.fee, o.cash);
      }
      MarksNonNegative(g, t, o.kept);
    }
  }

  /** A caller can rule losses out: BTC has an open price on every rebalance day. */
  lemma {:induction false} BtcOpensPreventLoss(g: Market, m: Member, t: nat)
    requires Setup(g, m) && t < |g.rows|
    requires forall u :: 0 < u <= t && RebalancedOn(g, m, u) ==> At(g, u, g.btc).open.Some?
    ensures LedgerThrough(g, m, t).lost == 0.0
  {
    hide BtcIsPricedInTime, Times, Value, Valid, Sound, SoundOpening, Run, EntryOn, PlanDay, RebalanceDay, Redeployed, Picks, Slip, SlipBound, Lost,
      Traded, RebalancedOn, BuyNotional, FeeScale.Scale, Targets;
    if t > 0 && Run(g, m, t).Live? {
      BtcOpensPreventLoss(g, m, t - 1);
      RunIsSound(g, m, t);
      LivePersists(g, m, t);
      BookOn(g, m, t);
      if RebalancedOn(g, m, t) {
        LosesExactlyWhenBtcHasNoOpen(g, t, m.fee, Run(g, m, t).opening, Picks(g, m, t - 1));
      }
    }
  }

  // ---- which day does what ----

  /** The k-th form day of a run. */
  function FormDay(first: nat, horizon: nat, k: nat): nat {
    first + k * horizon
  }

  /** Day t follows a form day. */
  ghost predicate FollowsFormDay(first: nat, horizon: nat, t: nat) {
    exists k: nat :: t == FormDay(first, horizon, k) + 1
  }

  lemma RemainderIsZero(d: nat, horizon: nat)
    requires horizon > 0
    ensures d % horizon == 0 <==> exists k: nat :: d == FormDay(0, horizon, k)
  {
    if d % horizon == 0 {
      assert d == FormDay(0, horizon, d / horizon);
    }
    forall k: nat | d == FormDay(0, horizon, k) ensures d % horizon == 0 {
      MultipleLeavesNothing(k, horizon);
    }
  }

  lemma MultipleLeavesNothing(k: nat, horizon: nat)
    requires horizon > 0
    ensures FormDay(0, horizon, k) % horizon == 0
  {
    var q, r := FormDay(0, horizon, k) / horizon, FormDay(0, horizon, k) % horizon;
    assert (k - q) * horizon == r;
    if k > q {
      AtLeastOnce(k - q, horizon);
    } else if k < q {
      AtLeastOnce(q - k, horizon);
    }
  }

  lemma AtLeastOnce(k: int, horizon: nat)
    requires k >= 1
    ensures k * horizon >= horizon
  {
  }

  /**
   * Every live day, in terms of the form days first, first + horizon, first + 2 * horizon, ...: it
   * opens with the initial cash, or with yesterday's holdings; if it follows a form day it closes
   * with the rebalance into that day's picks, and otherwise with the redeployment of forced cash.
   */
  lemma RunFollowsFormDays(g: Market, m: Member, t: nat)
    requires m.horizon > 0 && m.fee >= 0.0 && g.btc < g.pairs
    requires Run(g, m, t).Live?
    ensures var b := Run(g, m, t);
      && b.first < t
      && (t == b.first + 1 ==> b.opening == FIRST_OPENING)
      && (t > b.first + 1 ==> Run(g, m, t - 1).Live? && b.opening == OpenDay(g, t, m.fee, Run(g, m, t - 1).holdings))
      && if FollowsFormDay(b.first, m.horizon, t) then
           var picks := Picks(g, m, t - 1);
           var plan := PlanDay(g, t, m.fee, b.opening, picks);
           && b.holdings == RebalanceDay(g, t, m.fee, b.opening, picks)
           && b.traded == b.opening.exited + Traded(plan.lam, plan.target, plan.current)
         else
           && b.holdings == Redeployed(g, t, m.fee, b.opening)
           && b.traded == b.opening.exited + BuyNotional(m.fee, b.opening.cash)
  {
    hide BtcIsPricedInTime, Times, Picks, PlanDay, RebalanceDay, Redeployed, Traded, BuyNotional, FirstFormBelow, OpenDay, Sum;
    LivePersists(g, m, t);
    var first := Run(g, m, t).first;
    FormDayRemainder(first, m.horizon, t);
  }

  lemma FormDayRemainder(first: nat, horizon: nat, t: nat)
    requires first < t && horizon > 0
    ensures IsRebalance(first, horizon, t) <==> FollowsFormDay(first, horizon, t)
  {
    RemainderIsZero(t - 1 - first, horizon);
    if IsRebalance(first, horizon, t) {
      var k: nat :| t - 1 - first == FormDay(0, horizon, k);
      assert t == FormDay(first, horizon, k) + 1;
    }
    if FollowsFormDay(first, horizon, t) {
      var k: nat :| t == FormDay(first, horizon, k) + 1;
      assert t - 1 - first == FormDay(0, horizon, k);
    }
  }

  /** The first form day is the first day from 1 to n - 3 with three picks; a member without one never trades. */
  lemma FirstFormDay(g: Market, m: Member)
    requires Valid(g) && m.horizon > 0 && m.fee >= 0.0 && g.btc < g.pairs
    ensures match FormBefore(g, m, |g.rows|)
      case Some(first) =>
        && 1 <= first && first + 2 < |g.rows| && |Picks(g, m, first)| == 3
        && (forall t :: 1 <= t < first ==> |Picks(g, m, t)| < 3)
      case None => forall t :: 1 <= t && t + 2 < |g.rows| ==> |Picks(g, m, t)| < 3
  {
    hide Picks, Activates, FirstFormBelow;
    var n := SearchEnd(g, |g.rows|);
    FirstFormIsFirst(g, m, n);
    forall t: nat | 1 <= t < n ensures Activates(g, m, t) <==> |Picks(g, m, t)| == 3 {
      ActivatesWithThreePicks(g, m, t);
    }
    forall t: nat | 1 <= t < n ensures |Picks(g, m, t)| <= 3 {
      AtMostThreePicks(g, m, t);
    }
  }

  lemma AtMostThreePicks(g: Market, m: Member, t: nat)
    ensures |Picks(g, m, t)| <= 3
  {
    PicksAreBest(g, m, t);
  }

  // ---- where "exact" and "no loss" fail ----

  /** On the first execution day the plan invests cash alone, and its targets sum to exactly that cash. */
  lemma FirstPlan(g: Market, m: Member, t: nat)
    requires Setup(g, m) && 0 < t < |g.rows|
    ensures var plan := PlanDay(g, t, m.fee, FIRST_OPENING, Picks(g, m, t - 1));
      && plan.free == FreeValue(g, t, FIRST_OPENING) == INITIAL_NOTIONAL_USD == Sum(plan.target)
      && (forall p :: 0 <= p < |plan.current| ==> plan.current[p] == 0.0)
  {
    hide BtcIsPricedInTime, Times, Sum, Picks, Scale, Allocations, Tradeable, LastClose, Mark;
    var picks, o := Picks(g, m, t - 1), FIRST_OPENING;
    FirstOpeningSound(g, t);
    PicksAreBest(g, m, t - 1);
    assert Frozen(g, t, o.kept) == map[] && Loose(g, t, o.kept) == map[];
    NothingFrozen(g, t);
    AllocatedAtMost(g, t, o.value, picks);
    TimesMonotone(|picks| as real, 3.0, o.value / 3.0);
    ThreeThirds(o.value);
    NoExcessOutsideTheBand(g, t, m.fee, o, picks);
    forall p | 0 <= p < g.pairs ensures Marks(g, t, map[])[p] == 0.0 {
      TimesAlgebra(0.0, 0.0, Mark(g, t, p));
    }
  }

  /**
   * No run with a fee meets "invested value equals pre-trade value minus fees" exactly: its first
   * rebalance already misses it. Without a fee every first rebalance meets it.
   */
  lemma FirstRebalanceIsExactOnlyWithoutFees(g: Market, m: Member, t: nat)
    requires Setup(g, m) && 0 < t < |g.rows|
    requires Run(g, m, t).Live? && t == Run(g, m, t).first + 1
    ensures EntryOn(g, m, t).slip == 0.0 <==> m.fee == 0.0
  {
    hide BtcIsPricedInTime, Times, Sum, Picks, Scale, PlanDay, Residual, Run, Valid, Factor, SoundOpening;
    var picks := Picks(g, m, t - 1);
    var plan := PlanDay(g, t, m.fee, FIRST_OPENING, picks);
    FirstDayRebalances(g, m, t);
    FirstOpeningSound(g, t);
    FirstPlan(g, m, t);
    BookOn(g, m, t);
    PlanSolvable(g, t, m.fee, FIRST_OPENING, picks);
    AllCashIsExactOnlyWithoutFees(plan.free, m.fee, plan.target, plan.current);
    PlanScale(g, t, m.fee, FIRST_OPENING, picks);
    TimesAlgebra(0.0, 0.0, plan.lam);
  }

  /**
   * Negative cash. The first rebalance spends, fees included, the whole notional plus the slip less
   * what is dropped. The slip is positive if and only if there is a fee and the scale loop takes an
   * even number of steps; so where BTC opens, exactly then more is spent than there is.
   */
  lemma FirstRebalanceOverspends(g: Market, m: Member, t: nat)
    requires Setup(g, m) && 0 < t < |g.rows|
    requires Run(g, m, t).Live? && t == Run(g, m, t).first + 1
    ensures var b, e := Run(g, m, t), EntryOn(g, m, t);
      var spent := Value(g, t, b.holdings) + Times(m.fee, b.traded);
      && spent == INITIAL_NOTIONAL_USD + e.slip - e.lost
      && (e.slip > 0.0 <==> m.fee > 0.0 && CashSteps(m.fee) % 2 == 0)
      && (e.slip < 0.0 <==> m.fee > 0.0 && CashSteps(m.fee) % 2 == 1)
      && (At(g, t, g.btc).open.Some? ==>
            (spent > INITIAL_NOTIONAL_USD <==> m.fee > 0.0 && CashSteps(m.fee) % 2 == 0))
  {
    hide BtcIsPricedInTime, Times, Sum, Picks, Scale, PlanDay, Residual, Run, Valid, Factor, SoundOpening, CashSteps, Sound, Value, RebalanceDay,
      ResidualBound, FreeValue, Lost, SlipBound;
    var picks := Picks(g, m, t - 1);
    var plan := PlanDay(g, t, m.fee, FIRST_OPENING, picks);
    FirstDayRebalances(g, m, t);
    FirstOpeningSound(g, t);
    FirstPlan(g, m, t);
    BookOn(g, m, t);
    RunIsSound(g, m, t);
    PlanSolvable(g, t, m.fee, FIRST_OPENING, picks);
    PlanScale(g, t, m.fee, FIRST_OPENING, picks);
    CashMissAlternates(plan.free, m.fee, plan.target, plan.current);
    LosesExactlyWhenBtcHasNoOpen(g, t, m.fee, FIRST_OPENING, picks);
    TimesAlgebra(0.0, 0.0, plan.lam);
  }

  /**
   * The protocol's fees. At 25 and at 35 basis points the first rebalance of every run in which BTC
   * opens spends more than the sleeve has; at 50 it leaves cash over.
   */
  lemma ProtocolRunsOverspend(g: Market, m: Member, t: nat)
    requires Setup(g, m) && 0 < t < |g.rows| && At(g, t, g.btc).open.Some?
    requires Run(g, m, t).Live? && t == Run(g, m, t).first + 1
    requires m.fee in {0.0025, 0.0035, 0.0050}
    ensures Value(g, t, Run(g, m, t).holdings) + Times(m.fee, Run(g, m, t).traded) > INITIAL_NOTIONAL_USD
       <==> m.fee in {0.0025, 0.0035}
  {
    hide Run, Setup, Value, Times, CashSteps;
    ProtocolFees();
    FirstRebalanceOverspends(g, m, t);
  }

  lemma PlanScale(g: Market, t: nat, c: real, o: Opening, picks: seq<nat>)
    requires g.btc < g.pairs
    ensures var plan := PlanDay(g, t, c, o, picks);
      plan.lam == Scale(plan.free, c, plan.target, plan.current)
  {
  }

  /** A gap day at the start loses everything: without a BTC open or an executable pick the whole sleeve is dropped. */
  lemma FirstDayCanLoseEverything(g: Market, m: Member, t: nat)
    requires Setup(g, m) && 0 < t < |g.rows|
    requires Run(g, m, t).Live? && t == Run(g, m, t).first + 1
    requires At(g, t, g.btc).open.None? && forall p :: p in Picks(g, m, t - 1) ==> !Tradeable(g, t, p)
    ensures Run(g, m, t).opening.value == INITIAL_NOTIONAL_USD
    ensures Value(g, t, Run(g, m, t).holdings) == 0.0 && EntryOn(g, m, t).lost > 0.0
  {
    hide BtcIsPricedInTime, Times, Sum, Picks, Scale, PlanDay, RebalanceDay, Run, Valid, SoundOpening, Lost, Tradeable;
    var picks := Picks(g, m, t - 1);
    FirstDayRebalances(g, m, t);
    FirstOpeningSound(g, t);
    FirstPlan(g, m, t);
    BookOn(g, m, t);
    NoBtcOpenLosesAllFreeValue(g, t, m.fee, FIRST_OPENING, picks);
  }

  const FULL_BAR := Cell(true, Some(1.0), Some(1.0), Some(1.0))
  const GAP_BAR := Cell(true, None, None, None)

  /** Three listed pairs, BTC first, with full bars on two days and a data gap on the next two. */
  const GAP_MARKET := Market(3, 0, {},
    [[FULL_BAR, FULL_BAR, FULL_BAR], [FULL_BAR, FULL_BAR, FULL_BAR],
     [GAP_BAR, GAP_BAR, GAP_BAR], [GAP_BAR, GAP_BAR, GAP_BAR]])

  lemma GapMarketRow(p: nat)
    requires p < 3
    ensures p in Universe(GAP_MARKET, 1) && SignalRow(GAP_MARKET, 1, 1)[p].Some?
  {
    hide UniverseBelow;
    assert Listed(GAP_MARKET, 0, p);
  }

  /** On that market any member with lookback 1 over the whole universe activates on day 1. */
  lemma GapMarketActivates(m: Member)
    requires m.lookback == 1 && !m.liquid
    ensures FirstFormBelow(GAP_MARKET, m, 2) == Some(1)
  {
    hide Universe, Signal, Ranking.Scored;
    var g := GAP_MARKET;
    var row, all := SignalRow(g, 1, 1), ScoredMembers(g, m, 1);
    forall p: nat | p < 3 ensures row[p].Some? && Ranking.Entry(row, m.momentum, p) in all {
      GapMarketRow(p);
      Ranking.ScoredComplete(Members(g, m, 1), row, m.momentum, p);
    }
    ThreeMembers(all, Ranking.Entry(row, m.momentum, 0), Ranking.Entry(row, m.momentum, 1), Ranking.Entry(row, m.momentum, 2));
    assert FirstFormBelow(g, m, 1) == None;
  }

  lemma ThreeMembers<T>(s: seq<T>, x: T, y: T, z: T)
    requires x in s && y in s && z in s && x != y && y != z && x != z
    ensures |s| >= 3
  {
    var i :| 0 <= i < |s| && s[i] == x;
    var j :| 0 <= j < |s| && s[j] == y;
    var k :| 0 <= k < |s| && s[k] == z;
  }

  /** The loss is reachable: a run that starts into a data gap turns its whole notional into nothing. */
  lemma GapMarketLosesEverything(m: Member)
    requires m.lookback == 1 && !m.liquid && m.horizon > 0 && 0.0 <= m.fee <= MAX_FEE
    ensures Setup(GAP_MARKET, m) && Run(GAP_MARKET, m, 2).Live?
    ensures Run(GAP_MARKET, m, 2).opening.value == INITIAL_NOTIONAL_USD
    ensures Value(GAP_MARKET, 2, Run(GAP_MARKET, m, 2).holdings) == 0.0
  {
    hide Picks, Activates, FirstFormBelow, PlanDay, RebalanceDay, Traded;
    GapMarketActivates(m);
    assert FormBefore(GAP_MARKET, m, 2) == FormBefore(GAP_MARKET, m, 4) == Some(1);
    assert LastClose(GAP_MARKET, 1, 0) == Some(1.0);
    assert LastClose(GAP_MARKET, 2, 0) == LastClose(GAP_MARKET, 1, 0);
    FirstDayCanLoseEverything(GAP_MARKET, m, 2);
  }
}
