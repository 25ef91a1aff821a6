/**
 * One day of the portfolio engine on values: marking with forced exits, BTC redeployment, the
 * rebalance, and the accounting identity of each step. Holdings map a pair to a quantity; every
 * dollar vector has one entry per pair.
 */
module Portfolio {
  import opened Arith
  import opened FeeScale
  import opened Grid
  import opened Prelude
  import opened Sums

  const MIN_NOTIONAL_USD: real := 10.0
  const INITIAL_NOTIONAL_USD: real := 10700.0
  const CROWD_OUT_TOLERANCE: real := 0.000000001

  type Holdings = map<nat, real>

  // ---- marking ----

  /** Open if there is one, else the last available close. */
  function Mark(g: Market, t: nat, p: nat): real {
    if At(g, t, p).open.Some? then At(g, t, p).open.value else LastClose(g, t, p).GetOr(0.0)
  }

  function Quantity(h: Holdings, p: nat): real {
    if p in h then h[p] else 0.0
  }

  function Marks(g: Market, t: nat, h: Holdings): (r: seq<real>)
    ensures |r| == g.pairs
  {
    seq(g.pairs, p requires 0 <= p < g.pairs => Times(Quantity(h, p), Mark(g, t, p)))
  }

  function Value(g: Market, t: nat, h: Holdings): real {
    Sum(Marks(g, t, h))
  }

  // ---- open: mark and force out delisted pairs ----

  function Kept(g: Market, t: nat, h: Holdings): Holdings {
    map p | p in h && Listed(g, t, p) :: h[p]
  }

  function Exits(g: Market, t: nat, h: Holdings): (r: seq<real>)
    requires t > 0
    ensures |r| == g.pairs
  {
    seq(g.pairs, p requires 0 <= p < g.pairs =>
      if p in h && !Listed(g, t, p) then Times(h[p], LastClose(g, t - 1, p).GetOr(0.0)) else 0.0)
  }

  /** What the open leaves: kept positions, forced notional, forced cash after fees, and M(t). */
  datatype Opening = Opening(kept: Holdings, exited: real, cash: real, value: real)

  function OpenDay(g: Market, t: nat, c: real, h: Holdings): Opening
    requires t > 0
  {
    var exited := Sum(Exits(g, t, h));
    var cash := exited - Times(c, exited);
    Opening(Kept(g, t, h), exited, cash, Value(g, t, Kept(g, t, h)) + cash)
  }

  /** The first execution day: the sleeve is cash only. */
  const FIRST_OPENING := Opening(map[], 0.0, 0.0, INITIAL_NOTIONAL_USD)

  // ---- no rebalance: forced cash buys BTC ----

  function BuyNotional(c: real, cash: real): real
    requires c >= 0.0
  {
    if cash > 0.0 then cash / (1.0 + c) else 0.0
  }

  function Redeployed(g: Market, t: nat, c: real, o: Opening): Holdings
    requires c >= 0.0
  {
    if o.cash > 0.0 && Mark(g, t, g.btc) != 0.0
    then o.kept[g.btc := Quantity(o.kept, g.btc) + BuyNotional(c, o.cash) / Mark(g, t, g.btc)]
    else o.kept
  }

  // ---- rebalance ----

  function Frozen(g: Market, t: nat, h: Holdings): Holdings {
    map p | p in h && !Tradeable(g, t, p) :: h[p]
  }

  function Loose(g: Market, t: nat, h: Holdings): Holdings {
    map p | p in h && Tradeable(g, t, p) :: h[p]
  }

  function FreeValue(g: Market, t: nat, o: Opening): real {
    o.value - Value(g, t, Frozen(g, t, o.kept))
  }

  /** One third of M(t) for each executable pick worth at least the minimum notional. */
  function Allocations(g: Market, t: nat, value: real, picks: seq<nat>): (r: seq<real>)
    ensures |r| == g.pairs
  {
    seq(g.pairs, p requires 0 <= p < g.pairs =>
      if p in picks && Tradeable(g, t, p) && value / 3.0 >= MIN_NOTIONAL_USD then value / 3.0 else 0.0)
  }

  /** Allocations scaled down when frozen positions crowd them out; otherwise the rest goes to BTC. */
  function Targets(btc: nat, free: real, alloc: seq<real>): (r: seq<real>)
    requires btc < |alloc|
    ensures |r| == |alloc|
  {
    var total := Sum(alloc);
    if total > free + CROWD_OUT_TOLERANCE then
      var scale := if total > 0.0 then free / total else 0.0;
      seq(|alloc|, p requires 0 <= p < |alloc| => Times(scale, alloc[p]))
    else
      alloc[btc := alloc[btc] + Max(free - total, 0.0)]
  }

  /** Everything a rebalance decides before it trades. */
  datatype Plan = Plan(free: real, target: seq<real>, current: seq<real>, lam: real)

  function PlanDay(g: Market, t: nat, c: real, o: Opening, picks: seq<nat>): (r: Plan)
    requires g.btc < g.pairs
    ensures |r.target| == |r.current| == g.pairs
  {
    var free := FreeValue(g, t, o);
    var target := Targets(g.btc, free, Allocations(g, t, o.value, picks));
    var current := Marks(g, t, Loose(g, t, o.kept));
    Plan(free, target, current, Scale(free, c, target, current))
  }

  predicate Bought(g: Market, t: nat, target: seq<real>, p: nat) {
    p < |target| && target[p] > 0.0 && At(g, t, p).open.Some?
  }

  function BoughtQuantity(g: Market, t: nat, lam: real, target: seq<real>, p: nat): real {
    if Bought(g, t, target, p) && At(g, t, p).open.value != 0.0
    then Times(lam, target[p]) / At(g, t, p).open.value else 0.0
  }

  function Rebalanced(g: Market, t: nat, frozen: Holdings, lam: real, target: seq<real>): Holdings {
    map p: nat | p in frozen.Keys + (set q: nat | q < |target| && Bought(g, t, target, q)) ::
      Quantity(frozen, p) + BoughtQuantity(g, t, lam, target, p)
  }

  function RebalanceDay(g: Market, t: nat, c: real, o: Opening, picks: seq<nat>): Holdings
    requires g.btc < g.pairs
  {
    var plan := PlanDay(g, t, c, o, picks);
    Rebalanced(g, t, Frozen(g, t, o.kept), plan.lam, plan.target)
  }

  /** Target dollars whose pair has no open price: they are dropped, not invested. */
  function Dropped(g: Market, t: nat, target: seq<real>): (r: seq<real>)
    ensures |r| == |target|
  {
    seq(|target|, p requires 0 <= p < |target| => if At(g, t, p).open.Some? then 0.0 else target[p])
  }
}
