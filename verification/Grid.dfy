/**
 * Daily price grids, the signals and universe tiers computed from them, and the picks of a form
 * day. A row is indexed by pair position; a missing cell (NaN) is None. Every function of day t
 * reads rows up to t only, which the `Causal` lemmas state.
 */
module Grid {
  import opened Arith
  import opened Prelude
  import opened Ranking

  const K_PICKS: nat := 3
  const LIQUID_TIER_SIZE: nat := 10
  const VOLUME_MEDIAN_WINDOW: nat := 30

  datatype Cell = Cell(listed: bool, open: Option<real>, close: Option<real>, volume: Option<real>)

  datatype Market = Market(pairs: nat, btc: nat, stable: set<nat>, rows: seq<seq<Cell>>)

  /** One family member: direction, lookback, horizon, tier and the fee per side. */
  datatype Member = Member(momentum: bool, lookback: nat, horizon: nat, liquid: bool, fee: real)

  ghost predicate ValidCell(c: Cell) {
    && (!c.listed ==> c.open.None? && c.close.None? && c.volume.None?)
    && (c.open.Some? ==> c.open.value > 0.0 && c.close.Some?)
    && (c.close.Some? ==> c.close.value > 0.0)
  }

  /** Bars carry positive prices and a close. */
  ghost predicate Valid(g: Market) {
    && g.btc < g.pairs
    && (forall t :: 0 <= t < |g.rows| ==> |g.rows[t]| == g.pairs)
    && (forall t, p :: 0 <= t < |g.rows| && 0 <= p < g.pairs ==> ValidCell(g.rows[t][p]))
  }

  ghost predicate ValidMember(m: Member) {
    m.lookback > 0 && m.horizon > 0
  }

  // ---- masking: bars outside the listed intervals contribute nothing ----

  function Mask(c: Cell): Cell {
    if c.listed then c else Cell(false, None, None, None)
  }

  function MaskRows(rows: seq<seq<Cell>>): (r: seq<seq<Cell>>)
    ensures |r| == |rows|
    ensures forall t :: 0 <= t < |rows| ==> |r[t]| == |rows[t]|
  {
    seq(|rows|, t requires 0 <= t < |rows| => seq(|rows[t]|, p requires 0 <= p < |rows[t]| => Mask(rows[t][p])))
  }

  /** Two stores that agree wherever a pair is listed build the same grid. */
  lemma MaskedBarsContributeNothing(a: seq<seq<Cell>>, b: seq<seq<Cell>>)
    requires |a| == |b|
    requires forall t :: 0 <= t < |a| ==> |a[t]| == |b[t]|
    requires forall t, p :: 0 <= t < |a| && 0 <= p < |a[t]| ==>
      a[t][p].listed == b[t][p].listed && (a[t][p].listed ==> a[t][p] == b[t][p])
    ensures MaskRows(a) == MaskRows(b)
  {
    forall t | 0 <= t < |a| ensures MaskRows(a)[t] == MaskRows(b)[t] {
      forall p | 0 <= p < |a[t]| ensures MaskRows(a)[t][p] == MaskRows(b)[t][p] {
      }
    }
  }

  // ---- cells ----

  function At(g: Market, t: nat, p: nat): Cell {
    if t < |g.rows| && p < |g.rows[t]| then g.rows[t][p] else Cell(false, None, None, None)
  }

  predicate Listed(g: Market, t: nat, p: nat) {
    At(g, t, p).listed
  }

  predicate Tradeable(g: Market, t: nat, p: nat) {
    var c := At(g, t, p);
    c.listed && c.open.Some? && c.volume.Some? && c.volume.value > 0.0
  }

  /** The last unmasked close through day t (forward fill). */
  function LastClose(g: Market, t: nat, p: nat): Option<real> {
    if At(g, t, p).close.Some? then At(g, t, p).close
    else if t == 0 then None
    else LastClose(g, t - 1, p)
  }

  // ---- signals and universe ----

  function Median(obs: seq<real>): real
    requires obs != []
  {
    var s := Sort(Keyed(obs));
    (s[(|s| - 1) / 2].key + s[|s| / 2].key) / 2.0
  }

  function Keyed(obs: seq<real>): (r: seq<Ranked>)
    ensures |r| == |obs|
  {
    seq(|obs|, i requires 0 <= i < |obs| => Ranked(obs[i], 0))
  }

  lemma {:induction false} KeyedCounts(obs: seq<real>, x: real)
    ensures multiset(Keyed(obs))[Ranked(x, 0)] == multiset(obs)[x]
  {
    if obs != [] {
      var n := |obs| - 1;
      KeyedCounts(obs[..n], x);
      assert obs == obs[..n] + [obs[n]];
      assert Keyed(obs) == Keyed(obs[..n]) + [Ranked(obs[n], 0)];
    }
  }

  /** The observations in ascending order. */
  lemma SortedKeys(obs: seq<real>) returns (s: seq<real>)
    ensures Keyed(s) == Sort(Keyed(obs)) && multiset(s) == multiset(obs) && |s| == |obs|
  {
    hide Sort;
    var sorted := Sort(Keyed(obs));
    s := seq(|obs|, i requires 0 <= i < |obs| => sorted[i].key);
    forall i | 0 <= i < |sorted| ensures sorted[i].id == 0 {
      SortMembers(Keyed(obs), sorted[i]);
    }
    assert Keyed(s) == sorted;
    forall x ensures multiset(s)[x] == multiset(obs)[x] {
      KeyedCounts(s, x);
      KeyedCounts(obs, x);
    }
  }

  /** The median splits the observations: in ascending order the first half is at or below it and the second half at or above. */
  lemma MedianSplits(obs: seq<real>) returns (s: seq<real>)
    requires obs != []
    ensures multiset(s) == multiset(obs) && |s| == |obs|
    ensures forall i :: 0 <= i <= (|s| - 1) / 2 ==> s[i] <= Median(obs)
    ensures forall i :: |s| / 2 <= i < |s| ==> s[i] >= Median(obs)
  {
    hide Sort;
    s := SortedKeys(obs);
    SortSorted(Keyed(obs));
    assert forall i :: 0 <= i < |s| ==> Keyed(s)[i].key == s[i];
  }

  /** Dollar volumes of p on the days [lo, hi) that have one. */
  function DollarVolumes(g: Market, lo: nat, hi: nat, p: nat): seq<real>
    decreases hi
  {
    if hi <= lo then []
    else
      var c := At(g, hi - 1, p);
      DollarVolumes(g, lo, hi - 1, p)
      + if c.close.Some? && c.volume.Some? then [Times(c.close.value, c.volume.value)] else []
  }

  /** Trailing 30-day median dollar volume through t - 1. */
  function MedianDollarVolume(g: Market, t: nat, p: nat): Option<real> {
    var lo := if t <= VOLUME_MEDIAN_WINDOW then 0 else t - VOLUME_MEDIAN_WINDOW;
    var obs := DollarVolumes(g, lo, t, p);
    if obs == [] then None else Some(Median(obs))
  }

  /** Trailing return close(t) / close(t - L) - 1, on days the pair traded. */
  function Signal(g: Market, lookback: nat, t: nat, p: nat): Option<real> {
    var c := At(g, t, p);
    if !(c.close.Some? && c.volume.Some? && c.volume.value > 0.0 && t >= lookback) then None
    else match At(g, t - lookback, p).close
      case None => None
      case Some(base) => if base == 0.0 then None else Some(c.close.value / base - 1.0)
  }

  function MedianRow(g: Market, t: nat): seq<Option<real>> {
    seq(g.pairs, p requires 0 <= p < g.pairs => MedianDollarVolume(g, t, p))
  }

  function SignalRow(g: Market, lookback: nat, t: nat): seq<Option<real>> {
    seq(g.pairs, p requires 0 <= p < g.pairs => Signal(g, lookback, t, p))
  }

  /** Pairs below k that were listed on t - 1 and are not stablecoins, in name order. */
  function UniverseBelow(g: Market, t: nat, k: nat): (r: seq<nat>)
    ensures forall p: nat :: p in r <==> p < k && t > 0 && Listed(g, t - 1, p) && p !in g.stable
    ensures forall i, j :: 0 <= i < j < |r| ==> r[i] < r[j]
  {
    if k == 0 then []
    else
      var front := UniverseBelow(g, t, k - 1);
      assert forall i :: 0 <= i < |front| ==> front[i] in front;
      if t > 0 && Listed(g, t - 1, k - 1) && k - 1 !in g.stable then front + [k - 1] else front
  }

  function Universe(g: Market, t: nat): seq<nat> {
    UniverseBelow(g, t, g.pairs)
  }

  function LiquidTier(g: Market, t: nat): seq<nat> {
    Top(Scored(Universe(g, t), MedianRow(g, t), true), LIQUID_TIER_SIZE)
  }

  function Members(g: Market, m: Member, t: nat): seq<nat> {
    if m.liquid then LiquidTier(g, t) else Universe(g, t)
  }

  function ScoredMembers(g: Market, m: Member, t: nat): seq<Ranked> {
    Scored(Members(g, m, t), SignalRow(g, m.lookback, t), m.momentum)
  }

  /** Ordered picks from the signal at close(t); empty when nothing ranks. */
  function Picks(g: Market, m: Member, t: nat): seq<nat> {
    Top(ScoredMembers(g, m, t), K_PICKS)
  }

  predicate Activates(g: Market, m: Member, t: nat) {
    |ScoredMembers(g, m, t)| >= K_PICKS
  }

  /** The first activating day in [1, hi). */
  function FirstFormBelow(g: Market, m: Member, hi: nat): Option<nat> {
    if hi <= 1 then None
    else match FirstFormBelow(g, m, hi - 1)
      case Some(t) => Some(t)
      case None => if Activates(g, m, hi - 1) then Some(hi - 1) else None
  }

  lemma {:induction false} FirstFormIsFirst(g: Market, m: Member, hi: nat)
    ensures var r := FirstFormBelow(g, m, hi);
      && (r.Some? ==> 1 <= r.value < hi && Activates(g, m, r.value))
      && (forall t :: 1 <= t < (if r.Some? then r.value else hi) ==> !Activates(g, m, t))
  {
    hide Activates;
    if hi > 1 {
      FirstFormIsFirst(g, m, hi - 1);
    }
  }

  lemma UniverseDistinct(g: Market, t: nat)
    ensures Distinct(Universe(g, t))
  {
  }

  /** The liquid tier is the ten most traded members of the point-in-time universe. */
  lemma LiquidTierIsMostTraded(g: Market, t: nat)
    ensures var tier, score := LiquidTier(g, t), MedianRow(g, t);
      && Distinct(tier) && |tier| <= LIQUID_TIER_SIZE
      && (forall p :: p in tier ==> p in Universe(g, t) && p < g.pairs && score[p].Some?)
      && (forall p, q :: p in tier && q in Universe(g, t) && score[q].Some? && q !in tier ==>
            Outranks(score, true, p, q))
  {
    hide Scored, Top, MedianDollarVolume;
    UniverseDistinct(g, t);
    TopIsBest(Universe(g, t), MedianRow(g, t), true, LIQUID_TIER_SIZE);
  }

  lemma MembersDistinct(g: Market, m: Member, t: nat)
    ensures Distinct(Members(g, m, t))
    ensures forall p :: p in Members(g, m, t) ==> p < g.pairs
  {
    LiquidTierIsMostTraded(g, t);
    UniverseDistinct(g, t);
  }

  /** Picks are at most three distinct rankable members, and no other rankable member beats one. */
  lemma PicksAreBest(g: Market, m: Member, t: nat)
    ensures var picks, score := Picks(g, m, t), SignalRow(g, m.lookback, t);
      && Distinct(picks) && |picks| <= K_PICKS
      && (Activates(g, m, t) ==> |picks| == K_PICKS)
      && (forall p :: p in picks ==> p in Members(g, m, t) && p < g.pairs && score[p].Some?)
      && (forall p, q :: p in picks && q in Members(g, m, t) && q < g.pairs && score[q].Some? && q !in picks ==>
            Outranks(score, m.momentum, p, q))
  {
    hide Scored, Top, Signal, Members;
    MembersDistinct(g, m, t);
    TopIsBest(Members(g, m, t), SignalRow(g, m.lookback, t), m.momentum, K_PICKS);
  }

  // ---- the same over the bars themselves ----

  ghost predicate IsLatestClose(g: Market, s: nat, t: nat, p: nat)
    requires Valid(g) && t < |g.rows| && p < g.pairs
  {
    s <= t && g.rows[s][p].close.Some? && forall u :: s < u <= t ==> g.rows[u][p].close.None?
  }

  /** Forward fill gives the close of the latest day through t that has one, if there is one. */
  lemma {:induction false} LastCloseIsLatest(g: Market, t: nat, p: nat)
    requires Valid(g) && t < |g.rows| && p < g.pairs
    ensures LastClose(g, t, p).Some? ==>
      exists s: nat :: IsLatestClose(g, s, t, p) && LastClose(g, t, p) == g.rows[s][p].close
    ensures LastClose(g, t, p).None? ==> forall s :: 0 <= s <= t ==> g.rows[s][p].close.None?
  {
    if g.rows[t][p].close.Some? {
      assert IsLatestClose(g, t, t, p);
    } else if t > 0 {
      LastCloseIsLatest(g, t - 1, p);
      if LastClose(g, t, p).Some? {
        var s: nat :| IsLatestClose(g, s, t - 1, p) && LastClose(g, t - 1, p) == g.rows[s][p].close;
        assert IsLatestClose(g, s, t, p);
      }
    }
  }

  /** The members of day t by the listing of the day before, and by tier. */
  lemma MembersByListing(g: Market, m: Member, t: nat, p: nat)
    requires Valid(g) && t < |g.rows| && p < g.pairs
    ensures !m.liquid ==> (p in Members(g, m, t) <==> t > 0 && g.rows[t - 1][p].listed && p !in g.stable)
    ensures m.liquid ==> Members(g, m, t) == LiquidTier(g, t)
    ensures p in LiquidTier(g, t) ==> t > 0 && g.rows[t - 1][p].listed && p !in g.stable
  {
    hide Scored, Top, MedianDollarVolume;
    LiquidTierIsMostTraded(g, t);
  }

  /** A close and volume on day t, and a close `lookback` days before. */
  predicate HasReturn(g: Market, lookback: nat, t: nat, p: nat)
    requires forall u :: 0 <= u < |g.rows| ==> |g.rows[u]| == g.pairs
    requires t < |g.rows| && p < g.pairs
  {
    && g.rows[t][p].close.Some? && g.rows[t][p].volume.Some? && g.rows[t][p].volume.value > 0.0
    && lookback <= t && g.rows[t - lookback][p].close.Some?
  }

  lemma SignalIsReturn(g: Market, lookback: nat, t: nat, p: nat)
    requires Valid(g) && t < |g.rows| && p < g.pairs
    ensures SignalRow(g, lookback, t)[p].Some? <==> HasReturn(g, lookback, t, p)
    ensures HasReturn(g, lookback, t, p) ==>
      Times(SignalRow(g, lookback, t)[p].value + 1.0, g.rows[t - lookback][p].close.value) == g.rows[t][p].close.value
  {
    hide Times;
    if HasReturn(g, lookback, t, p) {
      assert ValidCell(g.rows[t - lookback][p]);
      TimesQuotient(g.rows[t][p].close.value, g.rows[t - lookback][p].close.value);
    }
  }

  /** Comparing two returns x / x0 - 1 and y / y0 - 1 is comparing cross products. */
  lemma CompareReturns(x: real, x0: real, y: real, y0: real, u: real, v: real)
    requires x0 > 0.0 && y0 > 0.0 && Times(u + 1.0, x0) == x && Times(v + 1.0, y0) == y
    ensures u > v <==> Times(x, y0) > Times(y, x0)
    ensures u == v <==> Times(x, y0) == Times(y, x0)
  {
    hide Times;
    var k := Times(x0, y0);
    TimesPositive(x0, y0);
    TimesAssociates(u + 1.0, x0, y0);
    TimesAssociates(v + 1.0, y0, x0);
    TimesAlgebra(y0, 0.0, x0);
    if u + 1.0 <= v + 1.0 {
      TimesMonotone(u + 1.0, v + 1.0, k);
    }
    if v + 1.0 <= u + 1.0 {
      TimesMonotone(v + 1.0, u + 1.0, k);
    }
    if Times(u + 1.0, k) <= Times(v + 1.0, k) {
      TimesCancels(u + 1.0, v + 1.0, k);
    }
    if Times(v + 1.0, k) <= Times(u + 1.0, k) {
      TimesCancels(v + 1.0, u + 1.0, k);
    }
  }

  /**
   * What a pick is, over closes and volumes: a member with a return; and of two members with returns,
   * one picked and one not, the picked one has the higher return for momentum, the lower for
   * reversal, or the same and the earlier name. Nobody with a return is left out before there are
   * three picks, and a member activates exactly when there are three.
   */
  lemma PicksByReturn(g: Market, m: Member, t: nat, p: nat, q: nat)
    requires Valid(g) && t < |g.rows|
    requires p in Picks(g, m, t)
    ensures p in Members(g, m, t) && p < g.pairs && HasReturn(g, m.lookback, t, p)
    ensures q in Members(g, m, t) && q < g.pairs && HasReturn(g, m.lookback, t, q) && q !in Picks(g, m, t) ==>
      var now, past := g.rows[t], g.rows[t - m.lookback];
      var mine := Times(now[p].close.value, past[q].close.value);
      var other := Times(now[q].close.value, past[p].close.value);
      && (mine == other ==> p < q)
      && (if m.momentum then mine >= other else mine <= other)
      && |Picks(g, m, t)| == 3
  {
    hide Signal, Members, Top, Scored, Times;
    var score := SignalRow(g, m.lookback, t);
    PicksAreBest(g, m, t);
    SignalIsReturn(g, m.lookback, t, p);
    if q in Members(g, m, t) && q < g.pairs && HasReturn(g, m.lookback, t, q) && q !in Picks(g, m, t) {
      var now, past := g.rows[t], g.rows[t - m.lookback];
      SignalIsReturn(g, m.lookback, t, q);
      assert ValidCell(past[p]) && ValidCell(past[q]);
      CompareReturns(now[p].close.value, past[p].close.value, now[q].close.value, past[q].close.value,
                     score[p].value, score[q].value);
      assert Outranks(score, m.momentum, p, q);
      PicksAreFull(g, m, t, q);
    }
  }

  lemma PicksAreFull(g: Market, m: Member, t: nat, q: nat)
    requires q in Members(g, m, t) && q < g.pairs && SignalRow(g, m.lookback, t)[q].Some? && q !in Picks(g, m, t)
    ensures |Picks(g, m, t)| == 3
  {
    hide Signal, Members, Sort, Scored;
    var all := ScoredMembers(g, m, t);
    ScoredComplete(Members(g, m, t), SignalRow(g, m.lookback, t), m.momentum, q);
    if |all| <= 3 {
      TopKeepsFew(all, 3, Entry(SignalRow(g, m.lookback, t), m.momentum, q));
    }
  }

  /** A member activates exactly on the days with three picks, and everybody with a return is picked on the others. */
  lemma ActivatesWithThreePicks(g: Market, m: Member, t: nat)
    requires Valid(g) && t < |g.rows|
    ensures Activates(g, m, t) <==> |Picks(g, m, t)| == 3
    ensures !Activates(g, m, t) ==> forall p :: p in Members(g, m, t) && p < g.pairs && HasReturn(g, m.lookback, t, p) ==>
      p in Picks(g, m, t)
  {
    hide Signal, Members, Top, Scored;
    PicksAreBest(g, m, t);
    forall p | p in Members(g, m, t) && p < g.pairs && HasReturn(g, m.lookback, t, p) && p !in Picks(g, m, t)
      ensures |Picks(g, m, t)| == 3
    {
      SignalIsReturn(g, m.lookback, t, p);
      PicksAreFull(g, m, t, p);
    }
    PickCount(g, m, t);
  }

  lemma PickCount(g: Market, m: Member, t: nat)
    ensures |Picks(g, m, t)| == 3 <==> Activates(g, m, t)
  {
    hide Signal, Members, Scored, Sort;
  }

  /** The days of the 30 before t on which p has a close and a volume, and their dollar volumes. */
  ghost predicate IsWindow(g: Market, t: nat, p: nat, days: seq<nat>, obs: seq<real>)
    requires Valid(g) && t < |g.rows| && p < g.pairs
  {
    && IsDayList(g, if t <= 30 then 0 else t - 30, t, p, days)
    && |obs| == |days|
    && forall i :: 0 <= i < |days| ==> obs[i] == Times(g.rows[days[i]][p].close.value, g.rows[days[i]][p].volume.value)
  }

  ghost predicate IsDayList(g: Market, lo: nat, hi: nat, p: nat, days: seq<nat>)
    requires Valid(g) && hi <= |g.rows| && p < g.pairs
  {
    && (forall i, j :: 0 <= i < j < |days| ==> days[i] < days[j])
    && (forall d: nat :: d in days <==> lo <= d < hi && g.rows[d][p].close.Some? && g.rows[d][p].volume.Some?)
    && (forall i :: 0 <= i < |days| ==> days[i] in days)
  }

  lemma {:induction false} DollarDays(g: Market, lo: nat, hi: nat, p: nat) returns (days: seq<nat>)
    requires Valid(g) && hi <= |g.rows| && p < g.pairs
    ensures IsDayList(g, lo, hi, p, days) && |days| == |DollarVolumes(g, lo, hi, p)|
    ensures forall i :: 0 <= i < |days| ==>
      DollarVolumes(g, lo, hi, p)[i] == Times(g.rows[days[i]][p].close.value, g.rows[days[i]][p].volume.value)
    decreases hi
  {
    hide Times;
    if hi <= lo {
      days := [];
    } else {
      days := DollarDays(g, lo, hi - 1, p);
      if g.rows[hi - 1][p].close.Some? && g.rows[hi - 1][p].volume.Some? {
        days := days + [hi - 1];
      }
    }
  }

  /** The score of the liquid tier is the median dollar volume of that window. */
  lemma MedianOfWindow(g: Market, t: nat, p: nat) returns (days: seq<nat>, obs: seq<real>)
    requires Valid(g) && t < |g.rows| && p < g.pairs
    ensures IsWindow(g, t, p, days, obs)
    ensures MedianRow(g, t)[p] == if obs == [] then None else Some(Median(obs))
  {
    hide Times, Median;
    var lo := if t <= 30 then 0 else t - 30;
    days := DollarDays(g, lo, t, p);
    obs := DollarVolumes(g, lo, t, p);
  }

  /**
   * The liquid tier over closes and volumes: of two members with a bar in the last 30 days, one in
   * the tier and one not, the first has the higher median dollar volume, or the same and the
   * earlier name; and nobody is left out before the tier has ten members.
   */
  lemma LiquidTierByDollarVolume(g: Market, t: nat, p: nat, q: nat)
      returns (days: seq<nat>, obs: seq<real>, others: seq<nat>, other: seq<real>)
    requires Valid(g) && t < |g.rows| && p in LiquidTier(g, t)
    requires q in Universe(g, t) && q !in LiquidTier(g, t)
    ensures p < g.pairs && q < g.pairs && IsWindow(g, t, p, days, obs) && IsWindow(g, t, q, others, other)
    ensures obs != []
    ensures other != [] ==>
      && (Median(obs) > Median(other) || (Median(obs) == Median(other) && p < q))
      && |LiquidTier(g, t)| == 10
  {
    hide Times, Median, Scored, Top, MedianDollarVolume, DollarVolumes;
    LiquidTierIsMostTraded(g, t);
    days, obs := MedianOfWindow(g, t, p);
    others, other := MedianOfWindow(g, t, q);
    if other != [] {
      assert Outranks(MedianRow(g, t), true, p, q);
      TierIsFull(g, t, q);
    }
  }

  lemma TierIsFull(g: Market, t: nat, q: nat)
    requires q in Universe(g, t) && q < g.pairs && MedianRow(g, t)[q].Some? && q !in LiquidTier(g, t)
    ensures |LiquidTier(g, t)| == 10
  {
    hide MedianDollarVolume, Sort, Scored, UniverseBelow;
    var all := Scored(Universe(g, t), MedianRow(g, t), true);
    ScoredComplete(Universe(g, t), MedianRow(g, t), true, q);
    if |all| <= 10 {
      TopKeepsFew(all, 10, Entry(MedianRow(g, t), true, q));
    }
  }

  // ---- causality ----

  /** Two histories of the same length that agree on every row through t. */
  ghost predicate SameThrough(a: Market, b: Market, t: nat) {
    && a.pairs == b.pairs && a.btc == b.btc && a.stable == b.stable
    && |a.rows| == |b.rows|
    && (forall s :: 0 <= s <= t && s < |a.rows| ==> a.rows[s] == b.rows[s])
  }

  lemma {:induction false} LastCloseCausal(a: Market, b: Market, t: nat, p: nat)
    requires SameThrough(a, b, t)
    ensures LastClose(a, t, p) == LastClose(b, t, p)
  {
    if t > 0 {
      LastCloseCausal(a, b, t - 1, p);
    }
  }

  lemma {:induction false} DollarVolumesCausal(a: Market, b: Market, lo: nat, hi: nat, p: nat)
    requires hi > 0 ==> SameThrough(a, b, hi - 1)
    ensures DollarVolumes(a, lo, hi, p) == DollarVolumes(b, lo, hi, p)
    decreases hi
  {
    if lo < hi {
      DollarVolumesCausal(a, b, lo, hi - 1, p);
      assert At(a, hi - 1, p) == At(b, hi - 1, p);
    }
  }

  lemma {:induction false} UniverseCausal(a: Market, b: Market, t: nat, k: nat)
    requires SameThrough(a, b, t)
    ensures UniverseBelow(a, t, k) == UniverseBelow(b, t, k)
  {
    if k > 0 {
      UniverseCausal(a, b, t, k - 1);
    }
  }

  lemma PicksCausal(a: Market, b: Market, m: Member, t: nat)
    requires SameThrough(a, b, t)
    ensures Picks(a, m, t) == Picks(b, m, t)
    ensures Activates(a, m, t) == Activates(b, m, t)
  {
    hide Top, Scored, Median;
    UniverseCausal(a, b, t, a.pairs);
    forall p | 0 <= p < a.pairs ensures MedianRow(a, t)[p] == MedianRow(b, t)[p] {
      DollarVolumesCausal(a, b, if t <= VOLUME_MEDIAN_WINDOW then 0 else t - VOLUME_MEDIAN_WINDOW, t, p);
    }
    assert MedianRow(a, t) == MedianRow(b, t);
    assert SignalRow(a, m.lookback, t) == SignalRow(b, m.lookback, t);
  }

  lemma {:induction false} FirstFormCausal(a: Market, b: Market, m: Member, hi: nat)
    requires hi > 0 ==> SameThrough(a, b, hi - 1)
    ensures FirstFormBelow(a, m, hi) == FirstFormBelow(b, m, hi)
  {
    hide Activates, Picks;
    if hi > 1 {
      FirstFormCausal(a, b, m, hi - 1);
      PicksCausal(a, b, m, hi - 1);
    }
  }
}
