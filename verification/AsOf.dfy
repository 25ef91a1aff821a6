/**
 * The as-of panel: filings become step functions on the bar grid. Instants are integers, bars are
 * strictly increasing, and a symbol's filings are in the order left by sorting on `known`; values
 * are present because missing ones were dropped when the frame was emitted.
 */
module AsOf {
  import opened Prelude

  datatype Filing = Filing(known: int, value: real)

  ghost predicate Bars(dates: seq<int>) {
    forall i, j :: 0 <= i < j < |dates| ==> dates[i] < dates[j]
  }

  ghost predicate ByKnown(filings: seq<Filing>) {
    forall i, j :: 0 <= i < j < |filings| ==> filings[i].known <= filings[j].known
  }

  // ---- positions ----

  /** `searchsorted(side="left")`: the first bar at or after x, or the number of bars. */
  function FirstAtOrAfter(dates: seq<int>, x: int): (r: nat)
    ensures r <= |dates|
    ensures r < |dates| ==> dates[r] >= x
    ensures forall i :: 0 <= i < r ==> dates[i] < x
  {
    if dates == [] || dates[0] >= x then 0 else 1 + FirstAtOrAfter(dates[1..], x)
  }

  /** The bar from which a filing is usable; it may lie beyond the grid. */
  function UsableFrom(dates: seq<int>, lag: nat, f: Filing): nat {
    FirstAtOrAfter(dates, f.known) + lag
  }

  /** The bar at which the panel places it: `clip` moves it back onto the grid. */
  function PlacedAt(dates: seq<int>, lag: nat, f: Filing): (r: nat)
    requires dates != []
    ensures r < |dates|
  {
    var i := UsableFrom(dates, lag, f);
    if i < |dates| then i else |dates| - 1
  }

  lemma UsableInOrder(dates: seq<int>, lag: nat, filings: seq<Filing>, i: nat, j: nat)
    requires dates != [] && Bars(dates) && ByKnown(filings) && i < j < |filings|
    ensures UsableFrom(dates, lag, filings[i]) <= UsableFrom(dates, lag, filings[j])
    ensures PlacedAt(dates, lag, filings[i]) <= PlacedAt(dates, lag, filings[j])
  {
    var a, b := FirstAtOrAfter(dates, filings[i].known), FirstAtOrAfter(dates, filings[j].known);
    assert b < |dates| ==> dates[b] >= filings[i].known;
  }

  // ---- the panel as it is computed ----

  /** Filings placed on bars, the last one winning a bar. */
  function Placed(dates: seq<int>, lag: nat, filings: seq<Filing>): (r: seq<Option<real>>)
    requires dates != []
    ensures |r| == |dates|
  {
    if filings == [] then seq(|dates|, _ => None)
    else
      var n := |filings| - 1;
      Placed(dates, lag, filings[..n])[PlacedAt(dates, lag, filings[n]) := Some(filings[n].value)]
  }

  function ForwardFill(s: seq<Option<real>>): (r: seq<Option<real>>)
    ensures |r| == |s|
  {
    if s == [] then []
    else
      var n := |s| - 1;
      var r := ForwardFill(s[..n]);
      r + [if s[n].Some? || n == 0 then s[n] else r[n - 1]]
  }

  function Panel(dates: seq<int>, lag: nat, filings: seq<Filing>): (r: seq<Option<real>>)
    requires dates != []
    ensures |r| == |dates|
  {
    ForwardFill(Placed(dates, lag, filings))
  }

  method PanelColumn(dates: seq<int>, lag: nat, filings: seq<Filing>) returns (column: seq<Option<real>>)
    requires dates != []
    ensures column == Panel(dates, lag, filings)
  {
    var s := new Option<real>[|dates|](_ => None);
    PlaceFilings(s, dates, lag, filings);
    FillForward(s);
    column := s[..];
  }

  method PlaceFilings(s: array<Option<real>>, dates: seq<int>, lag: nat, filings: seq<Filing>)
    requires dates != [] && s.Length == |dates| && forall b :: 0 <= b < s.Length ==> s[b] == None
    modifies s
    ensures s[..] == Placed(dates, lag, filings)
  {
    assert s[..] == Placed(dates, lag, []);
    for k := 0 to |filings|
      invariant s[..] == Placed(dates, lag, filings[..k])
    {
      var f := filings[k];
      assert filings[..k + 1][..k] == filings[..k];
      var i := FirstAtOrAfter(dates, f.known) + lag;
      i := if i < |dates| then i else |dates| - 1;
      s[i] := Some(f.value);
    }
    assert filings[..|filings|] == filings;
  }

  method FillForward(s: array<Option<real>>)
    modifies s
    ensures s[..] == ForwardFill(old(s[..]))
  {
    hide ForwardFill;
    ghost var placed := s[..];
    for b := 0 to s.Length
      invariant forall k :: 0 <= k < b ==> s[k] == ForwardFill(placed)[k]
      invariant forall k :: b <= k < s.Length ==> s[k] == placed[k]
    {
      FillIsLastPlaced(placed, b);
      if b > 0 && s[b].None? {
        s[b] := s[b - 1];
      }
    }
  }

  method AsOfPanel(frame: seq<(string, seq<Filing>)>, dates: seq<int>, lag: nat) returns (out: map<string, seq<Option<real>>>)
    requires dates != []
    requires forall i, j :: 0 <= i < j < |frame| ==> frame[i].0 != frame[j].0
    ensures forall i :: 0 <= i < |frame| ==> frame[i].0 in out && out[frame[i].0] == Panel(dates, lag, frame[i].1)
    ensures forall sym :: sym in out ==> exists i :: 0 <= i < |frame| && frame[i].0 == sym
  {
    out := map[];
    for k := 0 to |frame|
      invariant forall i :: 0 <= i < k ==> frame[i].0 in out && out[frame[i].0] == Panel(dates, lag, frame[i].1)
      invariant forall sym :: sym in out ==> exists i :: 0 <= i < k && frame[i].0 == sym
    {
      var (sym, filings) := frame[k];
      var column := PanelColumn(dates, lag, filings);
      out := out[sym := column];
    }
  }

  // ---- the panel as it is meant ----

  /** The value of the latest filing usable at bar b. */
  function LatestUsable(dates: seq<int>, lag: nat, filings: seq<Filing>, b: nat): Option<real> {
    if filings == [] then None
    else
      var n := |filings| - 1;
      if UsableFrom(dates, lag, filings[n]) <= b then Some(filings[n].value)
      else LatestUsable(dates, lag, filings[..n], b)
  }

  lemma {:induction false} FillIsLastPlaced(s: seq<Option<real>>, b: nat)
    requires b < |s|
    ensures s[b].Some? || b == 0 ==> ForwardFill(s)[b] == s[b]
    ensures s[b].None? && b > 0 ==> ForwardFill(s)[b] == ForwardFill(s)[b - 1]
    ensures ForwardFill(s)[..b + 1] == ForwardFill(s[..b + 1])
  {
    var n := |s| - 1;
    if b < n {
      FillIsLastPlaced(s[..n], b);
      assert s[..n][..b + 1] == s[..b + 1];
    } else {
      assert s[..b + 1] == s;
    }
  }

  /** Placing one more filing changes the filled column exactly from its bar to the next occupied one. */
  lemma {:induction false} FillAfterUpdate(s: seq<Option<real>>, i: nat, v: real, b: nat)
    requires i < |s| && b < |s|
    requires forall j :: i < j < |s| ==> s[j].None?
    ensures ForwardFill(s[i := Some(v)])[b] == if i <= b then Some(v) else ForwardFill(s)[b]
  {
    var t := s[i := Some(v)];
    FillIsLastPlaced(s, b);
    FillIsLastPlaced(t, b);
    if b > 0 {
      FillAfterUpdate(s, i, v, b - 1);
    }
  }

  lemma {:induction false} NothingPlacedBeyond(dates: seq<int>, lag: nat, filings: seq<Filing>, i: nat)
    requires dates != [] && i < |dates|
    requires forall k :: 0 <= k < |filings| ==> PlacedAt(dates, lag, filings[k]) <= i
    ensures forall j :: i < j < |dates| ==> Placed(dates, lag, filings)[j].None?
  {
    if filings != [] {
      NothingPlacedBeyond(dates, lag, filings[..|filings| - 1], i);
    }
  }

  /** Adding the latest filing changes exactly the bars from its place on. */
  lemma PanelStep(dates: seq<int>, lag: nat, filings: seq<Filing>, b: nat)
    requires dates != [] && Bars(dates) && ByKnown(filings) && filings != [] && b < |dates|
    ensures var n := |filings| - 1;
      Panel(dates, lag, filings)[b]
      == if PlacedAt(dates, lag, filings[n]) <= b then Some(filings[n].value) else Panel(dates, lag, filings[..n])[b]
  {
    hide PlacedAt, ForwardFill;
    var n := |filings| - 1;
    var i := PlacedAt(dates, lag, filings[n]);
    forall k | 0 <= k < n ensures PlacedAt(dates, lag, filings[..n][k]) <= i {
      UsableInOrder(dates, lag, filings, k, n);
    }
    NothingPlacedBeyond(dates, lag, filings[..n], i);
    FillAfterUpdate(Placed(dates, lag, filings[..n]), i, filings[n].value, b);
  }

  /** At every bar before the last, the panel shows the latest filing usable by then. */
  lemma {:induction false} PanelIsLatestUsable(dates: seq<int>, lag: nat, filings: seq<Filing>, b: nat)
    requires dates != [] && Bars(dates) && ByKnown(filings) && b < |dates| - 1
    ensures Panel(dates, lag, filings)[b] == LatestUsable(dates, lag, filings, b)
  {
    hide Panel, FirstAtOrAfter;
    if filings == [] {
      EmptyPanel(dates, lag, b);
    } else {
      PanelStep(dates, lag, filings, b);
      PanelIsLatestUsable(dates, lag, filings[..|filings| - 1], b);
    }
  }

  lemma {:induction false} EmptyPanel(dates: seq<int>, lag: nat, b: nat)
    requires dates != [] && b < |dates|
    ensures Panel(dates, lag, [])[b] == None
  {
    FillIsLastPlaced(Placed(dates, lag, []), b);
    if b > 0 {
      EmptyPanel(dates, lag, b - 1);
    }
  }

  /** The filing was known at the bar `lag` sessions before b. */
  predicate KnownBy(dates: seq<int>, lag: nat, f: Filing, b: nat)
    requires b < |dates|
  {
    lag <= b && f.known <= dates[b - lag] <= dates[b]
  }

  /** The shown filing was known `lag` bars ago: no bar before the last looks ahead. */
  lemma {:induction false} ShownWasKnown(dates: seq<int>, lag: nat, filings: seq<Filing>, b: nat)
    requires Bars(dates) && b < |dates| && LatestUsable(dates, lag, filings, b).Some?
    ensures exists f :: f in filings && LatestUsable(dates, lag, filings, b) == Some(f.value) && KnownBy(dates, lag, f, b)
  {
    var n := |filings| - 1;
    var f := filings[n];
    if UsableFrom(dates, lag, f) <= b {
      var i := FirstAtOrAfter(dates, f.known);
      assert i + lag <= b;
      assert dates[i] >= f.known && (i < b - lag ==> dates[i] < dates[b - lag]);
      assert f in filings && KnownBy(dates, lag, f, b);
    } else {
      ShownWasKnown(dates, lag, filings[..n], b);
    }
  }

  /** Filings that become known after bar b cannot change what bar b shows, unless b is the last bar. */
  lemma {:induction false} FutureFilingsDoNotMatter(dates: seq<int>, lag: nat, filings: seq<Filing>, future: seq<Filing>, b: nat)
    requires dates != [] && Bars(dates) && ByKnown(filings + future) && b < |dates| - 1
    requires forall k :: 0 <= k < |future| ==> future[k].known > dates[b]
    ensures Panel(dates, lag, filings + future)[b] == Panel(dates, lag, filings)[b]
  {
    hide Panel;
    if future == [] {
      assert filings + future == filings;
    } else {
      var n := |future| - 1;
      var all := filings + future;
      assert all[..|all| - 1] == filings + future[..n] && all[|all| - 1] == future[n];
      FutureFilingsDoNotMatter(dates, lag, filings, future[..n], b);
      PanelStep(dates, lag, all, b);
      assert FirstAtOrAfter(dates, future[n].known) > b;
    }
  }

  /** The last bar shows the latest filing, usable or not. */
  lemma LastBarShowsLatest(dates: seq<int>, lag: nat, filings: seq<Filing>)
    requires dates != [] && Bars(dates) && ByKnown(filings) && filings != []
    ensures Panel(dates, lag, filings)[|dates| - 1] == Some(filings[|filings| - 1].value)
  {
    PanelStep(dates, lag, filings, |dates| - 1);
  }

  /** The latest filing fits the grid, or the latest one that does carries the same value. */
  predicate LastBarIsSafe(dates: seq<int>, lag: nat, filings: seq<Filing>)
    requires dates != []
  {
    filings == []
    || (var n := |filings| - 1;
        UsableFrom(dates, lag, filings[n]) < |dates|
        || LatestUsable(dates, lag, filings[..n], |dates| - 1) == Some(filings[n].value))
  }

  /**
   * Exactly when the documented meaning holds on the whole grid: no bar, the last one included, shows
   * anything but the latest usable filing if and only if the latest filing did not have to be moved
   * back onto the grid, or moving it changes no value.
   */
  lemma PanelIsExactWhen(dates: seq<int>, lag: nat, filings: seq<Filing>)
    requires dates != [] && Bars(dates) && ByKnown(filings)
    ensures (forall b: nat :: b < |dates| ==> Panel(dates, lag, filings)[b] == LatestUsable(dates, lag, filings, b))
       <==> LastBarIsSafe(dates, lag, filings)
  {
    hide Panel, FirstAtOrAfter;
    var last := |dates| - 1;
    forall b: nat | b < last ensures Panel(dates, lag, filings)[b] == LatestUsable(dates, lag, filings, b) {
      PanelIsLatestUsable(dates, lag, filings, b);
    }
    if filings == [] {
      EmptyPanel(dates, lag, last);
    } else {
      LastBarShowsLatest(dates, lag, filings);
    }
    assert Panel(dates, lag, filings)[last] == LatestUsable(dates, lag, filings, last)
      <==> LastBarIsSafe(dates, lag, filings);
  }

  /**
   * The failing family: a filing usable only beyond the grid is shown on the last bar. It was known
   * too late, or the lag alone pushes it out.
   */
  lemma LastBarLooksAhead(dates: seq<int>, lag: nat, f: Filing)
    requires dates != [] && Bars(dates) && UsableFrom(dates, lag, f) >= |dates|
    ensures Panel(dates, lag, [f])[|dates| - 1] == Some(f.value)
    ensures LatestUsable(dates, lag, [f], |dates| - 1) == None
  {
    LastBarShowsLatest(dates, lag, [f]);
  }

  /** A filing is usable only beyond the grid exactly when it was not yet known `lag` bars before the last. */
  lemma PushedBeyondTheGrid(dates: seq<int>, lag: nat, f: Filing)
    requires dates != [] && Bars(dates)
    ensures UsableFrom(dates, lag, f) >= |dates|
       <==> |dates| <= lag || f.known > dates[|dates| - 1 - lag]
  {
    var i := FirstAtOrAfter(dates, f.known);
    if lag < |dates| {
      assert i < |dates| - 1 - lag ==> dates[i] < dates[|dates| - 1 - lag];
    }
  }
}
