/**
 * Sector-balanced core selection: largest-remainder seats per sector, each sector's top-ranked
 * names, and a backfill for seats a sector cannot fill. Tickers and sectors are numbered in name
 * order; shares are exact fractions, so a quota is supply * size / total.
 */
module Apportionment {
  import opened Ranking

  // ---- sums of seat counts ----

  function Total(v: seq<nat>): nat {
    if v == [] then 0 else Total(v[..|v| - 1]) + v[|v| - 1]
  }

  lemma {:induction false} TotalOfSums(x: seq<nat>, y: seq<nat>, z: seq<nat>)
    requires |x| == |y| == |z| && forall i :: 0 <= i < |x| ==> x[i] == y[i] + z[i]
    ensures Total(x) == Total(y) + Total(z)
  {
    if x != [] {
      var n := |x| - 1;
      TotalOfSums(x[..n], y[..n], z[..n]);
    }
  }

  lemma {:induction false} TotalMonotone(x: seq<nat>, y: seq<nat>)
    requires |x| == |y| && forall i :: 0 <= i < |x| ==> x[i] <= y[i]
    ensures Total(x) <= Total(y)
  {
    if x != [] {
      var n := |x| - 1;
      TotalMonotone(x[..n], y[..n]);
    }
  }

  function Product(x: nat, y: nat): nat {
    x * y
  }

  lemma {:induction false} TotalOfProducts(x: seq<nat>, y: seq<nat>, k: nat)
    requires |x| == |y| && forall i :: 0 <= i < |x| ==> x[i] == Product(y[i], k)
    ensures Total(x) == Product(Total(y), k)
  {
    if x != [] {
      var n := |x| - 1;
      TotalOfProducts(x[..n], y[..n], k);
    }
  }

  lemma {:induction false} TotalUpdate(v: seq<nat>, k: nat, x: nat)
    requires k < |v|
    ensures Total(v[k := x]) == Total(v) - v[k] + x
  {
    var n := |v| - 1;
    if k == n {
      assert v[k := x][..n] == v[..n];
    } else {
      assert v[k := x][..n] == v[..n][k := x];
      TotalUpdate(v[..n], k, x);
    }
  }

  // ---- quotas ----

  /** Whole seats of a sector's quota. */
  function Floor(supply: nat, size: nat, total: nat): nat
    requires total > 0
  {
    Product(supply, size) / total
  }

  /** What is left of the quota, in units of 1 / total. */
  function Remainder(supply: nat, size: nat, total: nat): (r: nat)
    requires total > 0
    ensures r < total
  {
    Product(supply, size) % total
  }

  lemma QuotaSplits(supply: nat, size: nat, total: nat)
    requires total > 0
    ensures Product(supply, size) == Product(Floor(supply, size, total), total) + Remainder(supply, size, total)
  {
  }

  /** The rounded-up quota. */
  function Ceiling(supply: nat, size: nat, total: nat): nat
    requires total > 0
  {
    Floor(supply, size, total) + if Remainder(supply, size, total) > 0 then 1 else 0
  }

  lemma QuotaWithinSupply(supply: nat, size: nat, total: nat)
    requires total > 0
    ensures size <= total ==> Ceiling(supply, size, total) <= supply
    ensures size >= total ==> Floor(supply, size, total) >= supply
  {
    var f, r := Floor(supply, size, total), Remainder(supply, size, total);
    QuotaSplits(supply, size, total);
    if size <= total {
      CompareProducts(supply, size, total);
      if f + (if r > 0 then 1 else 0) > supply {
        ProductBeyond(f, supply, total, r);
      }
    }
    if size >= total {
      CompareProducts(supply, total, size);
      if f < supply {
        ProductBeyond(supply, f + 1, total, 0);
        ProductStep(f, total);
      }
    }
  }

  lemma CompareProducts(x: nat, y: nat, z: nat)
    requires y <= z
    ensures Product(x, y) <= Product(x, z)
  {
  }

  lemma ProductStep(x: nat, y: nat)
    ensures Product(x + 1, y) == Product(x, y) + y
  {
  }

  lemma ProductBeyond(x: nat, y: nat, total: nat, r: nat)
    requires x >= y
    ensures Product(x, total) >= Product(y, total)
  {
  }

  // ---- seats ----

  function Floors(supply: seq<nat>, size: nat, total: nat): (r: seq<nat>)
    requires total > 0
    ensures |r| == |supply|
  {
    seq(|supply|, s requires 0 <= s < |supply| => Floor(supply[s], size, total))
  }

  function Remainders(supply: seq<nat>, size: nat, total: nat): (r: seq<nat>)
    requires total > 0
    ensures |r| == |supply|
  {
    seq(|supply|, s requires 0 <= s < |supply| => Remainder(supply[s], size, total))
  }

  /** Sectors by remainder, largest first, ties by name. */
  function Keyed(rem: seq<nat>): (r: seq<Ranked>)
    ensures |r| == |rem|
  {
    seq(|rem|, s requires 0 <= s < |rem| => Ranked(-(rem[s] as real), s))
  }

  function Order(rem: seq<nat>): (r: seq<nat>)
    ensures |r| == |rem|
  {
    Ids(Sort(Keyed(rem)))
  }

  /** One extra seat for each of the first k sectors of an order. */
  function Seats(floors: seq<nat>, order: seq<nat>, k: nat): (r: seq<nat>)
    requires k <= |order|
    ensures |r| == |floors|
  {
    seq(|floors|, s requires 0 <= s < |floors| => floors[s] + if s in order[..k] then 1 else 0)
  }

  /** Seats handed out one by one while fewer than `size` are taken. */
  function ExtraSeats(floors: seq<nat>, size: nat): nat {
    var k := size - Total(floors);
    if k < 0 then 0 else if k < |floors| then k else |floors|
  }

  function Slots(supply: seq<nat>, size: nat, total: nat): (r: seq<nat>)
    requires total > 0
    ensures |r| == |supply|
  {
    var floors := Floors(supply, size, total);
    Seats(floors, Order(Remainders(supply, size, total)), ExtraSeats(floors, size))
  }

  lemma OrderIsPermutation(rem: seq<nat>)
    ensures Distinct(Order(rem))
    ensures forall s :: s in Order(rem) <==> 0 <= s < |rem|
    ensures forall i :: 0 <= i < |rem| ==> Order(rem)[i] < |rem|
    ensures forall i :: 0 <= i < |rem| ==> Sort(Keyed(rem))[i] == Ranked(-(rem[Order(rem)[i]] as real), Order(rem)[i])
  {
    hide Sort;
    var keyed, sorted := Keyed(rem), Sort(Keyed(rem));
    SortDistinct(keyed);
    forall i | 0 <= i < |rem| ensures Order(rem)[i] < |rem| && sorted[i] == Ranked(-(rem[Order(rem)[i]] as real), Order(rem)[i]) {
      SortMembers(keyed, sorted[i]);
    }
    forall s: nat | s < |rem| ensures s in Order(rem) {
      SortMembers(keyed, keyed[s]);
      var i :| 0 <= i < |sorted| && sorted[i] == keyed[s];
      assert Order(rem)[i] == s;
    }
    forall s | s in Order(rem) ensures 0 <= s < |rem| {
      var i :| 0 <= i < |rem| && Order(rem)[i] == s;
    }
  }

  /** Largest remainder first: nobody without an extra seat had a better claim. */
  lemma LargestRemainderFirst(rem: seq<nat>, k: nat, s: nat, u: nat)
    requires k <= |rem| && s < |rem| && u < |rem|
    requires s in Order(rem)[..k] && u !in Order(rem)[..k]
    ensures rem[s] > rem[u] || (rem[s] == rem[u] && s < u)
  {
    hide Sort;
    OrderIsPermutation(rem);
    var order := Order(rem);
    var i :| 0 <= i < k && order[i] == s;
    assert u in order;
    var j :| 0 <= j < |rem| && order[j] == u;
    assert forall m :: 0 <= m < k ==> order[m] in order[..k] by {
      assert forall m :: 0 <= m < k ==> order[..k][m] == order[m];
    }
    SortOrders(Keyed(rem), i, j);
  }

  function KeySum(s: seq<Ranked>): real {
    if s == [] then 0.0 else s[0].key + KeySum(s[1..])
  }

  lemma {:induction false} InsertKeySum(x: Ranked, s: seq<Ranked>)
    ensures KeySum(Insert(x, s)) == x.key + KeySum(s)
  {
    if s != [] && !Before(x, s[0]) {
      InsertKeySum(x, s[1..]);
    }
  }

  lemma {:induction false} KeySumSnoc(s: seq<Ranked>)
    requires s != []
    ensures KeySum(s) == KeySum(s[..|s| - 1]) + s[|s| - 1].key
  {
    if |s| > 1 {
      KeySumSnoc(s[1..]);
      assert s[1..][..|s| - 2] == s[..|s| - 1][1..];
    }
  }

  lemma {:induction false} SortKeySum(s: seq<Ranked>)
    ensures KeySum(Sort(s)) == KeySum(s)
  {
    if s != [] {
      var n := |s| - 1;
      SortKeySum(s[..n]);
      InsertKeySum(s[n], Sort(s[..n]));
      KeySumSnoc(s);
    }
  }

  lemma {:induction false} KeyedSum(rem: seq<nat>)
    ensures KeySum(Keyed(rem)) == -(Total(rem) as real)
  {
    if rem != [] {
      var n := |rem| - 1;
      KeyedSum(rem[..n]);
      KeySumSnoc(Keyed(rem));
      assert Keyed(rem)[..n] == Keyed(rem[..n]);
    }
  }

  /** In a sorted order with keys in (-total, 0], a zero key at position j leaves at most j * (total - 1) to sum. */
  lemma {:induction false} SortedTailIsZero(s: seq<Ranked>, j: nat, total: nat)
    requires Sorted(s) && j < |s| && total > 0 && s[j].key >= 0.0
    requires forall i :: 0 <= i < |s| ==> -(total as real) < s[i].key <= 0.0
    ensures j == 0 ==> KeySum(s) == 0.0
    ensures KeySum(s) >= -(Product(j, total) as real)
  {
    if j == 0 {
      ZeroKeys(s);
    } else {
      SortedTailIsZero(s[1..], j - 1, total);
      ProductStep(j - 1, total);
    }
  }

  lemma {:induction false} ZeroKeys(s: seq<Ranked>)
    requires Sorted(s) && s != [] && s[0].key >= 0.0
    requires forall i :: 0 <= i < |s| ==> s[i].key <= 0.0
    ensures KeySum(s) == 0.0
  {
    if |s| > 1 {
      ZeroKeys(s[1..]);
    }
  }

  lemma {:induction false} TotalBound(v: seq<nat>, b: nat)
    requires forall i :: 0 <= i < |v| ==> v[i] <= b
    ensures Total(v) <= Product(|v|, b)
  {
    if v != [] {
      TotalBound(v[..|v| - 1], b);
      ProductStep(|v| - 1, b);
    }
  }

  lemma ProductDifference(x: nat, y: nat, total: nat)
    requires total > 0
    ensures x <= y ==> Product(y - x, total) == Product(y, total) - Product(x, total)
    ensures x < y ==> Product(x, total) < Product(y, total)
    ensures Product(x, total) == Product(total, x)
  {
  }

  /** The whole-seat deficit is exactly the sum of the remainders. */
  lemma RemaindersFillTheDeficit(supply: seq<nat>, size: nat)
    requires Total(supply) > 0
    ensures var total := Total(supply);
      var k := size - Total(Floors(supply, size, total));
      && 0 <= k <= |supply|
      && Total(Remainders(supply, size, total)) == Product(k, total)
  {
    hide Product, Floor, Remainder, Total;
    var total := Total(supply);
    var floors, rem := Floors(supply, size, total), Remainders(supply, size, total);
    var whole := seq(|supply|, s requires 0 <= s < |supply| => Product(floors[s], total));
    var quota := seq(|supply|, s requires 0 <= s < |supply| => Product(supply[s], size));
    forall s | 0 <= s < |supply| ensures quota[s] == whole[s] + rem[s] {
      QuotaSplits(supply[s], size, total);
    }
    TotalOfSums(quota, whole, rem);
    TotalOfProducts(quota, supply, size);
    TotalOfProducts(whole, floors, total);
    TotalBound(rem, total);
    DeficitArithmetic(total, size, Total(floors), Total(rem), |supply|);
  }

  lemma DeficitArithmetic(total: nat, size: nat, whole: nat, left: nat, sectors: nat)
    requires total > 0 && Product(total, size) == Product(whole, total) + left && left <= Product(sectors, total)
    ensures whole <= size <= whole + sectors && left == Product(size - whole, total)
  {
    hide Product;
    ProductDifference(size, whole, total);
    ProductDifference(whole, size, total);
    if whole <= size {
      ProductDifference(sectors, size - whole, total);
    }
  }

  /** Every extra seat goes to a sector with a positive remainder. */
  lemma ExtraSeatsHaveRemainders(rem: seq<nat>, k: nat, total: nat, i: nat)
    requires total > 0 && k <= |rem| && i < k
    requires forall s :: 0 <= s < |rem| ==> rem[s] < total
    requires Total(rem) == Product(k, total)
    ensures Order(rem)[i] < |rem| && rem[Order(rem)[i]] > 0
  {
    hide Sort, Product;
    OrderIsPermutation(rem);
    var sorted := Sort(Keyed(rem));
    if rem[Order(rem)[i]] == 0 {
      SortSorted(Keyed(rem));
      SortKeySum(Keyed(rem));
      KeyedSum(rem);
      SortedTailIsZero(sorted, i, total);
      ProductDifference(i, k, total);
    }
  }

  lemma {:induction false} SeatsTotal(floors: seq<nat>, order: seq<nat>, k: nat)
    requires k <= |order| && Distinct(order) && forall i :: 0 <= i < |order| ==> order[i] < |floors|
    ensures Total(Seats(floors, order, k)) == Total(floors) + k
  {
    if k == 0 {
      assert Seats(floors, order, 0) == floors;
    } else {
      SeatsTotal(floors, order, k - 1);
      SeatsStep(floors, order, k - 1);
      var before := Seats(floors, order, k - 1);
      TotalUpdate(before, order[k - 1], before[order[k - 1]] + 1);
    }
  }

  lemma SeatsStep(floors: seq<nat>, order: seq<nat>, k: nat)
    requires k < |order| && Distinct(order) && order[k] < |floors|
    ensures var before := Seats(floors, order, k);
      Seats(floors, order, k + 1) == before[order[k] := before[order[k]] + 1]
  {
    assert order[..k + 1] == order[..k] + [order[k]];
    assert order[k] !in order[..k];
  }

  /**
   * The quota rule: seats sum to `size`, every sector gets its quota rounded down or up, and while
   * there are at least `size` names no sector gets more seats than it has names.
   */
  lemma QuotaRule(supply: seq<nat>, size: nat)
    requires Total(supply) > 0
    ensures var total := Total(supply);
      var slots := Slots(supply, size, total);
      && Total(slots) == size
      && (forall s :: 0 <= s < |supply| ==>
            Floor(supply[s], size, total) <= slots[s] <= Ceiling(supply[s], size, total))
      && (size <= total ==> forall s :: 0 <= s < |supply| ==> slots[s] <= supply[s])
      && (size >= total ==> forall s :: 0 <= s < |supply| ==> slots[s] >= supply[s])
  {
    hide Product, Floor, Remainder, Order, Total, Seats;
    var total := Total(supply);
    var floors, rem := Floors(supply, size, total), Remainders(supply, size, total);
    var order, k := Order(rem), size - Total(floors);
    RemaindersFillTheDeficit(supply, size);
    OrderIsPermutation(rem);
    SeatsTotal(floors, order, k);
    forall s | 0 <= s < |supply|
      ensures Floor(supply[s], size, total) <= Slots(supply, size, total)[s] <= Ceiling(supply[s], size, total)
      ensures size <= total ==> Slots(supply, size, total)[s] <= supply[s]
      ensures size >= total ==> Slots(supply, size, total)[s] >= supply[s]
    {
      QuotaWithinSupply(supply[s], size, total);
      SeatAt(floors, order, k, s);
      if s in order[..k] {
        var i :| 0 <= i < k && order[i] == s;
        ExtraSeatsHaveRemainders(rem, k, total, i);
      }
    }
  }

  lemma SeatAt(floors: seq<nat>, order: seq<nat>, k: nat, s: nat)
    requires k <= |order| && s < |floors|
    ensures Seats(floors, order, k)[s] == floors[s] + if s in order[..k] then 1 else 0
  {
  }

  // ---- the core ----

  /** The names of sector s, best ranked first. */
  function Members(rank: seq<nat>, sector: nat -> nat, s: nat): (r: seq<nat>)
    ensures forall t :: t in r <==> t in rank && sector(t) == s
  {
    if rank == [] then []
    else
      var n := |rank| - 1;
      Members(rank[..n], sector, s) + if sector(rank[n]) == s then [rank[n]] else []
  }

  function Supply(rank: seq<nat>, sector: nat -> nat, m: nat): (r: seq<nat>)
    ensures |r| == m
  {
    seq(m, s requires 0 <= s < m => |Members(rank, sector, s)|)
  }

  lemma {:induction false} SupplyTotal(rank: seq<nat>, sector: nat -> nat, m: nat)
    requires forall t :: t in rank ==> sector(t) < m
    ensures Total(Supply(rank, sector, m)) == |rank|
  {
    if rank == [] {
      TotalBound(Supply(rank, sector, m), 0);
    } else {
      var n := |rank| - 1;
      var before, s := Supply(rank[..n], sector, m), sector(rank[n]);
      SupplyTotal(rank[..n], sector, m);
      assert Supply(rank, sector, m) == before[s := before[s] + 1];
      TotalUpdate(before, s, before[s] + 1);
    }
  }

  function Take(names: seq<nat>, k: nat): (r: seq<nat>)
    ensures |r| == if k < |names| then k else |names|
    ensures forall t :: t in r ==> t in names
  {
    if k < |names| then names[..k] else names
  }

  lemma TakeAll(names: seq<nat>, k: nat)
    requires k >= |names|
    ensures Take(names, k) == names
  {
  }

  /** Each sector's best names, up to its seats, for sectors below m. */
  function Picked(rank: seq<nat>, sector: nat -> nat, slots: seq<nat>, m: nat): (r: seq<nat>)
    requires m <= |slots|
    ensures forall t :: t in r ==> t in rank && sector(t) < m
  {
    if m == 0 then []
    else Picked(rank, sector, slots, m - 1) + Take(Members(rank, sector, m - 1), slots[m - 1])
  }

  /** Seats that sectors below m could not fill. */
  function Released(rank: seq<nat>, sector: nat -> nat, slots: seq<nat>, m: nat): nat
    requires m <= |slots|
  {
    if m == 0 then 0
    else Released(rank, sector, slots, m - 1) + slots[m - 1] - |Take(Members(rank, sector, m - 1), slots[m - 1])|
  }

  /** Names not yet chosen, in rank order. */
  function Unchosen(rank: seq<nat>, chosen: set<nat>): (r: seq<nat>)
    ensures forall t :: t in r <==> t in rank && t !in chosen
  {
    if rank == [] then []
    else
      var n := |rank| - 1;
      Unchosen(rank[..n], chosen) + if rank[n] in chosen then [] else [rank[n]]
  }

  /** Python's `sorted` on distinct names. */
  function SortNames(names: seq<nat>): seq<nat> {
    Ids(Sort(seq(|names|, i requires 0 <= i < |names| => Ranked(0.0, names[i]))))
  }

  function Core(rank: seq<nat>, sector: nat -> nat, m: nat, size: nat): seq<nat> {
    if rank == [] then []
    else
      var slots := Slots(Supply(rank, sector, m), size, |rank|);
      var picked := Picked(rank, sector, slots, m);
      SortNames(picked + Take(Unchosen(rank, set t | t in picked), Released(rank, sector, slots, m)))
  }

  /** The selection as it runs: seats counted up in place, then names collected sector by sector. */
  method SecBal(rank: seq<nat>, sector: nat -> nat, m: nat, size: nat) returns (core: seq<nat>)
    requires forall t :: t in rank ==> sector(t) < m
    requires forall s: nat :: s < m ==> Members(rank, sector, s) != []
    ensures core == Core(rank, sector, m, size)
  {
    if rank == [] {
      return [];
    }
    var supply := Supply(rank, sector, m);
    var slots := HandOutSeats(supply, size, |rank|);
    core := [];
    var released := 0;
    for s := 0 to m
      invariant core == Picked(rank, sector, slots, s)
      invariant released == Released(rank, sector, slots, s)
    {
      var take := Take(Members(rank, sector, s), slots[s]);
      core := core + take;
      released := released + (slots[s] - |take|);
    }
    if released > 0 {
      var chosen := set t | t in core;
      core := core + Take(Unchosen(rank, chosen), released);
    } else {
      assert core + Take(Unchosen(rank, set t | t in core), 0) == core;
    }
    core := SortNames(core);
  }

  method HandOutSeats(supply: seq<nat>, size: nat, total: nat) returns (r: seq<nat>)
    requires total > 0
    ensures r == Slots(supply, size, total)
  {
    hide Floor, Remainder, Order, Total;
    ghost var floors := Floors(supply, size, total);
    var slots := new nat[|supply|](s requires 0 <= s < |supply| => Floor(supply[s], size, total));
    var rem := Remainders(supply, size, total);
    var order := Order(rem);
    OrderIsPermutation(rem);
    assert slots[..] == floors == Seats(floors, order, 0);
    var i := 0;
    while i < |order|
      invariant 0 <= i <= ExtraSeats(floors, size)
      invariant slots[..] == Seats(floors, order, i)
    {
      SeatsTotal(floors, order, i);
      var taken := TotalOf(slots);
      if taken >= size {
        break;
      }
      SeatsStep(floors, order, i);
      slots[order[i]] := slots[order[i]] + 1;
      i := i + 1;
    }
    r := slots[..];
  }

  method TotalOf(a: array<nat>) returns (s: nat)
    ensures s == Total(a[..])
  {
    s := 0;
    for i := 0 to a.Length
      invariant s == Total(a[..i])
    {
      s := s + a[i];
      assert a[..i + 1][..i] == a[..i];
    }
    assert a[..a.Length] == a[..];
  }

  // ---- what the core promises ----

  lemma {:induction false} MembersPrefix(rank: seq<nat>, sector: nat -> nat, s: nat)
    requires Distinct(rank)
    ensures Distinct(Members(rank, sector, s))
  {
    if rank != [] {
      var n := |rank| - 1;
      MembersPrefix(rank[..n], sector, s);
      assert forall t :: t in Members(rank[..n], sector, s) ==> t in rank[..n];
    }
  }

  lemma {:induction false} PickedSizes(rank: seq<nat>, sector: nat -> nat, slots: seq<nat>, m: nat)
    requires m <= |slots|
    ensures |Picked(rank, sector, slots, m)| + Released(rank, sector, slots, m) == Total(slots[..m])
  {
    if m > 0 {
      PickedSizes(rank, sector, slots, m - 1);
      assert slots[..m][..m - 1] == slots[..m - 1];
    }
  }

  lemma {:induction false} NothingReleased(rank: seq<nat>, sector: nat -> nat, slots: seq<nat>, m: nat)
    requires m <= |slots| && forall s :: 0 <= s < m ==> slots[s] <= |Members(rank, sector, s)|
    ensures Released(rank, sector, slots, m) == 0
  {
    hide Members;
    if m > 0 {
      NothingReleased(rank, sector, slots, m - 1);
    }
  }

  lemma {:induction false} PickedIsPrefixes(rank: seq<nat>, sector: nat -> nat, slots: seq<nat>, m: nat, t: nat)
    requires m <= |slots|
    ensures t in Picked(rank, sector, slots, m)
      <==> sector(t) < m && t in Take(Members(rank, sector, sector(t)), slots[sector(t)])
  {
    hide Members, Take, Picked;
    PickedStep(rank, sector, slots, m);
    if m > 0 {
      PickedIsPrefixes(rank, sector, slots, m - 1, t);
    }
  }

  lemma PickedStep(rank: seq<nat>, sector: nat -> nat, slots: seq<nat>, m: nat)
    requires m <= |slots|
    ensures Picked(rank, sector, slots, m)
         == if m == 0 then []
            else Picked(rank, sector, slots, m - 1) + Take(Members(rank, sector, m - 1), slots[m - 1])
  {
  }

  lemma DistinctJoin(a: seq<nat>, b: seq<nat>)
    requires Distinct(a) && Distinct(b) && forall t, u :: t in a && u in b ==> t != u
    ensures Distinct(a + b)
  {
    forall i, j | 0 <= i < j < |a + b| ensures (a + b)[i] != (a + b)[j] {
      if i < |a| && j >= |a| {
        assert (a + b)[i] in a && (a + b)[j] in b;
      }
    }
  }

  lemma {:induction false} PickedDistinct(rank: seq<nat>, sector: nat -> nat, slots: seq<nat>, m: nat)
    requires m <= |slots| && Distinct(rank)
    ensures Distinct(Picked(rank, sector, slots, m))
  {
    hide Members, Picked;
    if m > 0 {
      PickedDistinct(rank, sector, slots, m - 1);
      MembersPrefix(rank, sector, m - 1);
      var front, last := Picked(rank, sector, slots, m - 1), Take(Members(rank, sector, m - 1), slots[m - 1]);
      forall t, u | t in front && u in last ensures t != u {
        assert sector(t) < m - 1 && sector(u) == m - 1;
      }
      PickedStep(rank, sector, slots, m);
      DistinctJoin(front, last);
    } else {
      PickedStep(rank, sector, slots, 0);
    }
  }

  lemma SortNamesKeeps(names: seq<nat>)
    ensures |SortNames(names)| == |names|
    ensures forall t :: t in SortNames(names) <==> t in names
    ensures Distinct(names) ==> Distinct(SortNames(names))
    ensures forall i, j :: 0 <= i < j < |names| ==> SortNames(names)[i] <= SortNames(names)[j]
  {
    hide Sort;
    var keyed := seq(|names|, i requires 0 <= i < |names| => Ranked(0.0, names[i]));
    var sorted := Sort(keyed);
    SortSorted(keyed);
    forall i | 0 <= i < |sorted| ensures sorted[i].key == 0.0 && sorted[i].id in names {
      SortMembers(keyed, sorted[i]);
    }
    forall t | t in names ensures t in SortNames(names) {
      var i :| 0 <= i < |names| && names[i] == t;
      SortMembers(keyed, keyed[i]);
      var j :| 0 <= j < |sorted| && sorted[j] == keyed[i];
      assert SortNames(names)[j] == t;
    }
    if Distinct(names) {
      SortDistinct(keyed);
    }
  }

  /**
   * With at least `size` eligible names the core is exactly `size` distinct names, the backfill never
   * runs, and each sector contributes its best-ranked prefix, as long as its seats.
   */
  lemma CoreIsBalanced(rank: seq<nat>, sector: nat -> nat, m: nat, size: nat)
    requires Distinct(rank) && 0 < |rank| && size <= |rank|
    requires forall t :: t in rank ==> sector(t) < m
    ensures var core := Core(rank, sector, m, size);
      var slots := Slots(Supply(rank, sector, m), size, |rank|);
      && |core| == size && Distinct(core)
      && Released(rank, sector, slots, m) == 0
      && (forall t :: t in core <==> t in rank && t in Take(Members(rank, sector, sector(t)), slots[sector(t)]))
      && (forall s :: 0 <= s < m ==> slots[s] <= |Members(rank, sector, s)|)
  {
    hide Slots, SortNames;
    var slots := Slots(Supply(rank, sector, m), size, |rank|);
    SupplyTotal(rank, sector, m);
    QuotaRule(Supply(rank, sector, m), size);
    NothingReleased(rank, sector, slots, m);
    PickedSizes(rank, sector, slots, m);
    PickedDistinct(rank, sector, slots, m);
    assert slots[..m] == slots;
    var picked := Picked(rank, sector, slots, m);
    assert picked + Take(Unchosen(rank, set t | t in picked), 0) == picked;
    SortNamesKeeps(picked);
    forall t ensures t in picked <==> t in rank && t in Take(Members(rank, sector, sector(t)), slots[sector(t)]) {
      PickedIsPrefixes(rank, sector, slots, m, t);
    }
  }

  lemma {:induction false} MembersExtend(rank: seq<nat>, sector: nat -> nat, s: nat, i: nat)
    requires i <= |rank|
    ensures Members(rank[..i], sector, s) <= Members(rank, sector, s)
  {
    if i < |rank| {
      var n := |rank| - 1;
      MembersExtend(rank[..n], sector, s, i);
      assert rank[..n][..i] == rank[..i];
    } else {
      assert rank[..i] == rank;
    }
  }

  /** A name's place in its sector is the number of better-ranked names of the sector. */
  lemma PlaceInSector(rank: seq<nat>, sector: nat -> nat, i: nat) returns (k: nat)
    requires i < |rank|
    ensures var s := sector(rank[i]);
      && k == |Members(rank[..i], sector, s)| < |Members(rank, sector, s)| && Members(rank, sector, s)[k] == rank[i]
      && |Members(rank[..i + 1], sector, s)| == k + 1
  {
    var s := sector(rank[i]);
    k := |Members(rank[..i], sector, s)|;
    assert rank[..i + 1][..i] == rank[..i];
    assert Members(rank[..i + 1], sector, s) == Members(rank[..i], sector, s) + [rank[i]];
    MembersExtend(rank, sector, s, i + 1);
  }

  /** Better-ranked names of the same sector come earlier among its members. */
  lemma PlacesFollowRank(rank: seq<nat>, sector: nat -> nat, i: nat, j: nat) returns (a: nat, b: nat)
    requires i < j < |rank| && sector(rank[i]) == sector(rank[j])
    ensures var names := Members(rank, sector, sector(rank[i]));
      a < b < |names| && names[a] == rank[i] && names[b] == rank[j]
  {
    hide Members;
    a := PlaceInSector(rank, sector, i);
    b := PlaceInSector(rank, sector, j);
    assert rank[..j][..i + 1] == rank[..i + 1];
    MembersExtend(rank[..j], sector, sector(rank[i]), i + 1);
  }

  function Chosen(names: seq<nat>): set<nat> {
    set t | t in names
  }

  lemma {:induction false} DistinctCount(names: seq<nat>)
    requires Distinct(names)
    ensures |Chosen(names)| == |names|
  {
    if names == [] {
      assert Chosen(names) == {};
    } else {
      var n := |names| - 1;
      DistinctCount(names[..n]);
      assert names[n] !in names[..n];
      assert Chosen(names) == Chosen(names[..n]) + {names[n]};
    }
  }

  /**
   * The core over the ranking itself: ascending names; whoever is chosen, so is every better-ranked
   * name of the same sector; and each sector contributes exactly its seats.
   */
  lemma CoreFollowsRank(rank: seq<nat>, sector: nat -> nat, m: nat, size: nat)
    requires Distinct(rank) && 0 < |rank| && size <= |rank|
    requires forall t :: t in rank ==> sector(t) < m
    ensures var core, slots := Core(rank, sector, m, size), Slots(Supply(rank, sector, m), size, |rank|);
      && (forall t :: t in core ==> t in rank)
      && (forall i, j :: 0 <= i < j < |core| ==> core[i] < core[j])
      && (forall i, j :: 0 <= i < j < |rank| && sector(rank[i]) == sector(rank[j]) && rank[j] in core ==> rank[i] in core)
      && (forall s :: 0 <= s < m ==> |set t | t in core && sector(t) == s| == slots[s])
  {
    hide Slots, SortNames, Supply, Core;
    var core, slots := Core(rank, sector, m, size), Slots(Supply(rank, sector, m), size, |rank|);
    CoreIsBalanced(rank, sector, m, size);
    CoreIsSorted(rank, sector, m, size);
    forall i: nat, j: nat | i < j < |rank| && sector(rank[i]) == sector(rank[j]) && rank[j] in core ensures rank[i] in core {
      BetterIsChosen(rank, sector, slots[sector(rank[i])], i, j);
    }
    forall s: nat | s < m ensures |set t | t in core && sector(t) == s| == slots[s] {
      var names := Take(Members(rank, sector, s), slots[s]);
      MembersPrefix(rank, sector, s);
      DistinctCount(names);
      assert (set t | t in core && sector(t) == s) == Chosen(names);
    }
  }

  lemma BetterIsChosen(rank: seq<nat>, sector: nat -> nat, seats: nat, i: nat, j: nat)
    requires Distinct(rank) && i < j < |rank| && sector(rank[i]) == sector(rank[j])
    requires rank[j] in Take(Members(rank, sector, sector(rank[j])), seats)
    ensures rank[i] in Take(Members(rank, sector, sector(rank[i])), seats)
  {
    hide Members;
    var names := Members(rank, sector, sector(rank[i]));
    var a, b := PlacesFollowRank(rank, sector, i, j);
    MembersPrefix(rank, sector, sector(rank[i]));
    var taken := Take(names, seats);
    var k :| 0 <= k < |taken| && taken[k] == rank[j];
    assert names[k] == rank[j] && k == b;
    assert taken[a] == rank[i];
  }

  lemma CoreIsSorted(rank: seq<nat>, sector: nat -> nat, m: nat, size: nat)
    requires rank != [] && Distinct(Core(rank, sector, m, size))
    ensures var core := Core(rank, sector, m, size); forall i, j :: 0 <= i < j < |core| ==> core[i] < core[j]
  {
    hide Slots, SortNames, Picked, Unchosen;
    var slots := Slots(Supply(rank, sector, m), size, |rank|);
    var picked := Picked(rank, sector, slots, m);
    SortNamesKeeps(picked + Take(Unchosen(rank, set t | t in picked), Released(rank, sector, slots, m)));
  }

  /** Of two sectors, one rounded up beyond its whole seats and one not, the first has the larger remainder, or the same and the earlier name. */
  lemma ExtraSeatsByRemainder(supply: seq<nat>, size: nat, s: nat, u: nat)
    requires Total(supply) > 0 && s < |supply| && u < |supply|
    requires var slots, total := Slots(supply, size, Total(supply)), Total(supply);
      slots[s] > Floor(supply[s], size, total) && slots[u] == Floor(supply[u], size, total)
    ensures var total := Total(supply);
      && (supply[s] * size) % total >= (supply[u] * size) % total
      && ((supply[s] * size) % total == (supply[u] * size) % total ==> s < u)
  {
    hide Order, Seats, Floor;
    var total := Total(supply);
    var floors, rem := Floors(supply, size, total), Remainders(supply, size, total);
    var order, k := Order(rem), ExtraSeats(floors, size);
    SeatAt(floors, order, k, s);
    SeatAt(floors, order, k, u);
    LargestRemainderFirst(rem, k, s, u);
  }

  lemma {:induction false} AllTaken(rank: seq<nat>, sector: nat -> nat, slots: seq<nat>, m: nat)
    requires m <= |slots| && forall s :: 0 <= s < m ==> slots[s] >= |Members(rank, sector, s)|
    ensures |Picked(rank, sector, slots, m)| == Total(Supply(rank, sector, m))
    ensures forall t :: t in rank && sector(t) < m ==> t in Picked(rank, sector, slots, m)
  {
    hide Members, Picked, Take, Supply;
    PickedStep(rank, sector, slots, m);
    if m > 0 {
      AllTaken(rank, sector, slots, m - 1);
      SupplyAt(rank, sector, m);
      SupplyAt(rank, sector, m - 1);
      assert Supply(rank, sector, m)[..m - 1] == Supply(rank, sector, m - 1);
      TakeAll(Members(rank, sector, m - 1), slots[m - 1]);
    }
  }

  /** With fewer names than seats every name is taken and the core is short: its size is `size` only when names suffice. */
  lemma CoreIsShortWithoutNames(rank: seq<nat>, sector: nat -> nat, m: nat, size: nat)
    requires |rank| < size
    requires forall t :: t in rank ==> sector(t) < m
    ensures |Core(rank, sector, m, size)| == |rank|
    ensures forall t :: t in Core(rank, sector, m, size) <==> t in rank
  {
    hide Slots, SortNames, Supply, Picked, Unchosen;
    if rank != [] {
      var slots := Slots(Supply(rank, sector, m), size, |rank|);
      SupplyTotal(rank, sector, m);
      QuotaRule(Supply(rank, sector, m), size);
      SupplyAt(rank, sector, m);
      AllTaken(rank, sector, slots, m);
      var picked := Picked(rank, sector, slots, m);
      EveryoneChosen(rank, set t | t in picked);
      CoreWithoutBackfill(rank, sector, m, size);
      SortNamesKeeps(picked);
    }
  }

  /** The size assertion holds if and only if there are at least `size` eligible names. */
  lemma CoreHasSizeExactlyWhenNamesSuffice(rank: seq<nat>, sector: nat -> nat, m: nat, size: nat)
    requires Distinct(rank) && forall t :: t in rank ==> sector(t) < m
    ensures |Core(rank, sector, m, size)| == size <==> size <= |rank|
  {
    hide Core;
    if size > |rank| {
      CoreIsShortWithoutNames(rank, sector, m, size);
    } else if rank == [] {
      EmptyCore(sector, m, size);
    } else {
      CoreIsBalanced(rank, sector, m, size);
    }
  }

  lemma EmptyCore(sector: nat -> nat, m: nat, size: nat)
    ensures Core([], sector, m, size) == []
  {
  }

  lemma {:induction false} EveryoneChosen(rank: seq<nat>, chosen: set<nat>)
    requires forall t :: t in rank ==> t in chosen
    ensures Unchosen(rank, chosen) == []
  {
    if rank != [] {
      EveryoneChosen(rank[..|rank| - 1], chosen);
    }
  }

  lemma CoreWithoutBackfill(rank: seq<nat>, sector: nat -> nat, m: nat, size: nat)
    requires rank != []
    requires var picked := Picked(rank, sector, Slots(Supply(rank, sector, m), size, |rank|), m);
      Unchosen(rank, set t | t in picked) == []
    ensures Core(rank, sector, m, size)
         == SortNames(Picked(rank, sector, Slots(Supply(rank, sector, m), size, |rank|), m))
  {
    hide Slots, SortNames, Picked, Unchosen;
    var slots := Slots(Supply(rank, sector, m), size, |rank|);
    var picked := Picked(rank, sector, slots, m);
    assert picked + Take([], Released(rank, sector, slots, m)) == picked;
  }

  lemma SupplyAt(rank: seq<nat>, sector: nat -> nat, m: nat)
    ensures |Supply(rank, sector, m)| == m
    ensures forall s :: 0 <= s < m ==> Supply(rank, sector, m)[s] == |Members(rank, sector, s)|
  {
  }
}
