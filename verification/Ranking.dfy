/**
 * Deterministic ranking: ascending key, ties by id. Pairs, tickers and sectors are numbered in
 * name order, so a smaller id is an alphabetically earlier name.
 */
module Ranking {
  import opened Prelude

  datatype Ranked = Ranked(key: real, id: nat)

  predicate Before(x: Ranked, y: Ranked) {
    x.key < y.key || (x.key == y.key && x.id <= y.id)
  }

  ghost predicate Sorted(s: seq<Ranked>) {
    forall i, j :: 0 <= i < j < |s| ==> Before(s[i], s[j])
  }

  function Insert(x: Ranked, s: seq<Ranked>): (r: seq<Ranked>)
    ensures multiset(r) == multiset(s) + multiset{x}
  {
    if s == [] then [x]
    else if Before(x, s[0]) then [x] + s
    else
      assert s == [s[0]] + s[1..];
      [s[0]] + Insert(x, s[1..])
  }

  function Sort(s: seq<Ranked>): (r: seq<Ranked>)
    ensures multiset(r) == multiset(s)
    ensures |r| == |s|
  {
    if s == [] then []
    else
      var n := |s| - 1;
      assert s == s[..n] + [s[n]];
      var r := Insert(s[n], Sort(s[..n]));
      assert |multiset(r)| == |multiset(s)|;
      r
  }

  lemma InsertMembers(x: Ranked, s: seq<Ranked>, y: Ranked)
    ensures y in Insert(x, s) <==> y == x || y in s
  {
    hide Insert;
    assert y in Insert(x, s) <==> y in multiset(Insert(x, s));
    assert y in s <==> y in multiset(s);
  }

  lemma {:induction false} InsertSorted(x: Ranked, s: seq<Ranked>)
    requires Sorted(s)
    ensures Sorted(Insert(x, s))
  {
    if s != [] && !Before(x, s[0]) {
      InsertSorted(x, s[1..]);
      forall y | y in Insert(x, s[1..]) ensures Before(s[0], y) {
        InsertMembers(x, s[1..], y);
      }
    }
  }

  lemma {:induction false} SortSorted(s: seq<Ranked>)
    ensures Sorted(Sort(s))
  {
    if s != [] {
      SortSorted(s[..|s| - 1]);
      InsertSorted(s[|s| - 1], Sort(s[..|s| - 1]));
    }
  }

  /** There is only one sorted arrangement, so `Sort` is the answer of every correct sort. */
  lemma {:induction false} SortedIsUnique(a: seq<Ranked>, b: seq<Ranked>)
    requires Sorted(a) && Sorted(b) && multiset(a) == multiset(b)
    ensures a == b
  {
    if a == [] {
      assert |multiset(b)| == 0;
    } else {
      assert a[0] in multiset(b) && b[0] in multiset(a) by {
        assert a[0] in multiset(a);
        assert |multiset(b)| == |multiset(a)| > 0;
        assert b[0] in multiset(b);
      }
      assert a[0] == b[0];
      assert a == [a[0]] + a[1..] && b == [b[0]] + b[1..];
      assert multiset(a[1..]) == multiset(a) - multiset{a[0]} == multiset(b[1..]);
      SortedIsUnique(a[1..], b[1..]);
    }
  }

  /** The ranking does not depend on the order in which candidates were listed. */
  lemma RankingIgnoresOrder(a: seq<Ranked>, b: seq<Ranked>)
    requires multiset(a) == multiset(b)
    ensures Sort(a) == Sort(b)
  {
    SortSorted(a);
    SortSorted(b);
    SortedIsUnique(Sort(a), Sort(b));
  }

  function Ids(s: seq<Ranked>): (r: seq<nat>)
    ensures |r| == |s|
    ensures forall i :: 0 <= i < |s| ==> r[i] == s[i].id
  {
    seq(|s|, i requires 0 <= i < |s| => s[i].id)
  }

  function Top(s: seq<Ranked>, k: nat): (r: seq<nat>)
    ensures |r| <= k
  {
    var sorted := Sort(s);
    Ids(if |sorted| <= k then sorted else sorted[..k])
  }

  /** Nobody is left out of a top k that has room. */
  lemma TopKeepsFew(s: seq<Ranked>, k: nat, x: Ranked)
    requires |s| <= k && x in s
    ensures x.id in Top(s, k)
  {
    hide Sort;
    SortMembers(s, x);
    var i :| 0 <= i < |Sort(s)| && Sort(s)[i] == x;
    assert Top(s, k)[i] == x.id;
  }

  function Entry(score: seq<Option<real>>, descending: bool, p: nat): Ranked
    requires p < |score| && score[p].Some?
  {
    Ranked(if descending then -score[p].value else score[p].value, p)
  }

  /** Members with a score, keyed by the score or by its negation (`descending`). */
  function Scored(members: seq<nat>, score: seq<Option<real>>, descending: bool): (r: seq<Ranked>)
    ensures forall x :: x in r ==>
      x.id in members && x.id < |score| && score[x.id].Some? && x == Entry(score, descending, x.id)
  {
    if members == [] then []
    else
      var n := |members| - 1;
      var p := members[n];
      Scored(members[..n], score, descending)
      + if p < |score| && score[p].Some? then [Entry(score, descending, p)] else []
  }

  lemma {:induction false} ScoredComplete(members: seq<nat>, score: seq<Option<real>>, descending: bool, p: nat)
    requires p in members && p < |score| && score[p].Some?
    ensures Entry(score, descending, p) in Scored(members, score, descending)
  {
    var n := |members| - 1;
    if p != members[n] {
      ScoredComplete(members[..n], score, descending, p);
    }
  }

  ghost predicate Distinct(s: seq<nat>) {
    forall i, j :: 0 <= i < j < |s| ==> s[i] != s[j]
  }

  ghost predicate DistinctIds(s: seq<Ranked>) {
    forall i, j :: 0 <= i < j < |s| ==> s[i].id != s[j].id
  }

  lemma {:induction false} ScoredDistinct(members: seq<nat>, score: seq<Option<real>>, descending: bool)
    requires Distinct(members)
    ensures DistinctIds(Scored(members, score, descending))
  {
    if members != [] {
      var n := |members| - 1;
      ScoredDistinct(members[..n], score, descending);
      var front := Scored(members[..n], score, descending);
      forall x | x in front ensures x.id != members[n] {
        assert x.id in members[..n];
      }
    }
  }

  lemma {:induction false} InsertDistinct(x: Ranked, s: seq<Ranked>)
    requires DistinctIds(s) && forall y :: y in s ==> y.id != x.id
    ensures DistinctIds(Insert(x, s))
  {
    if s != [] && !Before(x, s[0]) {
      InsertDistinct(x, s[1..]);
      forall y | y in Insert(x, s[1..]) ensures y.id != s[0].id {
        InsertMembers(x, s[1..], y);
      }
    }
  }

  lemma {:induction false} SortDistinct(s: seq<Ranked>)
    requires DistinctIds(s)
    ensures DistinctIds(Sort(s))
  {
    if s != [] {
      var n := |s| - 1;
      SortDistinct(s[..n]);
      forall y | y in Sort(s[..n]) ensures y.id != s[n].id {
        assert y in multiset(Sort(s[..n]));
        assert y in s[..n];
      }
      InsertDistinct(s[n], Sort(s[..n]));
    }
  }

  lemma SortMembers(s: seq<Ranked>, x: Ranked)
    ensures x in Sort(s) <==> x in s
  {
    assert x in multiset(Sort(s)) <==> x in multiset(s);
  }

  /** Strictly better score, or the same score and an earlier name. */
  predicate Outranks(score: seq<Option<real>>, descending: bool, p: nat, q: nat)
    requires p < |score| && score[p].Some? && q < |score| && score[q].Some?
  {
    var x, y := score[p].value, score[q].value;
    if x == y then p < q else if descending then x > y else x < y
  }

  /**
   * What "top k" promises: distinct scored members, and nobody scored who was left out ranks
   * before anybody chosen.
   */
  lemma TopIsBest(members: seq<nat>, score: seq<Option<real>>, descending: bool, k: nat)
    requires Distinct(members)
    ensures var all := Scored(members, score, descending);
      var top := Top(all, k);
      && |top| == (if |all| <= k then |all| else k)
      && Distinct(top)
      && (forall p :: p in top ==> p in members && p < |score| && score[p].Some?)
      && (forall p, q :: p in top && q in members && q < |score| && score[q].Some? && q !in top ==>
            Outranks(score, descending, p, q))
  {
    hide Sort, Scored, DistinctIds;
    var top := Top(Scored(members, score, descending), k);
    TopDistinct(members, score, descending, k);
    forall p | p in top ensures p in members && p < |score| && score[p].Some? {
      TopMember(members, score, descending, k, p);
    }
    forall p, q | p in top && q in members && q < |score| && score[q].Some? && q !in top
      ensures Outranks(score, descending, p, q)
    {
      TopOutranks(members, score, descending, k, p, q);
    }
  }

  lemma TopDistinct(members: seq<nat>, score: seq<Option<real>>, descending: bool, k: nat)
    requires Distinct(members)
    ensures Distinct(Top(Scored(members, score, descending), k))
  {
    hide Sort, Scored;
    ScoredDistinct(members, score, descending);
    SortDistinct(Scored(members, score, descending));
  }

  lemma TopMember(members: seq<nat>, score: seq<Option<real>>, descending: bool, k: nat, p: nat)
    requires p in Top(Scored(members, score, descending), k)
    ensures p in members && p < |score| && score[p].Some?
  {
    hide Sort;
    var all := Scored(members, score, descending);
    var i :| 0 <= i < |Top(all, k)| && Top(all, k)[i] == p;
    SortMembers(all, Sort(all)[i]);
  }

  lemma TopOutranks(members: seq<nat>, score: seq<Option<real>>, descending: bool, k: nat, p: nat, q: nat)
    requires p in Top(Scored(members, score, descending), k) && p < |score| && score[p].Some?
    requires q in members && q < |score| && score[q].Some? && q !in Top(Scored(members, score, descending), k)
    ensures Outranks(score, descending, p, q)
  {
    hide Sort, Scored, Sorted;
    var all := Scored(members, score, descending);
    var sorted, top := Sort(all), Top(all, k);
    var i :| 0 <= i < |top| && top[i] == p;
    assert sorted[i] == Entry(score, descending, p) by {
      SortMembers(all, sorted[i]);
    }
    var x := Entry(score, descending, q);
    assert x in sorted by {
      ScoredComplete(members, score, descending, q);
      SortMembers(all, x);
    }
    var j :| 0 <= j < |sorted| && sorted[j] == x;
    assert forall m :: 0 <= m < |top| ==> top[m] != q && top[m] == sorted[m].id;
    SortOrders(all, i, j);
  }

  lemma SortOrders(s: seq<Ranked>, i: nat, j: nat)
    requires i < j < |s|
    ensures Before(Sort(s)[i], Sort(s)[j])
  {
    SortSorted(s);
  }
}
