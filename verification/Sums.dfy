/** Sums of vectors of dollar amounts, one entry per pair. */
module Sums {
  import opened Arith
  import opened Prelude

  function Sum(s: seq<real>): real {
    if s == [] then 0.0 else Sum(s[..|s| - 1]) + s[|s| - 1]
  }

  lemma {:induction false} SumOfScaled(h: seq<real>, a: real, f: seq<real>)
    requires |h| == |f|
    requires forall i :: 0 <= i < |h| ==> h[i] == Times(a, f[i])
    ensures Sum(h) == Times(a, Sum(f))
  {
    hide Times;
    TimesAlgebra(0.0, 0.0, a);
    if h != [] {
      var n := |h| - 1;
      SumOfScaled(h[..n], a, f[..n]);
      TimesAlgebra(Sum(f[..n]), f[n], a);
    }
  }

  lemma {:induction false} SumOfSums(h: seq<real>, f: seq<real>, g: seq<real>)
    requires |h| == |f| == |g|
    requires forall i :: 0 <= i < |h| ==> h[i] == f[i] + g[i]
    ensures Sum(h) == Sum(f) + Sum(g)
  {
    if h != [] {
      var n := |h| - 1;
      SumOfSums(h[..n], f[..n], g[..n]);
    }
  }

  lemma {:induction false} SumMonotone(f: seq<real>, g: seq<real>)
    requires |f| == |g|
    requires forall i :: 0 <= i < |f| ==> f[i] <= g[i]
    ensures Sum(f) <= Sum(g)
  {
    if f != [] {
      var n := |f| - 1;
      SumMonotone(f[..n], g[..n]);
    }
  }

  lemma {:induction false} SumOfZeros(f: seq<real>)
    requires forall i :: 0 <= i < |f| ==> f[i] == 0.0
    ensures Sum(f) == 0.0
  {
    if f != [] {
      SumOfZeros(f[..|f| - 1]);
    }
  }

  /** With no negative entry, a sum is at least any one of its entries. */
  lemma {:induction false} SumAtLeastEntry(f: seq<real>, k: nat)
    requires k < |f|
    requires forall i :: 0 <= i < |f| ==> f[i] >= 0.0
    ensures Sum(f) >= f[k]
  {
    var n := |f| - 1;
    if k == n {
      SumOfZeros(seq(n, i => 0.0));
      SumMonotone(seq(n, i => 0.0), f[..n]);
    } else {
      SumAtLeastEntry(f[..n], k);
    }
  }

  lemma SumNonNegative(f: seq<real>)
    requires forall i :: 0 <= i < |f| ==> f[i] >= 0.0
    ensures Sum(f) >= 0.0
  {
    if f != [] {
      SumAtLeastEntry(f, 0);
    }
  }

  /** A positive sum of nonnegative entries has a positive entry. */
  lemma {:induction false} SumPositiveWitness(f: seq<real>) returns (k: nat)
    requires Sum(f) > 0.0
    ensures k < |f| && f[k] > 0.0
  {
    var n := |f| - 1;
    if f[n] > 0.0 {
      k := n;
    } else {
      k := SumPositiveWitness(f[..n]);
    }
  }

  /** A vector that is zero away from one position sums to that entry. */
  lemma {:induction false} SumSingle(f: seq<real>, k: nat)
    requires k < |f|
    requires forall i :: 0 <= i < |f| && i != k ==> f[i] == 0.0
    ensures Sum(f) == f[k]
  {
    var n := |f| - 1;
    if k == n {
      SumOfZeros(f[..n]);
    } else {
      SumSingle(f[..n], k);
    }
  }

  /** Adding the next entry, in the form a loop needs it. */
  lemma SumExtend(f: seq<real>, k: nat)
    requires k < |f|
    ensures Sum(f[..k + 1]) == Sum(f[..k]) + f[k]
  {
    assert f[..k + 1][..k] == f[..k];
  }

  /** If entries differ by at most a multiple of a weight, so do the sums. */
  lemma {:induction false} SumLipschitz(f: seq<real>, g: seq<real>, e: real, w: seq<real>)
    requires |f| == |g| == |w|
    requires forall i :: 0 <= i < |f| ==> Abs(f[i] - g[i]) <= Times(e, w[i])
    ensures Abs(Sum(f) - Sum(g)) <= Times(e, Sum(w))
  {
    hide Times;
    TimesAlgebra(0.0, 0.0, e);
    if f != [] {
      var n := |f| - 1;
      SumLipschitz(f[..n], g[..n], e, w[..n]);
      TimesAlgebra(Sum(w[..n]), w[n], e);
    }
  }
}
