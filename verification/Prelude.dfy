/** Small datatypes shared by every component of the model. */
module Prelude {

  /** A value that may be missing: Python's `None`, a NaN cell, an absent key. */
  datatype Option<+T> = None | Some(value: T) {
    function GetOr(default: T): T {
      match this
      case Some(v) => v
      case None => default
    }
  }

  /** The outcome of an operation that may raise. */
  datatype Result<+T, +E> = Ok(value: T) | Err(error: E)

  function Abs(x: real): (r: real)
    ensures r >= 0.0 && r >= x && r >= -x
  {
    if x < 0.0 then -x else x
  }

  function Max(x: real, y: real): (r: real)
    ensures r >= x && r >= y
  {
    if x < y then y else x
  }
}

/**
 * Products of reals under a name. Larger proofs hide `Times` and use the facts below, so that no
 * sum, fixed point or state lemma ever reasons about a bare nonlinear term.
 */
module Arith {
  import opened Prelude

  function Times(x: real, y: real): real {
    x * y
  }

  lemma TimesNonNegative(x: real, y: real)
    requires x >= 0.0 && y >= 0.0
    ensures Times(x, y) >= 0.0
  {
  }

  lemma TimesPositive(x: real, y: real)
    requires x > 0.0 && y > 0.0
    ensures Times(x, y) > 0.0
  {
  }

  lemma TimesMonotone(x: real, y: real, k: real)
    requires x <= y && k >= 0.0
    ensures Times(x, k) <= Times(y, k)
    ensures Times(k, x) <= Times(k, y)
  {
  }

  lemma TimesAlgebra(x: real, y: real, k: real)
    ensures Times(x - y, k) == Times(x, k) - Times(y, k)
    ensures Times(x + y, k) == Times(x, k) + Times(y, k)
    ensures Times(k, x - y) == Times(k, x) - Times(k, y)
    ensures Times(k, x + y) == Times(k, x) + Times(k, y)
    ensures Times(x, k) == Times(k, x) && Times(y, k) == Times(k, y)
    ensures Times(1.0, k) == k && Times(0.0, k) == 0.0
  {
  }

  lemma TimesAssociates(x: real, y: real, k: real)
    ensures Times(Times(x, y), k) == Times(x, Times(y, k)) == Times(y, Times(x, k))
  {
  }

  lemma TimesQuotient(x: real, k: real)
    requires k != 0.0
    ensures Times(x / k, k) == x
  {
  }

  lemma TimesCancels(x: real, y: real, k: real)
    requires k > 0.0 && Times(x, k) <= Times(y, k)
    ensures x <= y
  {
  }

  lemma TimesInjective(x: real, y: real, k: real)
    requires k > 0.0 && Times(x, k) == Times(y, k)
    ensures x == y
  {
    TimesCancels(x, y, k);
    TimesCancels(y, x, k);
  }

  lemma AbsOfTimes(x: real, k: real)
    requires k >= 0.0
    ensures Abs(Times(x, k)) == Times(Abs(x), k)
    ensures Abs(Times(k, x)) == Times(k, Abs(x))
  {
    if x >= 0.0 {
      TimesNonNegative(x, k);
    } else {
      TimesNonNegative(-x, k);
      TimesAlgebra(0.0, x, k);
    }
  }

  lemma UnitTimes(x: real, y: real)
    requires 0.0 <= x <= 1.0 && 0.0 <= y <= 1.0
    ensures 0.0 <= Times(x, y) <= 1.0
  {
    TimesNonNegative(x, y);
    TimesMonotone(y, 1.0, x);
  }

  function Pow(x: real, k: nat): real {
    if k == 0 then 1.0 else Times(x, Pow(x, k - 1))
  }

  lemma {:induction false} PowRange(x: real, k: nat)
    requires 0.0 <= x <= 1.0
    ensures 0.0 <= Pow(x, k) <= 1.0
  {
    if k > 0 {
      PowRange(x, k - 1);
      UnitTimes(x, Pow(x, k - 1));
    }
  }
}

/** Counting the entries of a list by kind. */
module Tally {

  /** How many entries are of kind k. */
  function CountOf<T, K(==)>(s: seq<T>, kind: T -> K, k: K): nat {
    if s == [] then 0
    else CountOf(s[..|s| - 1], kind, k) + if kind(s[|s| - 1]) == k then 1 else 0
  }

  lemma CountStep<T, K>(s: seq<T>, kind: T -> K)
    requires s != []
    ensures forall k :: CountOf(s, kind, k) == CountOf(s[..|s| - 1], kind, k) + if kind(s[|s| - 1]) == k then 1 else 0
  {
  }

  lemma {:induction false} CountPositive<T, K>(s: seq<T>, kind: T -> K, k: K)
    ensures CountOf(s, kind, k) > 0 <==> exists i :: 0 <= i < |s| && kind(s[i]) == k
  {
    if s != [] {
      var n := |s| - 1;
      CountPositive(s[..n], kind, k);
      if exists i :: 0 <= i < |s| && kind(s[i]) == k {
        var i :| 0 <= i < |s| && kind(s[i]) == k;
        assert i < n ==> kind(s[..n][i]) == k;
      }
    }
  }
}
