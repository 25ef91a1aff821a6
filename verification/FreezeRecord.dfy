/** The split of a freeze record: chronological, with a purged embargo, and intersected per horizon. */
module FreezeRecord {
  import opened Prelude
  import opened Text

  // ---- the split ----

  datatype Split = Split(tuning: seq<string>, embargo: seq<string>, evaluation: seq<string>)

  datatype Failure = DbMissing | UnsupportedHorizon | NegativeEmbargo | MissingArgs

  function Clamp(k: nat, n: nat): (r: nat)
    ensures r <= n
  {
    if k < n then k else n
  }

  /** Earliest ceil(n / 2) dates, then the embargo, then the rest; Python slices clamp at the end. */
  function AssignSplit(union: seq<string>, embargo: int): Result<Split, Failure> {
    if embargo < 0 then Err(NegativeEmbargo)
    else
      var cut := (|union| + 1) / 2;
      var resume := Clamp(cut + embargo, |union|);
      Ok(Split(union[..cut], union[cut..resume], union[resume..]))
  }

  function Dates(s: seq<string>): set<string> {
    set d | d in s
  }

  /** The dates of `ids` that belong to `keep`, in order. */
  function Among(ids: seq<string>, keep: set<string>): (r: seq<string>)
    ensures forall d :: d in r <==> d in ids && d in keep
  {
    if ids == [] then []
    else
      var n := |ids| - 1;
      Among(ids[..n], keep) + if ids[n] in keep then [ids[n]] else []
  }

  /** Tuning, embargo and evaluation are the union in order; exactly the rest is evaluated. */
  lemma SplitPartitionsUnion(union: seq<string>, embargo: nat)
    ensures var s := AssignSplit(union, embargo).value;
      && s.tuning + s.embargo + s.evaluation == union
      && |s.tuning| - |union| / 2 == |union| % 2
      && (s.evaluation != [] ==> |s.embargo| == embargo)
  {
  }

  /**
   * No leakage: a tuning date and an evaluation date are more than `embargo` union dates apart, so an
   * h-session forward window of a tuning session, h at most the embargo, ends before evaluation.
   */
  lemma ForwardWindowEndsBeforeEvaluation(union: seq<string>, embargo: nat, i: nat, j: nat, h: nat)
    requires Ascending(union) && i < |union| && j < |union| && h <= embargo
    requires var s := AssignSplit(union, embargo).value; union[i] in s.tuning && union[j] in s.evaluation
    ensures i + h < j
  {
    var s := AssignSplit(union, embargo).value;
    var a :| 0 <= a < |s.tuning| && s.tuning[a] == union[i];
    var b :| 0 <= b < |s.evaluation| && s.evaluation[b] == union[j];
    var resume := |union| - |s.evaluation|;
    assert union[a] == union[i] && union[resume + b] == union[j];
    assert a == i && resume + b == j;
  }

  lemma {:induction false} AmongNone(ids: seq<string>, keep: set<string>)
    requires forall d :: d in ids ==> d !in keep
    ensures Among(ids, keep) == []
  {
    if ids != [] {
      AmongNone(ids[..|ids| - 1], keep);
    }
  }

  /** Earlier, middle and later dates: every class lies entirely before the next one. */
  ghost predicate Ordered(early: set<string>, late: set<string>) {
    forall x, y :: x in early && y in late ==> Le(x, y) && x != y
  }

  /** Splitting ascending dates by three consecutive classes concatenates back to the dates. */
  lemma {:induction false} AmongConcatenates(ids: seq<string>, a: set<string>, b: set<string>, c: set<string>)
    requires Ascending(ids) && forall d :: d in ids ==> d in a || d in b || d in c
    requires Ordered(a, b) && Ordered(a, c) && Ordered(b, c)
    ensures Among(ids, a) + Among(ids, b) + Among(ids, c) == ids
  {
    hide Le, Ordered, Among;
    if ids == [] {
      AmongNone(ids, a);
      AmongNone(ids, b);
      AmongNone(ids, c);
    } else {
      var n := |ids| - 1;
      var last, front := ids[n], ids[..n];
      assert ids == front + [last];
      AmongConcatenates(front, a, b, c);
      AmongStep(ids, a);
      AmongStep(ids, b);
      AmongStep(ids, c);
      var x, y, z := Among(front, a), Among(front, b), Among(front, c);
      if last in a {
        NoneLater(ids, last, a, b);
        NoneLater(ids, last, a, c);
        assert x + [] + [] == x;
      } else if last in b {
        NoneLater(ids, last, b, c);
        assert x + (y + [last]) + [] == (x + y + []) + [last];
      } else {
        assert x + y + (z + [last]) == (x + y + z) + [last];
      }
    }
  }

  lemma AmongStep(ids: seq<string>, keep: set<string>)
    requires ids != []
    ensures var n := |ids| - 1;
      Among(ids, keep) == if ids[n] in keep then Among(ids[..n], keep) + [ids[n]] else Among(ids[..n], keep)
  {
  }

  /** When the last of the ascending dates is early, none of them is late. */
  lemma NoneLater(ids: seq<string>, last: string, early: set<string>, late: set<string>)
    requires Ascending(ids) && ids != [] && last == ids[|ids| - 1]
    requires last in early && Ordered(early, late)
    ensures Among(ids, late) == [] && Among(ids[..|ids| - 1], late) == [] && last !in late
  {
    hide Le;
    LeTotal(last, last);
    forall d | d in ids ensures d !in late {
      var i :| 0 <= i < |ids| && ids[i] == d;
      assert i < |ids| - 1 ==> Le(d, last);
      LeTotal(d, last);
    }
    AmongNone(ids, late);
    AmongNone(ids[..|ids| - 1], late);
  }

  lemma SplitOrdered(union: seq<string>, embargo: nat)
    requires Ascending(union)
    ensures var s := AssignSplit(union, embargo).value;
      && Ordered(Dates(s.tuning), Dates(s.embargo))
      && Ordered(Dates(s.tuning), Dates(s.evaluation))
      && Ordered(Dates(s.embargo), Dates(s.evaluation))
      && Dates(s.tuning) + Dates(s.embargo) + Dates(s.evaluation) == Dates(union)
  {
    var s := AssignSplit(union, embargo).value;
    SplitPartitionsUnion(union, embargo);
    var x, y := |s.tuning|, |s.tuning| + |s.embargo|;
    assert s.tuning == union[..x] && s.embargo == union[x..y] && s.evaluation == union[y..];
  }

  /** The per-horizon intersections partition that horizon's kept dates, in order. */
  lemma HorizonPartition(union: seq<string>, embargo: nat, kept: seq<string>)
    requires Ascending(union) && Ascending(kept) && Dates(kept) <= Dates(union)
    ensures var s := AssignSplit(union, embargo).value;
      Among(kept, Dates(s.tuning)) + Among(kept, Dates(s.embargo)) + Among(kept, Dates(s.evaluation)) == kept
  {
    var s := AssignSplit(union, embargo).value;
    SplitOrdered(union, embargo);
    forall d | d in kept
      ensures d in Dates(s.tuning) || d in Dates(s.embargo) || d in Dates(s.evaluation)
    {
      assert d in Dates(kept);
    }
    AmongConcatenates(kept, Dates(s.tuning), Dates(s.embargo), Dates(s.evaluation));
  }
}
