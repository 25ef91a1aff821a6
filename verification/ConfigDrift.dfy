/**
 * The dotted-path view of a configuration document and the comparison built on it. A document keeps
 * its members in order, since a later member overwrites an earlier one at the same path.
 */
module ConfigDrift {
  import opened JsonDiff
  import opened Prelude
  import opened Text

  /** A parsed document: an object, or a value compared whole (scalars and lists). */
  datatype Doc = Leaf(value: Json) | Dict(members: seq<(string, Doc)>)

  const ABSENT: Json := Str("<absent>")

  predicate IsDocumentationKey(leaf: string) {
    "_" <= leaf
  }

  function PathOf(prefix: string, k: string): string {
    if prefix != "" then prefix + "." + k else k
  }

  function Flatten(d: Doc, prefix: string): map<string, Json>
    decreases d, 1, 0
  {
    match d
    case Leaf(v) => map[prefix := v]
    case Dict(members) => FlattenMembers(d, |members|, prefix)
  }

  /** The first n members, in order; `update` lets a later member win. */
  function FlattenMembers(d: Doc, n: nat, prefix: string): map<string, Json>
    requires d.Dict? && n <= |d.members|
    decreases d, 0, n
  {
    if n == 0 then map[]
    else
      var (k, v) := d.members[n - 1];
      var out := FlattenMembers(d, n - 1, prefix);
      if IsDocumentationKey(k) then out else out + Flatten(v, PathOf(prefix, k))
  }

  method FlattenLoop(d: Doc, prefix: string) returns (out: map<string, Json>)
    ensures out == Flatten(d, prefix)
    decreases d
  {
    out := map[];
    if d.Leaf? {
      return out[prefix := d.value];
    }
    for i := 0 to |d.members|
      invariant out == FlattenMembers(d, i, prefix)
    {
      var (k, v) := d.members[i];
      if !IsDocumentationKey(k) {
        var path := PathOf(prefix, k);
        if v.Dict? {
          var inner := FlattenLoop(v, path);
          out := out + inner;
        } else {
          assert Flatten(v, path) == map[path := v.value];
          out := out[path := v.value];
        }
      }
    }
  }

  // ---- compare ----

  datatype Drift = Drift(key: string, pinned: Json, main: Json)

  function GetOr(m: map<string, Json>, k: string): Json {
    if k in m then m[k] else ABSENT
  }

  predicate SameAt(a: map<string, Json>, b: map<string, Json>, k: string) {
    PyEqual(GetOr(a, k), GetOr(b, k))
  }

  ghost function DriftsAt(a: map<string, Json>, b: map<string, Json>, keys: seq<string>): seq<Drift> {
    if keys == [] then []
    else
      var k := keys[|keys| - 1];
      DriftsAt(a, b, keys[..|keys| - 1])
      + if SameAt(a, b, k) then [] else [Drift(k, GetOr(a, k), GetOr(b, k))]
  }

  /** The flat view of a whole document. */
  function View(d: Doc): map<string, Json> {
    Flatten(d, "")
  }

  ghost function Drifts(pinned: Doc, main: Doc): seq<Drift> {
    DriftsAt(View(pinned), View(main), SortedSet(View(pinned).Keys + View(main).Keys))
  }

  method Compare(pinned: Doc, main: Doc) returns (diffs: seq<Drift>)
    ensures diffs == Drifts(pinned, main)
  {
    hide DriftsAt;
    var a := FlattenLoop(pinned, "");
    var b := FlattenLoop(main, "");
    var keys := SortKeys(a.Keys + b.Keys);
    diffs := CollectDrifts(a, b, keys);
  }

  method CollectDrifts(a: map<string, Json>, b: map<string, Json>, keys: seq<string>) returns (diffs: seq<Drift>)
    ensures diffs == DriftsAt(a, b, keys)
  {
    hide PyEqual, GetOr;
    diffs := [];
    for i := 0 to |keys|
      invariant diffs == DriftsAt(a, b, keys[..i])
    {
      var k := keys[i];
      assert keys[..i + 1][..i] == keys[..i];
      var av, bv := GetOr(a, k), GetOr(b, k);
      if !PyEqual(av, bv) {
        diffs := diffs + [Drift(k, av, bv)];
      }
    }
    assert keys[..|keys|] == keys;
  }

  lemma {:induction false} NoDriftsAt(a: map<string, Json>, b: map<string, Json>, keys: seq<string>)
    ensures DriftsAt(a, b, keys) == [] <==> forall k :: k in keys ==> SameAt(a, b, k)
  {
    hide SameAt;
    if keys != [] {
      var n := |keys| - 1;
      NoDriftsAt(a, b, keys[..n]);
      assert forall k :: k in keys <==> k in keys[..n] || k == keys[n];
    }
  }

  /** What a view shows under a dotted name. */
  predicate Shows(m: map<string, Json>, k: string, v: Json) {
    if k in m then v == m[k] else v == Str("<absent>")
  }

  /** Two views show these different values under this name. */
  predicate IsDifference(a: map<string, Json>, b: map<string, Json>, d: Drift) {
    Shows(a, d.key, d.pinned) && Shows(b, d.key, d.main) && !PyEqual(d.pinned, d.main)
  }

  ghost predicate InKeyOrder(drifts: seq<Drift>) {
    forall i, j :: 0 <= i < j < |drifts| ==> Le(drifts[i].key, drifts[j].key) && drifts[i].key != drifts[j].key
  }

  /** The names that two views show differently are reported once each, in order, with both values. */
  lemma DriftsAreTheDifferences(pinned: Doc, main: Doc)
    ensures var drifts := Drifts(pinned, main);
      && (forall d :: d in drifts <==> IsDifference(View(pinned), View(main), d))
      && InKeyOrder(drifts)
  {
    hide View, DriftsAt, IsDifference, InKeyOrder;
    var a, b := View(pinned), View(main);
    var keys := SortedSet(a.Keys + b.Keys);
    DriftsOver(a, b, keys);
    DriftsAscend(a, b, keys);
    forall d ensures IsDifference(a, b, d) ==> d.key in keys {
      DifferenceIsShown(a, b, d);
    }
  }

  lemma DifferenceIsShown(a: map<string, Json>, b: map<string, Json>, d: Drift)
    ensures IsDifference(a, b, d) ==> d.key in a.Keys + b.Keys
  {
  }

  lemma OneDifference(a: map<string, Json>, b: map<string, Json>, k: string, d: Drift)
    ensures IsDifference(a, b, d) && d.key == k <==> !SameAt(a, b, k) && d == Drift(k, GetOr(a, k), GetOr(b, k))
  {
  }

  lemma {:induction false} DriftsOver(a: map<string, Json>, b: map<string, Json>, keys: seq<string>)
    ensures forall d :: d in DriftsAt(a, b, keys) <==> d.key in keys && IsDifference(a, b, d)
  {
    hide SameAt, IsDifference, GetOr;
    if keys != [] {
      var n := |keys| - 1;
      DriftsOver(a, b, keys[..n]);
      forall d ensures d in DriftsAt(a, b, keys) <==> d.key in keys && IsDifference(a, b, d) {
        OneDifference(a, b, keys[n], d);
        assert d.key in keys <==> d.key in keys[..n] || d.key == keys[n];
      }
    }
  }

  lemma {:induction false} DriftsAscend(a: map<string, Json>, b: map<string, Json>, keys: seq<string>)
    requires Ascending(keys)
    ensures InKeyOrder(DriftsAt(a, b, keys))
  {
    hide SameAt, IsDifference, GetOr;
    if keys != [] {
      var n := |keys| - 1;
      DriftsAscend(a, b, keys[..n]);
      DriftsOver(a, b, keys[..n]);
      var front := DriftsAt(a, b, keys[..n]);
      forall i | 0 <= i < |front| ensures Le(front[i].key, keys[n]) && front[i].key != keys[n] {
        assert front[i] in front && front[i].key in keys[..n];
      }
      var all := DriftsAt(a, b, keys);
      assert all == front || (|all| == |front| + 1 && all[..|front|] == front && all[|front|].key == keys[n]);
    }
  }

  /** Documentation is what starts with an underscore; below a nonempty key a dot joins the names. */
  lemma ShortDocuments(j: string, k: string, v: Json)
    ensures var leaf := Dict([(k, Leaf(v))]);
      && View(leaf) == (if k != "" && k[0] == '_' then map[] else map[k := v])
      && (j != "" && j[0] != '_' && (k == "" || k[0] != '_') ==> View(Dict([(j, leaf)])) == map[j + "." + k := v])
  {
    OneMember(k, Leaf(v), "");
    if j != "" && j[0] != '_' && (k == "" || k[0] != '_') {
      OneMember(j, Dict([(k, Leaf(v))]), "");
      OneMember(k, Leaf(v), j);
    }
  }

  lemma OneMember(k: string, d: Doc, prefix: string)
    ensures Flatten(Dict([(k, d)]), prefix) == if k != "" && k[0] == '_' then map[] else Flatten(d, PathOf(prefix, k))
  {
    var doc := Dict([(k, d)]);
    assert FlattenMembers(doc, 0, prefix) == map[];
    assert "_" <= k <==> k != "" && k[0] == '_';
    assert FlattenMembers(doc, 1, prefix) == Flatten(doc, prefix);
  }

  /** No drift exactly when the two flat views give equal values at every path. */
  lemma NoDriftMeansSameView(pinned: Doc, main: Doc)
    ensures Drifts(pinned, main) == [] <==> forall p :: SameAt(View(pinned), View(main), p)
  {
    hide View, SameAt, DriftsAt;
    SameEverywhere(View(pinned), View(main));
  }

  lemma SameEverywhere(a: map<string, Json>, b: map<string, Json>)
    ensures DriftsAt(a, b, SortedSet(a.Keys + b.Keys)) == [] <==> forall p :: SameAt(a, b, p)
  {
    hide SameAt, DriftsAt;
    var keys := SortedSet(a.Keys + b.Keys);
    NoDriftsAt(a, b, keys);
    if forall k :: k in keys ==> SameAt(a, b, k) {
      forall p ensures SameAt(a, b, p) {
        SameWhereAbsent(a, b, p);
      }
    }
  }

  lemma SameWhereAbsent(a: map<string, Json>, b: map<string, Json>, p: string)
    ensures p in a || p in b || SameAt(a, b, p)
  {
  }

  // ---- what the documents mean ----

  /** The keys that documents may use. */
  type Vocabulary = iset<string>

  /** Keys that are not documentation belong to the vocabulary, keys are unique, and objects are not leaves. */
  ghost predicate Over(vocabulary: Vocabulary, d: Doc) {
    match d
    case Leaf(v) => !v.Obj?
    case Dict(members) =>
      && (forall i :: 0 <= i < |members| ==> IsDocumentationKey(members[i].0) || members[i].0 in vocabulary)
      && (forall i, j :: 0 <= i < j < |members| ==> members[i].0 != members[j].0)
      && (forall i :: 0 <= i < |members| ==> Over(vocabulary, members[i].1))
  }

  /** A sequence of visible keys of the vocabulary. */
  ghost predicate PathOver(vocabulary: Vocabulary, ks: seq<string>) {
    forall i :: 0 <= i < |ks| ==> ks[i] in vocabulary && !IsDocumentationKey(ks[i])
  }

  /** The dotted path of a key sequence below a prefix. */
  function Extend(prefix: string, ks: seq<string>): string
    decreases |ks|
  {
    if ks == [] then prefix else Extend(PathOf(prefix, ks[0]), ks[1..])
  }

  /** No two key paths of the vocabulary have the same dotted name. */
  ghost predicate UniqueNames(vocabulary: Vocabulary) {
    forall a, b :: PathOver(vocabulary, a) && PathOver(vocabulary, b) && Extend("", a) == Extend("", b) ==> a == b
  }

  lemma {:induction false} ExtendJoin(prefix: string, a: seq<string>, b: seq<string>)
    ensures Extend(prefix, a + b) == Extend(Extend(prefix, a), b)
    decreases |a|
  {
    if a == [] {
      assert a + b == b;
    } else {
      assert (a + b)[1..] == a[1..] + b;
      ExtendJoin(PathOf(prefix, a[0]), a[1..], b);
    }
  }

  /** The position of the member with key k, if it is not documentation. */
  function IndexOf(d: Doc, k: string): (r: Option<nat>)
    requires d.Dict?
    ensures r.Some? ==> r.value < |d.members| && d.members[r.value].0 == k && !IsDocumentationKey(k)
    ensures r.None? ==> IsDocumentationKey(k) || forall i :: 0 <= i < |d.members| ==> d.members[i].0 != k
  {
    if IsDocumentationKey(k) then None else IndexBelow(d, k, |d.members|)
  }

  function IndexBelow(d: Doc, k: string, n: nat): (r: Option<nat>)
    requires d.Dict? && n <= |d.members|
    ensures r.Some? ==> r.value < n && d.members[r.value].0 == k
    ensures r.None? ==> forall i :: 0 <= i < n ==> d.members[i].0 != k
  {
    if n == 0 then None
    else if d.members[n - 1].0 == k then Some(n - 1)
    else IndexBelow(d, k, n - 1)
  }

  /** The leaf reached by a key path through non-documentation members. */
  function LeafAt(d: Doc, ks: seq<string>): Option<Json>
    decreases |ks|
  {
    match d
    case Leaf(v) => if ks == [] then Some(v) else None
    case Dict(_) =>
      if ks == [] then None
      else match IndexOf(d, ks[0])
        case None => None
        case Some(i) => LeafAt(d.members[i].1, ks[1..])
  }

  /**
   * The document with documentation keys, absent-marker leaves and then-empty objects removed,
   * member order forgotten, and values as Python compares them.
   */
  function Prune(d: Doc): Option<Json>
    decreases d, 1, 0
  {
    match d
    case Leaf(v) => if Canonical(v) == ABSENT then None else Some(Canonical(v))
    case Dict(members) =>
      var tree := PruneMembers(d, |members|);
      if tree == map[] then None else Some(Obj(tree))
  }

  function PruneMembers(d: Doc, n: nat): map<string, Json>
    requires d.Dict? && n <= |d.members|
    decreases d, 0, n
  {
    if n == 0 then map[]
    else
      var (k, v) := d.members[n - 1];
      var tree := PruneMembers(d, n - 1);
      if IsDocumentationKey(k) || Prune(v).None? then tree else tree[k := Prune(v).value]
  }

  // ---- the flat view is the set of leaves ----

  lemma {:induction false} MembersBelow(d: Doc, n: nat, prefix: string, p: string) returns (i: nat)
    requires d.Dict? && n <= |d.members| && p in FlattenMembers(d, n, prefix)
    ensures i < n && !IsDocumentationKey(d.members[i].0)
    ensures p in Flatten(d.members[i].1, PathOf(prefix, d.members[i].0))
    ensures FlattenMembers(d, n, prefix)[p] == Flatten(d.members[i].1, PathOf(prefix, d.members[i].0))[p]
    ensures forall j :: i < j < n && !IsDocumentationKey(d.members[j].0) ==>
      p !in Flatten(d.members[j].1, PathOf(prefix, d.members[j].0))
  {
    hide Flatten, PathOf, IsDocumentationKey;
    var (k, v) := d.members[n - 1];
    if !IsDocumentationKey(k) && p in Flatten(v, PathOf(prefix, k)) {
      i := n - 1;
    } else {
      i := MembersBelow(d, n - 1, prefix, p);
    }
  }

  lemma {:induction false} MembersAbove(d: Doc, n: nat, prefix: string, i: nat, p: string)
    requires d.Dict? && i < n <= |d.members| && !IsDocumentationKey(d.members[i].0)
    requires p in Flatten(d.members[i].1, PathOf(prefix, d.members[i].0))
    ensures p in FlattenMembers(d, n, prefix)
  {
    hide Flatten, PathOf, IsDocumentationKey;
    if i < n - 1 {
      MembersAbove(d, n - 1, prefix, i, p);
    }
  }

  /** Every path of the flat view is the dotted name of a leaf. */
  lemma {:induction false} ViewPathIsLeaf(voc: Vocabulary, d: Doc, prefix: string, p: string) returns (ks: seq<string>)
    requires Over(voc, d) && p in Flatten(d, prefix)
    ensures PathOver(voc, ks) && p == Extend(prefix, ks)
    ensures LeafAt(d, ks) == Some(Flatten(d, prefix)[p])
    decreases d
  {
    hide LeafAt, Extend, PathOf, IsDocumentationKey, IndexOf;
    LeafHere(d, prefix);
    match d
    case Leaf(v) => ks := [];
    case Dict(members) =>
      var i := MembersBelow(d, |members|, prefix, p);
      var (k, v) := members[i];
      var rest := ViewPathIsLeaf(voc, v, PathOf(prefix, k), p);
      ks := [k] + rest;
      UniqueIndex(voc, d, i);
      ThroughMember(d, i, prefix, rest);
  }

  lemma LeafHere(d: Doc, prefix: string)
    ensures Extend(prefix, []) == prefix
    ensures d.Leaf? ==> LeafAt(d, []) == Some(d.value)
  {
  }

  lemma UniqueIndex(voc: Vocabulary, d: Doc, i: nat)
    requires Over(voc, d) && d.Dict? && i < |d.members| && !IsDocumentationKey(d.members[i].0)
    ensures IndexOf(d, d.members[i].0) == Some(i) && d.members[i].0 in voc && Over(voc, d.members[i].1)
  {
    hide IsDocumentationKey;
  }

  lemma ThroughMember(d: Doc, i: nat, prefix: string, rest: seq<string>)
    requires d.Dict? && i < |d.members| && IndexOf(d, d.members[i].0) == Some(i)
    ensures var ks := [d.members[i].0] + rest;
      && LeafAt(d, ks) == LeafAt(d.members[i].1, rest)
      && Extend(prefix, ks) == Extend(PathOf(prefix, d.members[i].0), rest)
  {
    hide IndexOf, PathOf;
    var ks := [d.members[i].0] + rest;
    assert ks[1..] == rest;
  }

  /** Where names are unique, the flat view below a path holds exactly the leaves, each under its dotted name. */
  lemma {:induction false} LeafIsInView(voc: Vocabulary, d: Doc, at: seq<string>, ks: seq<string>)
    requires UniqueNames(voc) && Over(voc, d) && PathOver(voc, at) && PathOver(voc, ks)
    ensures var prefix := Extend("", at);
      && (Extend(prefix, ks) in Flatten(d, prefix) <==> LeafAt(d, ks).Some?)
      && (LeafAt(d, ks).Some? ==> Flatten(d, prefix)[Extend(prefix, ks)] == LeafAt(d, ks).value)
    decreases d
  {
    hide UniqueNames;
    var prefix := Extend("", at);
    var p := Extend(prefix, ks);
    if LeafAt(d, ks).Some? && d.Dict? {
      var i := IndexOf(d, ks[0]).value;
      ExtendJoin("", at, [ks[0]]);
      LeafIsInView(voc, d.members[i].1, at + [ks[0]], ks[1..]);
      MembersAbove(d, |d.members|, prefix, i, p);
    }
    if p in Flatten(d, prefix) {
      var other := ViewPathIsLeaf(voc, d, prefix, p);
      SamePathBelow(voc, at, ks, other);
    }
  }

  lemma SamePathBelow(voc: Vocabulary, at: seq<string>, a: seq<string>, b: seq<string>)
    requires UniqueNames(voc) && PathOver(voc, at) && PathOver(voc, a) && PathOver(voc, b)
    requires Extend(Extend("", at), a) == Extend(Extend("", at), b)
    ensures a == b
  {
    hide Extend;
    ExtendJoin("", at, a);
    ExtendJoin("", at, b);
    assert at + a == at + b;
    assert a == (at + a)[|at|..] && b == (at + b)[|at|..];
  }

  /** What comparison sees at a path: absent and the absent marker look alike. */
  function Seen(leaf: Option<Json>): Json {
    if leaf.Some? then Canonical(leaf.value) else ABSENT
  }

  lemma ViewSees(voc: Vocabulary, d: Doc, ks: seq<string>)
    requires UniqueNames(voc) && Over(voc, d) && PathOver(voc, ks)
    ensures Canonical(GetOr(View(d), Extend("", ks))) == Seen(LeafAt(d, ks))
  {
    hide Over, UniqueNames, Flatten, LeafAt;
    LeafIsInView(voc, d, [], ks);
  }

  /** Both documents show the same at every key path of the vocabulary. */
  ghost predicate SameLeaves(voc: Vocabulary, pinned: Doc, main: Doc) {
    forall ks :: PathOver(voc, ks) ==> Seen(LeafAt(pinned, ks)) == Seen(LeafAt(main, ks))
  }

  /** Where names are unique, no drift exactly when the two documents show the same leaves. */
  lemma NoDriftMeansSameLeaves(voc: Vocabulary, pinned: Doc, main: Doc)
    requires UniqueNames(voc) && Over(voc, pinned) && Over(voc, main)
    ensures Drifts(pinned, main) == [] <==> SameLeaves(voc, pinned, main)
  {
    hide Over, UniqueNames, PathOver, LeafAt, Flatten, Drifts, GetOr, Seen, View;
    NoDriftMeansSameView(pinned, main);
    if forall p :: SameAt(View(pinned), View(main), p) {
      forall ks | PathOver(voc, ks) ensures Seen(LeafAt(pinned, ks)) == Seen(LeafAt(main, ks)) {
        ViewSees(voc, pinned, ks);
        ViewSees(voc, main, ks);
        assert SameAt(View(pinned), View(main), Extend("", ks));
      }
    }
    if SameLeaves(voc, pinned, main) {
      forall p ensures SameAt(View(pinned), View(main), p) {
        SameLeavesSameView(voc, pinned, main, p);
      }
    }
  }

  lemma SameLeavesSameView(voc: Vocabulary, pinned: Doc, main: Doc, p: string)
    requires UniqueNames(voc) && Over(voc, pinned) && Over(voc, main) && SameLeaves(voc, pinned, main)
    ensures SameAt(View(pinned), View(main), p)
  {
    hide Over, UniqueNames, PathOver, LeafAt, Flatten, Seen;
    if p in View(pinned) {
      var ks := ViewPathIsLeaf(voc, pinned, "", p);
      ViewSees(voc, pinned, ks);
      ViewSees(voc, main, ks);
    } else if p in View(main) {
      var ks := ViewPathIsLeaf(voc, main, "", p);
      ViewSees(voc, pinned, ks);
      ViewSees(voc, main, ks);
    }
  }

  // ---- pruned trees are determined by their leaves ----

  /** The value at a key path of a pruned tree; objects themselves are not values. */
  function ValueAt(t: Option<Json>, ks: seq<string>): Option<Json>
    decreases |ks|
  {
    if t.None? then None
    else if t.value.Obj? then
      if ks != [] && ks[0] in t.value.members then ValueAt(Some(t.value.members[ks[0]]), ks[1..]) else None
    else if ks == [] then t else None
  }

  lemma {:induction false} PruneMember(voc: Vocabulary, d: Doc, n: nat, k: string)
    requires Over(voc, d) && d.Dict? && n <= |d.members|
    ensures var i, tree := IndexBelow(d, k, n), PruneMembers(d, n);
      if !IsDocumentationKey(k) && i.Some? && Prune(d.members[i.value].1).Some?
      then k in tree && tree[k] == Prune(d.members[i.value].1).value
      else k !in tree
  {
    hide Prune, IsDocumentationKey;
    if n > 0 {
      PruneMember(voc, d, n - 1, k);
    }
  }

  lemma CanonicalKind(v: Json)
    ensures Canonical(v).Obj? == v.Obj?
  {
  }

  /** Pruning keeps exactly the visible leaves. */
  lemma {:induction false} PruneKeepsLeaves(voc: Vocabulary, d: Doc, ks: seq<string>)
    requires Over(voc, d)
    ensures ValueAt(Prune(d), ks) == if Seen(LeafAt(d, ks)) == ABSENT then None else Some(Seen(LeafAt(d, ks)))
    decreases d
  {
    match d
    case Leaf(v) => CanonicalKind(v);
    case Dict(members) =>
      if ks != [] {
        var k := ks[0];
        PruneMember(voc, d, |members|, k);
        if IndexOf(d, k).Some? {
          PruneKeepsLeaves(voc, members[IndexOf(d, k).value].1, ks[1..]);
        }
      }
  }

  /** Pruned trees have visible keys of the vocabulary and no empty object. */
  ghost predicate Reduced(voc: Vocabulary, j: Json) {
    j.Obj? ==> j.members != map[] && forall k :: k in j.members ==> PathOver(voc, [k]) && Reduced(voc, j.members[k])
  }

  lemma {:induction false} PruneReduces(voc: Vocabulary, d: Doc)
    requires Over(voc, d)
    ensures Prune(d).Some? ==> Reduced(voc, Prune(d).value)
    decreases d
  {
    match d
    case Leaf(v) => CanonicalKind(v);
    case Dict(members) =>
      var tree := PruneMembers(d, |members|);
      forall k | k in tree ensures PathOver(voc, [k]) && Reduced(voc, tree[k]) {
        PruneMember(voc, d, |members|, k);
        var i := IndexBelow(d, k, |members|).value;
        PruneReduces(voc, members[i].1);
      }
  }

  lemma {:induction false} ReducedHasLeaf(voc: Vocabulary, j: Json) returns (ks: seq<string>)
    requires Reduced(voc, j)
    ensures PathOver(voc, ks) && ValueAt(Some(j), ks).Some?
  {
    if j.Obj? {
      var k :| k in j.members;
      var rest := ReducedHasLeaf(voc, j.members[k]);
      ks := [k] + rest;
      assert ks[1..] == rest && [k][0] == k;
    } else {
      ks := [];
    }
  }

  ghost predicate SameValues(voc: Vocabulary, x: Option<Json>, y: Option<Json>) {
    forall ks :: PathOver(voc, ks) ==> ValueAt(x, ks) == ValueAt(y, ks)
  }

  lemma SomewhereElse(voc: Vocabulary, x: Option<Json>, y: Option<Json>)
    requires x.Some? && Reduced(voc, x.value) && SameValues(voc, x, y)
    ensures y.Some? && y.value.Obj? == x.value.Obj?
    ensures !x.value.Obj? ==> x == y
  {
    hide Reduced;
    var ks := ReducedHasLeaf(voc, x.value);
    assert ValueAt(x, ks) == ValueAt(y, ks);
    assert PathOver(voc, []);
    assert ValueAt(x, []) == ValueAt(y, []);
  }

  lemma ChildSameValues(voc: Vocabulary, x: Json, y: Json, k: string)
    requires x.Obj? && y.Obj? && PathOver(voc, [k]) && SameValues(voc, Some(x), Some(y))
    ensures SameValues(voc, if k in x.members then Some(x.members[k]) else None, if k in y.members then Some(y.members[k]) else None)
  {
    var a := if k in x.members then Some(x.members[k]) else None;
    var b := if k in y.members then Some(y.members[k]) else None;
    forall ks | PathOver(voc, ks) ensures ValueAt(a, ks) == ValueAt(b, ks) {
      var longer := [k] + ks;
      assert [k][0] == k;
      assert PathOver(voc, longer) && longer[1..] == ks;
      assert ValueAt(Some(x), longer) == ValueAt(Some(y), longer);
    }
  }

  /** Reduced trees with the same values at every path of the vocabulary are the same tree. */
  lemma {:induction false} ValuesDetermineTree(voc: Vocabulary, x: Option<Json>, y: Option<Json>)
    requires (x.Some? ==> Reduced(voc, x.value)) && (y.Some? ==> Reduced(voc, y.value)) && SameValues(voc, x, y)
    ensures x == y
    decreases if x.Some? then x.value else Null
  {
    hide SameValues, ValueAt;
    if x.Some? {
      SomewhereElse(voc, x, y);
      if x.value.Obj? {
        var a, b := x.value.members, y.value.members;
        forall k | k in a || k in b ensures k in a && k in b && a[k] == b[k] {
          ChildSameValues(voc, x.value, y.value, k);
          if k in a {
            SomewhereElse(voc, Some(a[k]), if k in b then Some(b[k]) else None);
            ValuesDetermineTree(voc, Some(a[k]), Some(b[k]));
          } else {
            SameValuesSymmetric(voc, None, Some(b[k]));
            SomewhereElse(voc, Some(b[k]), None);
          }
        }
        assert a == b;
      }
    } else if y.Some? {
      SameValuesSymmetric(voc, x, y);
      SomewhereElse(voc, y, x);
    }
  }

  lemma SameValuesSymmetric(voc: Vocabulary, x: Option<Json>, y: Option<Json>)
    requires SameValues(voc, x, y)
    ensures SameValues(voc, y, x)
  {
  }

  // ---- when the comparison is faithful ----

  /** The comparison of these two documents reports nothing exactly when their pruned trees are equal. */
  ghost predicate IsFaithful(pinned: Doc, main: Doc) {
    Drifts(pinned, main) == [] <==> Prune(pinned) == Prune(main)
  }

  /** Where names are unique the comparison is faithful. */
  lemma FaithfulWhereNamesAreUnique(voc: Vocabulary, pinned: Doc, main: Doc)
    requires UniqueNames(voc) && Over(voc, pinned) && Over(voc, main)
    ensures IsFaithful(pinned, main)
  {
    hide Over, UniqueNames, PathOver, LeafAt, Drifts, Seen, Prune, ValueAt, Reduced;
    NoDriftMeansSameLeaves(voc, pinned, main);
    forall ks ensures ValueAt(Prune(pinned), ks) == ValueAt(Prune(main), ks)
                 <==> Seen(LeafAt(pinned, ks)) == Seen(LeafAt(main, ks)) {
      PruneKeepsLeaves(voc, pinned, ks);
      PruneKeepsLeaves(voc, main, ks);
    }
    if SameValues(voc, Prune(pinned), Prune(main)) {
      PruneReduces(voc, pinned);
      PruneReduces(voc, main);
      ValuesDetermineTree(voc, Prune(pinned), Prune(main));
    }
  }

  /** A document placed below a chain of keys. */
  function Under(ks: seq<string>, d: Doc): Doc {
    if ks == [] then d else Dict([(ks[0], Under(ks[1..], d))])
  }

  ghost predicate Visible(ks: seq<string>) {
    forall i :: 0 <= i < |ks| ==> !IsDocumentationKey(ks[i])
  }

  /** The flat view of a placed document is its view below the chain's dotted name. */
  lemma {:induction false} ViewUnder(ks: seq<string>, d: Doc, prefix: string)
    requires Visible(ks)
    ensures Flatten(Under(ks, d), prefix) == Flatten(d, Extend(prefix, ks))
    decreases |ks|
  {
    if ks != [] {
      ViewUnder(ks[1..], d, PathOf(prefix, ks[0]));
      SingleMember(Under(ks, d), ks[0], Under(ks[1..], d));
    }
  }

  lemma {:induction false} OverUnder(voc: Vocabulary, ks: seq<string>, d: Doc)
    requires PathOver(voc, ks) && Over(voc, d)
    ensures Over(voc, Under(ks, d))
  {
    if ks != [] {
      OverUnder(voc, ks[1..], d);
    }
  }

  const ONE: Doc := Leaf(Num(1.0))

  /** The same leaf at different visible paths gives different trees. */
  lemma {:induction false} PathsSeparate(a: seq<string>, b: seq<string>)
    requires Visible(a) && Visible(b) && a != b
    ensures Prune(Under(a, ONE)).Some?
    ensures Prune(Under(a, ONE)) != Prune(Under(b, ONE))
    decreases |a| + |b|
  {
    UnderOne(a);
    UnderOne(b);
    if a != [] && b != [] && a[0] == b[0] {
      assert a == [a[0]] + a[1..] && b == [b[0]] + b[1..];
      PathsSeparate(a[1..], b[1..]);
      var x, y := Prune(Under(a[1..], ONE)).value, Prune(Under(b[1..], ONE)).value;
      assert map[a[0] := x][a[0]] != map[a[0] := y][a[0]];
    } else if a != [] && b != [] {
      assert a[0] in Prune(Under(a, ONE)).value.members && a[0] !in Prune(Under(b, ONE)).value.members;
    }
  }

  lemma {:induction false} UnderOne(ks: seq<string>)
    requires Visible(ks)
    ensures Prune(Under(ks, ONE)).Some?
    ensures ks == [] ==> Prune(Under(ks, ONE)).value == Num(1.0)
    ensures ks != [] ==> Prune(Under(ks[1..], ONE)).Some?
    ensures ks != [] ==> Prune(Under(ks, ONE)).value == Obj(map[ks[0] := Prune(Under(ks[1..], ONE)).value])
  {
    if ks != [] {
      UnderOne(ks[1..]);
      SingleMember(Under(ks, ONE), ks[0], Under(ks[1..], ONE));
    }
  }

  /**
   * Exactly when the comparison is faithful: over a given vocabulary it reports nothing just for equal
   * pruned trees, whatever the two documents, if and only if no two key paths share a dotted name.
   */
  lemma FaithfulExactlyWhenNamesAreUnique(voc: Vocabulary)
    ensures (forall pinned, main :: Over(voc, pinned) && Over(voc, main) ==> IsFaithful(pinned, main)) <==> UniqueNames(voc)
  {
    hide Over, Drifts, Prune, Under;
    if UniqueNames(voc) {
      forall pinned, main | Over(voc, pinned) && Over(voc, main) ensures IsFaithful(pinned, main) {
        FaithfulWhereNamesAreUnique(voc, pinned, main);
      }
    } else {
      var a, b :| PathOver(voc, a) && PathOver(voc, b) && Extend("", a) == Extend("", b) && a != b;
      SharedNameHidesDrift(voc, a, b);
      assert !IsFaithful(Under(a, ONE), Under(b, ONE));
    }
  }

  /** Two paths with one name: the leaf moves from one to the other unreported. */
  lemma SharedNameHidesDrift(voc: Vocabulary, a: seq<string>, b: seq<string>)
    requires PathOver(voc, a) && PathOver(voc, b) && Extend("", a) == Extend("", b) && a != b
    ensures Over(voc, Under(a, ONE)) && Over(voc, Under(b, ONE))
    ensures Drifts(Under(a, ONE), Under(b, ONE)) == [] && Prune(Under(a, ONE)) != Prune(Under(b, ONE))
  {
    hide Prune, Drifts, Extend;
    OverUnder(voc, a, ONE);
    OverUnder(voc, b, ONE);
    ViewUnder(a, ONE, "");
    ViewUnder(b, ONE, "");
    NoDriftMeansSameView(Under(a, ONE), Under(b, ONE));
    PathsSeparate(a, b);
  }

  // ---- nonempty dot-free keys have unique names ----

  predicate CleanKey(k: string) {
    k != "" && '.' !in k
  }

  ghost const CLEAN_KEYS: Vocabulary := iset k: string | CleanKey(k)

  ghost predicate Clean(d: Doc) {
    Over(CLEAN_KEYS, d)
  }

  ghost predicate CleanPath(ks: seq<string>) {
    forall i :: 0 <= i < |ks| ==> CleanKey(ks[i])
  }

  /** The part of an extended path after its prefix. */
  function Suffix(ks: seq<string>): string {
    if ks == [] then "" else "." + ks[0] + Suffix(ks[1..])
  }

  lemma {:induction false} ExtendIsSuffix(prefix: string, ks: seq<string>)
    requires CleanPath(ks)
    ensures prefix != "" ==> Extend(prefix, ks) == prefix + Suffix(ks)
    ensures prefix == "" && ks != [] ==> Extend(prefix, ks) == ks[0] + Suffix(ks[1..])
    decreases |ks|
  {
    if ks != [] {
      assert CleanKey(ks[0]);
      ExtendIsSuffix(PathOf(prefix, ks[0]), ks[1..]);
      assert prefix + ("." + ks[0] + Suffix(ks[1..])) == prefix + "." + ks[0] + Suffix(ks[1..]);
    }
  }

  /** A dot-free key followed by a suffix splits in only one way. */
  lemma {:induction false} KeySplits(k: string, x: string, l: string, y: string)
    requires '.' !in k && '.' !in l && k + x == l + y
    requires x == "" || x[0] == '.'
    requires y == "" || y[0] == '.'
    ensures k == l && x == y
  {
    assert k != "" ==> (k + x)[0] == k[0] && k[0] in k;
    assert l != "" ==> (l + y)[0] == l[0] && l[0] in l;
    assert k == "" ==> k + x == x;
    assert l == "" ==> l + y == y;
    if k != "" && l != "" {
      assert (k + x)[1..] == k[1..] + x && (l + y)[1..] == l[1..] + y;
      KeySplits(k[1..], x, l[1..], y);
      assert k == [k[0]] + k[1..] && l == [l[0]] + l[1..];
    }
  }

  lemma {:induction false} SuffixInjective(a: seq<string>, b: seq<string>)
    requires CleanPath(a) && CleanPath(b) && Suffix(a) == Suffix(b)
    ensures a == b
  {
    if a != [] && b != [] {
      assert Suffix(a)[1..] == a[0] + Suffix(a[1..]) && Suffix(b)[1..] == b[0] + Suffix(b[1..]);
      assert CleanKey(a[0]) && CleanKey(b[0]);
      KeySplits(a[0], Suffix(a[1..]), b[0], Suffix(b[1..]));
      SuffixInjective(a[1..], b[1..]);
      assert a == [a[0]] + a[1..] && b == [b[0]] + b[1..];
    }
  }

  lemma ExtendInjective(prefix: string, a: seq<string>, b: seq<string>)
    requires CleanPath(a) && CleanPath(b) && Extend(prefix, a) == Extend(prefix, b)
    ensures a == b
  {
    ExtendIsSuffix(prefix, a);
    ExtendIsSuffix(prefix, b);
    assert a != [] ==> CleanKey(a[0]);
    assert b != [] ==> CleanKey(b[0]);
    if prefix != "" {
      assert Suffix(a) == Extend(prefix, a)[|prefix|..] && Suffix(b) == Extend(prefix, b)[|prefix|..];
      SuffixInjective(a, b);
    } else if a != [] && b != [] {
      KeySplits(a[0], Suffix(a[1..]), b[0], Suffix(b[1..]));
      SuffixInjective(a[1..], b[1..]);
      assert a == [a[0]] + a[1..] && b == [b[0]] + b[1..];
    }
  }

  lemma CleanNamesAreUnique()
    ensures UniqueNames(CLEAN_KEYS)
  {
    hide Extend;
    forall a, b | PathOver(CLEAN_KEYS, a) && PathOver(CLEAN_KEYS, b) && Extend("", a) == Extend("", b) ensures a == b {
      assert CleanPath(a) && CleanPath(b);
      ExtendInjective("", a, b);
    }
  }

  /**
   * On documents with nonempty dot-free keys the comparison reports nothing exactly when they are the
   * same after removing documentation keys, absent-marker leaves and the objects that become empty.
   */
  lemma NoDriftIffSameTree(pinned: Doc, main: Doc)
    requires Clean(pinned) && Clean(main)
    ensures Drifts(pinned, main) == [] <==> Prune(pinned) == Prune(main)
  {
    CleanNamesAreUnique();
    FaithfulWhereNamesAreUnique(CLEAN_KEYS, pinned, main);
  }

  lemma SingleMember(d: Doc, k: string, v: Doc)
    requires d == Dict([(k, v)]) && !IsDocumentationKey(k)
    ensures forall prefix :: Flatten(d, prefix) == Flatten(v, PathOf(prefix, k))
    ensures Prune(d) == if Prune(v).None? then None else Some(Obj(map[k := Prune(v).value]))
  {
    hide IsDocumentationKey;
    forall prefix ensures Flatten(d, prefix) == Flatten(v, PathOf(prefix, k)) {
      assert FlattenMembers(d, 0, prefix) == map[];
      assert FlattenMembers(d, 1, prefix) == map[] + Flatten(v, PathOf(prefix, k));
    }
    assert PruneMembers(d, 0) == map[];
    assert PruneMembers(d, 1) == if Prune(v).None? then map[] else map[k := Prune(v).value];
    assert Prune(v).Some? ==> k in PruneMembers(d, 1);
  }

  // ---- vocabularies without unique names ----

  /** And keeps their trees apart. */
  lemma {:induction false} UnderSeparates(ks: seq<string>, a: Doc, b: Doc)
    requires Visible(ks) && Prune(a) != Prune(b)
    ensures Prune(Under(ks, a)) != Prune(Under(ks, b))
  {
    if ks != [] {
      UnderSeparates(ks[1..], a, b);
      SingleMember(Under(ks, a), ks[0], Under(ks[1..], a));
      SingleMember(Under(ks, b), ks[0], Under(ks[1..], b));
      var x, y := Prune(Under(ks[1..], a)), Prune(Under(ks[1..], b));
      if x.Some? && y.Some? {
        assert map[ks[0] := x.value][ks[0]] != map[ks[0] := y.value][ks[0]];
      }
    }
  }

  /** Documents hidden at the path where they sit are hidden there, and are different documents. */
  lemma HiddenUnder(ks: seq<string>, a: Doc, b: Doc)
    requires Visible(ks) && Prune(a) != Prune(b)
    requires Flatten(a, Extend("", ks)) == Flatten(b, Extend("", ks))
    ensures Drifts(Under(ks, a), Under(ks, b)) == [] && Prune(Under(ks, a)) != Prune(Under(ks, b))
  {
    hide Flatten, Prune;
    ViewUnder(ks, a, "");
    ViewUnder(ks, b, "");
    UnderSeparates(ks, a, b);
    NoDriftMeansSameView(Under(ks, a), Under(ks, b));
  }

  /** A visible leaf with one key, and the same leaf one key deeper. */
  function OneLevel(k: string, v: Json): Doc {
    Dict([(k, Leaf(v))])
  }

  function TwoLevels(x: string, y: string, v: Json): Doc {
    Dict([(x, OneLevel(y, v))])
  }

  predicate IsVisibleLeaf(v: Json) {
    !v.Obj? && Canonical(v) != ABSENT
  }

  lemma LevelsDiffer(k: string, x: string, y: string, v: Json)
    requires !IsDocumentationKey(k) && !IsDocumentationKey(x) && !IsDocumentationKey(y) && IsVisibleLeaf(v)
    ensures Prune(OneLevel(k, v)) != Prune(TwoLevels(x, y, v))
    ensures forall prefix :: Flatten(OneLevel(k, v), prefix) == map[PathOf(prefix, k) := v]
    ensures forall prefix :: Flatten(TwoLevels(x, y, v), prefix) == map[PathOf(PathOf(prefix, x), y) := v]
  {
    hide PathOf, IsDocumentationKey;
    SingleMember(OneLevel(k, v), k, Leaf(v));
    SingleMember(OneLevel(y, v), y, Leaf(v));
    SingleMember(TwoLevels(x, y, v), x, OneLevel(y, v));
    CanonicalKind(v);
    var one, two := Prune(OneLevel(k, v)).value.members, Prune(TwoLevels(x, y, v)).value.members;
    assert one[k] == Canonical(v) && two[x].Obj?;
  }

  /**
   * A dotted key hides drift: wherever it sits, a key with a dot can be traded for two nested keys, of
   * any shape, unless the second half would be documentation. At the top level the first half must
   * be nonempty.
   */
  lemma DottedKeyHidesDrift(ks: seq<string>, x: string, y: string, v: Json)
    requires Visible(ks) && (x != "" || Extend("", ks) != "")
    requires !IsDocumentationKey(x) && !IsDocumentationKey(y) && IsVisibleLeaf(v)
    ensures var dotted, nested := Under(ks, OneLevel(x + "." + y, v)), Under(ks, TwoLevels(x, y, v));
      Drifts(dotted, nested) == [] && Prune(dotted) != Prune(nested)
  {
    hide Flatten, Prune, Drifts, Extend, Under;
    var prefix := Extend("", ks);
    assert !IsDocumentationKey(x + "." + y) by {
      assert (x + "." + y)[0] == if x == "" then '.' else x[0];
    }
    LevelsDiffer(x + "." + y, x, y, v);
    assert PathOf(prefix, x + "." + y) == PathOf(PathOf(prefix, x), y) by {
      assert prefix + "." + (x + "." + y) == (prefix + "." + x) + "." + y;
    }
    HiddenUnder(ks, OneLevel(x + "." + y, v), TwoLevels(x, y, v));
  }

  /** An empty key hides drift at the top level, and below empty keys: its object can be traded for its members. */
  lemma EmptyKeyHidesDrift(ks: seq<string>, k: string, v: Json)
    requires Visible(ks) && Extend("", ks) == ""
    requires !IsDocumentationKey(k) && IsVisibleLeaf(v)
    ensures var flat, nested := Under(ks, OneLevel(k, v)), Under(ks, TwoLevels("", k, v));
      Drifts(flat, nested) == [] && Prune(flat) != Prune(nested)
  {
    hide Flatten, Prune, Drifts, Extend, Under;
    LevelsDiffer(k, "", k, v);
    HiddenUnder(ks, OneLevel(k, v), TwoLevels("", k, v));
  }

  /** Keys x, y and "x.y" in one vocabulary: two paths share a name. */
  lemma DottedKeysShareNames(voc: Vocabulary, x: string, y: string)
    requires x in voc && y in voc && x + "." + y in voc && x != ""
    requires !IsDocumentationKey(x) && !IsDocumentationKey(y)
    ensures !UniqueNames(voc)
  {
    var a, b := [x + "." + y], [x, y];
    assert !IsDocumentationKey(x + "." + y) by {
      assert (x + "." + y)[0] == x[0];
    }
    assert PathOver(voc, a) && PathOver(voc, b);
    assert a[1..] == [] && b[1..] == [y] && [y][1..] == [];
    assert Extend("", b) == Extend(x, [y]) == Extend(x + "." + y, []);
    assert Extend("", a) == Extend(x + "." + y, []);
  }

  /** An empty key shares its name with no key at all. */
  lemma EmptyKeySharesNames(voc: Vocabulary)
    requires "" in voc
    ensures !UniqueNames(voc)
  {
    var a: seq<string>, b := [], [""];
    assert PathOver(voc, a) && PathOver(voc, b);
    assert Extend("", a) == Extend("", b);
  }

  lemma {:induction false} ExtendGrows(prefix: string, ks: seq<string>)
    requires forall i :: 0 <= i < |ks| ==> ks[i] != ""
    ensures |Extend(prefix, ks)| >= |prefix| + |ks|
    decreases |ks|
  {
    if ks != [] {
      ExtendGrows(PathOf(prefix, ks[0]), ks[1..]);
    }
  }

  lemma {:induction false} LongerRepetition(prefix: string, k: string, a: seq<string>, b: seq<string>)
    requires k != "" && |a| < |b|
    requires (forall i :: 0 <= i < |a| ==> a[i] == k) && (forall i :: 0 <= i < |b| ==> b[i] == k)
    ensures |Extend(prefix, a)| < |Extend(prefix, b)|
    decreases |a|
  {
    if a == [] {
      ExtendGrows(prefix, b);
    } else {
      LongerRepetition(PathOf(prefix, k), k, a[1..], b[1..]);
    }
  }

  /** Dots alone do no harm: over any one key, dotted or not, names are unique unless the key is empty. */
  lemma OneKeyHasUniqueNames(k: string)
    ensures UniqueNames(iset{k}) <==> k != ""
  {
    hide Extend;
    if k == "" {
      EmptyKeySharesNames(iset{k});
    } else {
      forall a, b | PathOver(iset{k}, a) && PathOver(iset{k}, b) && Extend("", a) == Extend("", b) ensures a == b {
        if |a| < |b| {
          LongerRepetition("", k, a, b);
        } else if |b| < |a| {
          LongerRepetition("", k, b, a);
        }
      }
    }
  }

  // ---- the absent marker ----

  lemma {:induction false} SameFirstMembers(a: Doc, b: Doc, n: nat, prefix: string)
    requires a.Dict? && b.Dict? && n <= |a.members| && n <= |b.members| && a.members[..n] == b.members[..n]
    ensures FlattenMembers(a, n, prefix) == FlattenMembers(b, n, prefix)
  {
    hide Flatten, PathOf, IsDocumentationKey;
    if n > 0 {
      assert a.members[n - 1] == a.members[..n][n - 1] == b.members[n - 1];
      assert a.members[..n - 1] == a.members[..n][..n - 1] == b.members[..n - 1];
      SameFirstMembers(a, b, n - 1, prefix);
    }
  }

  lemma LastMember(members: seq<(string, Doc)>, k: string, prefix: string)
    requires !IsDocumentationKey(k)
    ensures Flatten(Dict(members + [(k, Leaf(ABSENT))]), prefix)
         == Flatten(Dict(members), prefix) + map[PathOf(prefix, k) := ABSENT]
  {
    hide PathOf, IsDocumentationKey;
    var without, with, n := Dict(members), Dict(members + [(k, Leaf(ABSENT))]), |members|;
    assert with.members[..n] == members == without.members[..n];
    SameFirstMembers(without, with, n, prefix);
    assert with.members[n] == (k, Leaf(ABSENT));
    assert FlattenMembers(with, n + 1, prefix) == FlattenMembers(with, n, prefix) + Flatten(Leaf(ABSENT), PathOf(prefix, k));
  }

  lemma {:induction false} LeafUnder(ks: seq<string>, d: Doc, k: string)
    requires Visible(ks) && d.Dict?
    ensures LeafAt(Under(ks, d), ks + [k]) == LeafAt(d, [k])
  {
    if ks == [] {
      assert ks + [k] == [k];
    } else {
      assert (ks + [k])[0] == ks[0] && (ks + [k])[1..] == ks[1..] + [k];
      LeafUnder(ks[1..], d, k);
      assert IndexOf(Under(ks, d), ks[0]) == Some(0);
    }
  }

  /**
   * The marker hides drift: a leaf that spells it can be added under any new visible key of any object
   * unreported, as long as no other leaf has that name.
   */
  lemma AbsentMarkerHidesDrift(ks: seq<string>, members: seq<(string, Doc)>, k: string)
    requires Visible(ks) && !IsDocumentationKey(k) && forall i :: 0 <= i < |members| ==> members[i].0 != k
    requires PathOf(Extend("", ks), k) !in Flatten(Dict(members), Extend("", ks))
    ensures var without, with := Dict(members), Dict(members + [(k, Leaf(ABSENT))]);
      && Drifts(Under(ks, without), Under(ks, with)) == []
      && LeafAt(Under(ks, without), ks + [k]) == None && LeafAt(Under(ks, with), ks + [k]) == Some(ABSENT)
  {
    hide Extend, Drifts;
    var without, with := Dict(members), Dict(members + [(k, Leaf(ABSENT))]);
    var prefix, n := Extend("", ks), |members|;
    LastMember(members, k, prefix);
    ViewUnder(ks, without, "");
    ViewUnder(ks, with, "");
    NoDriftMeansSameView(Under(ks, without), Under(ks, with));
    LeafUnder(ks, without, k);
    LeafUnder(ks, with, k);
    assert IndexOf(with, k) == Some(n);
    assert [k][1..] == [];
  }
}
