/** The structural diff of two JSON documents that guards a freeze record against drift. */
module JsonDiff {
  import opened Prelude
  import opened Text

  datatype Json =
    | Null
    | Bool(b: bool)
    | Num(n: real)
    | Str(s: string)
    | Arr(items: seq<Json>)
    | Obj(members: map<string, Json>)

  /** Python compares `True` with `1` and `False` with `0` as equal. */
  function Canonical(j: Json): Json {
    match j
    case Bool(b) => Num(if b then 1.0 else 0.0)
    case Arr(items) => Arr(seq(|items|, i requires 0 <= i < |items| => Canonical(items[i])))
    case Obj(members) => Obj(map k | k in members :: Canonical(members[k]))
    case _ => j
  }

  /** Python's `==` on parsed JSON. */
  predicate PyEqual(a: Json, b: Json) {
    Canonical(a) == Canonical(b)
  }

  const VOLATILE: set<string> := {"generated_at_utc"}

  function Member(path: string, key: string): string {
    if path == "" then key else path + "." + key
  }

  function Element(path: string, i: nat): string {
    path + "." + Decimal(i)
  }

  datatype Change =
    | OnlyNew(added: Json)
    | OnlyOld(removed: Json)
    | Replaced(was: Json, now: Json)
    | StringsChanged(gone: set<string>, come: set<string>)
    | OrderChanged
    | Lengths(before: nat, after: nat)

  datatype Diff = Diff(path: string, change: Change)

  predicate AllStrings(items: seq<Json>) {
    forall i :: 0 <= i < |items| ==> items[i].Str?
  }

  function StringSet(items: seq<Json>): set<string>
    requires AllStrings(items)
  {
    set i | 0 <= i < |items| :: items[i].s
  }

  /** Lists of strings report what was added and removed, or a change of order or multiplicity. */
  function StringListDiff(a: seq<Json>, b: seq<Json>, path: string): Diff
    requires AllStrings(a) && AllStrings(b)
  {
    var gone, come := StringSet(a) - StringSet(b), StringSet(b) - StringSet(a);
    Diff(path, if gone != {} || come != {} then StringsChanged(gone, come) else OrderChanged)
  }

  ghost function Walk(a: Json, b: Json, path: string, skip: set<string>): seq<Diff>
    decreases a, 1, 0
  {
    if path in skip then []
    else if a.Obj? && b.Obj? then
      WalkMembers(a, b, SortedSet(a.members.Keys + b.members.Keys), path, skip)
    else if a.Arr? && b.Arr? then
      if PyEqual(a, b) then []
      else if AllStrings(a.items) && AllStrings(b.items) then [StringListDiff(a.items, b.items, path)]
      else if |a.items| == |b.items| then WalkItems(a, b, |a.items|, path, skip)
      else [Diff(path, Lengths(|a.items|, |b.items|))]
    else if PyEqual(a, b) then []
    else [Diff(path, Replaced(a, b))]
  }

  ghost function WalkMembers(a: Json, b: Json, keys: seq<string>, path: string, skip: set<string>): seq<Diff>
    requires a.Obj? && b.Obj?
    decreases a, 0, |keys|
  {
    if keys == [] then []
    else
      var n := |keys| - 1;
      WalkMembers(a, b, keys[..n], path, skip) + WalkMember(a, b, keys[n], path, skip)
  }

  ghost function WalkMember(a: Json, b: Json, k: string, path: string, skip: set<string>): seq<Diff>
    requires a.Obj? && b.Obj?
    decreases a, 0, 0
  {
    var at := Member(path, k);
    if k in a.members && k in b.members then Walk(a.members[k], b.members[k], at, skip)
    else if at in skip then []
    else if k in a.members then [Diff(at, OnlyOld(a.members[k]))]
    else if k in b.members then [Diff(at, OnlyNew(b.members[k]))]
    else []
  }

  ghost function WalkItems(a: Json, b: Json, n: nat, path: string, skip: set<string>): seq<Diff>
    requires a.Arr? && b.Arr? && |a.items| == |b.items| && n <= |a.items|
    decreases a, 0, n
  {
    if n == 0 then []
    else WalkItems(a, b, n - 1, path, skip) + Walk(a.items[n - 1], b.items[n - 1], Element(path, n - 1), skip)
  }

  ghost function Differences(was: Json, now: Json, skip: set<string>): seq<Diff> {
    Walk(was, now, "", skip + VOLATILE)
  }

  // ---- the walk that appends to one output list ----

  method DiffRecords(was: Json, now: Json, skip: set<string>) returns (out: seq<Diff>)
    ensures out == Differences(was, now, skip)
  {
    out := WalkInto(was, now, "", skip + VOLATILE, []);
  }

  method WalkInto(a: Json, b: Json, path: string, skip: set<string>, sofar: seq<Diff>) returns (out: seq<Diff>)
    ensures out == sofar + Walk(a, b, path, skip)
    decreases a, 1, 0
  {
    hide WalkMembers, WalkItems, SortedSet;
    out := sofar;
    if path in skip {
      return;
    }
    if a.Obj? && b.Obj? {
      var keys := SortKeys(a.members.Keys + b.members.Keys);
      out := WalkMembersInto(a, b, keys, path, skip, out);
    } else if a.Arr? && b.Arr? {
      if PyEqual(a, b) {
        return;
      }
      if AllStrings(a.items) && AllStrings(b.items) {
        out := out + [StringListDiff(a.items, b.items, path)];
      } else if |a.items| == |b.items| {
        out := WalkItemsInto(a, b, path, skip, out);
      } else {
        out := out + [Diff(path, Lengths(|a.items|, |b.items|))];
      }
    } else if !PyEqual(a, b) {
      out := out + [Diff(path, Replaced(a, b))];
    }
  }

  method WalkMembersInto(a: Json, b: Json, keys: seq<string>, path: string, skip: set<string>, sofar: seq<Diff>)
    returns (out: seq<Diff>)
    requires a.Obj? && b.Obj?
    ensures out == sofar + WalkMembers(a, b, keys, path, skip)
    decreases a, 0, 1
  {
    hide Walk, WalkMember, Member;
    out := sofar;
    for i := 0 to |keys|
      invariant out == sofar + WalkMembers(a, b, keys[..i], path, skip)
    {
      out := WalkMemberInto(a, b, keys[i], path, skip, out);
      assert keys[..i + 1][..i] == keys[..i];
    }
    assert keys[..|keys|] == keys;
  }

  method WalkMemberInto(a: Json, b: Json, k: string, path: string, skip: set<string>, sofar: seq<Diff>) returns (out: seq<Diff>)
    requires a.Obj? && b.Obj?
    ensures out == sofar + WalkMember(a, b, k, path, skip)
    decreases a, 0, 0
  {
    hide Walk;
    var at := Member(path, k);
    if k in a.members && k in b.members {
      out := WalkInto(a.members[k], b.members[k], at, skip, sofar);
    } else if at in skip || (k !in a.members && k !in b.members) {
      out := sofar;
    } else {
      out := sofar + [Diff(at, if k in a.members then OnlyOld(a.members[k]) else OnlyNew(b.members[k]))];
    }
  }

  method WalkItemsInto(a: Json, b: Json, path: string, skip: set<string>, sofar: seq<Diff>) returns (out: seq<Diff>)
    requires a.Arr? && b.Arr? && |a.items| == |b.items|
    ensures out == sofar + WalkItems(a, b, |a.items|, path, skip)
    decreases a, 0, 0
  {
    hide Walk, Element;
    out := sofar;
    for i := 0 to |a.items|
      invariant out == sofar + WalkItems(a, b, i, path, skip)
    {
      out := WalkInto(a.items[i], b.items[i], Element(path, i), skip, out);
    }
  }

  // ---- what an empty diff means ----

  /** The document without its skipped members; a skipped list element is blanked. */
  function Erase(j: Json, path: string, skip: set<string>): Json {
    match j
    case Bool(b) => Num(if b then 1.0 else 0.0)
    case Arr(items) =>
      Arr(seq(|items|, i requires 0 <= i < |items| =>
        if Element(path, i) in skip then Null else Erase(items[i], Element(path, i), skip)))
    case Obj(members) =>
      Obj(map k | k in members && Member(path, k) !in skip :: Erase(members[k], Member(path, k), skip))
    case _ => j
  }

  /** No list element of the document sits at a skipped path. */
  ghost predicate ElementsKept(j: Json, path: string, skip: set<string>) {
    match j
    case Arr(items) => forall i :: 0 <= i < |items| ==>
      Element(path, i) !in skip && ElementsKept(items[i], Element(path, i), skip)
    case Obj(members) => forall k :: k in members && Member(path, k) !in skip ==>
      ElementsKept(members[k], Member(path, k), skip)
    case _ => true
  }

  /** Documents that Python calls equal erase to the same tree. */
  lemma {:induction false} EqualErasesEqual(a: Json, b: Json, path: string, skip: set<string>)
    requires PyEqual(a, b)
    ensures Erase(a, path, skip) == Erase(b, path, skip)
  {
    match a
    case Arr(items) =>
      assert Canonical(b).Arr? && b.Arr? && |b.items| == |items|;
      forall i | 0 <= i < |items| ensures Erase(items[i], Element(path, i), skip) == Erase(b.items[i], Element(path, i), skip) {
        assert Canonical(a).items[i] == Canonical(b).items[i];
        EqualErasesEqual(items[i], b.items[i], Element(path, i), skip);
      }
    case Obj(members) =>
      assert Canonical(b).Obj? && b.Obj?;
      assert members.Keys == Canonical(a).members.Keys == Canonical(b).members.Keys == b.members.Keys;
      forall k | k in members ensures Erase(members[k], Member(path, k), skip) == Erase(b.members[k], Member(path, k), skip) {
        assert Canonical(a).members[k] == Canonical(b).members[k];
        EqualErasesEqual(members[k], b.members[k], Member(path, k), skip);
      }
    case _ =>
  }

  // ---- soundness and completeness ----

  lemma {:induction false} WalkMembersClean(a: Json, b: Json, keys: seq<string>, path: string, skip: set<string>)
    requires a.Obj? && b.Obj?
    requires forall k :: k in keys ==> WalkMember(a, b, k, path, skip) == []
    ensures WalkMembers(a, b, keys, path, skip) == []
  {
    hide WalkMember;
    if keys != [] {
      WalkMembersClean(a, b, keys[..|keys| - 1], path, skip);
    }
  }

  lemma {:induction false} WalkMembersEmpty(a: Json, b: Json, keys: seq<string>, path: string, skip: set<string>, k: string)
    requires a.Obj? && b.Obj?
    requires WalkMembers(a, b, keys, path, skip) == [] && k in keys
    ensures WalkMember(a, b, k, path, skip) == []
  {
    hide WalkMember;
    var n := |keys| - 1;
    var front, last := WalkMembers(a, b, keys[..n], path, skip), WalkMember(a, b, keys[n], path, skip);
    assert |front + last| == 0;
    if k != keys[n] {
      WalkMembersEmpty(a, b, keys[..n], path, skip, k);
    }
  }

  lemma {:induction false} WalkItemsEmpty(a: Json, b: Json, n: nat, path: string, skip: set<string>)
    requires a.Arr? && b.Arr? && |a.items| == |b.items| && n <= |a.items|
    ensures WalkItems(a, b, n, path, skip) == []
       <==> forall i :: 0 <= i < n ==> Walk(a.items[i], b.items[i], Element(path, i), skip) == []
  {
    hide Walk, Element;
    if n > 0 {
      WalkItemsEmpty(a, b, n - 1, path, skip);
    }
  }

  /** An object pair has no differences exactly when every unskipped key is on both sides without any. */
  lemma ObjectsClean(a: Json, b: Json, path: string, skip: set<string>)
    requires a.Obj? && b.Obj? && path !in skip
    ensures Walk(a, b, path, skip) == [] <==>
      forall k :: (k in a.members || k in b.members) && Member(path, k) !in skip ==>
        k in a.members && k in b.members && Walk(a.members[k], b.members[k], Member(path, k), skip) == []
  {
    hide SortedSet, WalkMembers, Member;
    var keys := SortedSet(a.members.Keys + b.members.Keys);
    assert Walk(a, b, path, skip) == WalkMembers(a, b, keys, path, skip);
    if WalkMembers(a, b, keys, path, skip) == [] {
      forall k | k in keys ensures WalkMember(a, b, k, path, skip) == [] {
        WalkMembersEmpty(a, b, keys, path, skip, k);
      }
    } else {
      WalkMembersDirty(a, b, keys, path, skip);
    }
    forall k ensures WalkMember(a, b, k, path, skip) == [] <==>
      (Member(path, k) in skip || (k !in a.members && k !in b.members)
        || (k in a.members && k in b.members && Walk(a.members[k], b.members[k], Member(path, k), skip) == []))
    {
      MemberClean(a, b, k, path, skip);
    }
  }

  lemma WalkMembersDirty(a: Json, b: Json, keys: seq<string>, path: string, skip: set<string>)
    requires a.Obj? && b.Obj? && WalkMembers(a, b, keys, path, skip) != []
    ensures exists k :: k in keys && WalkMember(a, b, k, path, skip) != []
  {
    if forall k :: k in keys ==> WalkMember(a, b, k, path, skip) == [] {
      WalkMembersClean(a, b, keys, path, skip);
    }
  }

  lemma MemberClean(a: Json, b: Json, k: string, path: string, skip: set<string>)
    requires a.Obj? && b.Obj?
    ensures WalkMember(a, b, k, path, skip) == [] <==>
      (Member(path, k) in skip || (k !in a.members && k !in b.members)
        || (k in a.members && k in b.members && Walk(a.members[k], b.members[k], Member(path, k), skip) == []))
  {
    if k in a.members && k in b.members && Member(path, k) in skip {
      assert Walk(a.members[k], b.members[k], Member(path, k), skip) == [];
    }
  }

  lemma ErasedObjects(a: Json, b: Json, path: string, skip: set<string>)
    requires a.Obj? && b.Obj?
    ensures Erase(a, path, skip) == Erase(b, path, skip) <==>
      forall k :: (k in a.members || k in b.members) && Member(path, k) !in skip ==>
        k in a.members && k in b.members
        && Erase(a.members[k], Member(path, k), skip) == Erase(b.members[k], Member(path, k), skip)
  {
    hide Member;
    var ea, eb := Erase(a, path, skip).members, Erase(b, path, skip).members;
    if ea == eb {
      forall k | (k in a.members || k in b.members) && Member(path, k) !in skip
        ensures k in a.members && k in b.members
             && Erase(a.members[k], Member(path, k), skip) == Erase(b.members[k], Member(path, k), skip)
      {
        assert k in ea && k in eb;
        assert ea[k] == eb[k];
      }
    }
  }

  /** Soundness on all documents: an empty diff means equality outside the skipped paths. */
  lemma {:induction false} EmptyDiffMeansEqual(a: Json, b: Json, path: string, skip: set<string>)
    requires path !in skip && Walk(a, b, path, skip) == []
    ensures Erase(a, path, skip) == Erase(b, path, skip)
    decreases a
  {
    if a.Obj? && b.Obj? {
      ObjectsClean(a, b, path, skip);
      forall k | k in a.members && k in b.members && Member(path, k) !in skip
        ensures Erase(a.members[k], Member(path, k), skip) == Erase(b.members[k], Member(path, k), skip)
      {
        EmptyDiffMeansEqual(a.members[k], b.members[k], Member(path, k), skip);
      }
      ErasedObjects(a, b, path, skip);
    } else if PyEqual(a, b) {
      EqualErasesEqual(a, b, path, skip);
    } else if a.Arr? && b.Arr? {
      EmptyListDiff(a, b, path, skip);
      forall i | 0 <= i < |a.items| && Element(path, i) !in skip
        ensures Erase(a.items[i], Element(path, i), skip) == Erase(b.items[i], Element(path, i), skip)
      {
        EmptyDiffMeansEqual(a.items[i], b.items[i], Element(path, i), skip);
      }
    }
  }

  lemma EmptyListDiff(a: Json, b: Json, path: string, skip: set<string>)
    requires path !in skip && a.Arr? && b.Arr? && !PyEqual(a, b) && Walk(a, b, path, skip) == []
    ensures |a.items| == |b.items| && !(AllStrings(a.items) && AllStrings(b.items))
    ensures forall i :: 0 <= i < |a.items| ==> Walk(a.items[i], b.items[i], Element(path, i), skip) == []
  {
    hide Element, PyEqual;
    if |a.items| == |b.items| && !(AllStrings(a.items) && AllStrings(b.items)) {
      WalkItemsEmpty(a, b, |a.items|, path, skip);
    }
  }

  /** Completeness when no list element is skipped: equality outside the skipped members means an empty diff. */
  lemma {:induction false} EqualMeansEmptyDiff(a: Json, b: Json, path: string, skip: set<string>)
    requires ElementsKept(a, path, skip) && Erase(a, path, skip) == Erase(b, path, skip)
    ensures Walk(a, b, path, skip) == []
    decreases a
  {
    if path in skip || (PyEqual(a, b) && !a.Obj?) {
    } else if a.Obj? {
      assert b.Obj?;
      ErasedObjects(a, b, path, skip);
      forall k | k in a.members && k in b.members && Member(path, k) !in skip
        ensures Walk(a.members[k], b.members[k], Member(path, k), skip) == []
      {
        EqualMeansEmptyDiff(a.members[k], b.members[k], Member(path, k), skip);
      }
      ObjectsClean(a, b, path, skip);
    } else if a.Arr? {
      ErasedLists(a, b, path, skip);
      forall i | 0 <= i < |a.items| ensures Walk(a.items[i], b.items[i], Element(path, i), skip) == [] {
        EqualMeansEmptyDiff(a.items[i], b.items[i], Element(path, i), skip);
      }
      WalkItemsEmpty(a, b, |a.items|, path, skip);
    }
  }

  lemma ErasedLists(a: Json, b: Json, path: string, skip: set<string>)
    requires a.Arr? && ElementsKept(a, path, skip) && Erase(a, path, skip) == Erase(b, path, skip) && !PyEqual(a, b)
    ensures b.Arr? && |a.items| == |b.items| && !(AllStrings(a.items) && AllStrings(b.items))
    ensures forall i :: 0 <= i < |a.items| ==>
      Erase(a.items[i], Element(path, i), skip) == Erase(b.items[i], Element(path, i), skip)
  {
    assert b.Arr? && |b.items| == |a.items|;
    var ea, eb := Erase(a, path, skip).items, Erase(b, path, skip).items;
    forall i | 0 <= i < |a.items|
      ensures Erase(a.items[i], Element(path, i), skip) == Erase(b.items[i], Element(path, i), skip)
    {
      assert ea[i] == eb[i];
    }
    if AllStrings(a.items) && AllStrings(b.items) {
      StringListsAgree(a, b, path, skip);
    }
  }

  lemma StringListsAgree(a: Json, b: Json, path: string, skip: set<string>)
    requires a.Arr? && b.Arr? && |a.items| == |b.items| && AllStrings(a.items) && AllStrings(b.items)
    requires forall i :: 0 <= i < |a.items| ==>
      Erase(a.items[i], Element(path, i), skip) == Erase(b.items[i], Element(path, i), skip)
    ensures PyEqual(a, b)
  {
    forall i | 0 <= i < |a.items| ensures Canonical(a.items[i]) == Canonical(b.items[i]) {
      assert Erase(a.items[i], Element(path, i), skip) == Erase(b.items[i], Element(path, i), skip);
    }
  }

  /** A skip set never names a list element without naming the list. */
  ghost predicate SkipsWholeLists(skip: set<string>) {
    forall p: string, i: nat :: Element(p, i) in skip ==> p in skip
  }

  lemma {:induction false} WholeListsKeepElements(j: Json, path: string, skip: set<string>)
    requires SkipsWholeLists(skip) && path !in skip
    ensures ElementsKept(j, path, skip)
  {
    match j
    case Arr(items) =>
      forall i | 0 <= i < |items| ensures Element(path, i) !in skip && ElementsKept(items[i], Element(path, i), skip) {
        WholeListsKeepElements(items[i], Element(path, i), skip);
      }
    case Obj(members) =>
      forall k | k in members && Member(path, k) !in skip ensures ElementsKept(members[k], Member(path, k), skip) {
        WholeListsKeepElements(members[k], Member(path, k), skip);
      }
    case _ =>
  }

  /**
   * The diff is empty exactly when the two records are equal, in Python's sense, after erasing
   * skipped and volatile members.
   */
  lemma DiffIsExact(was: Json, now: Json, skip: set<string>)
    requires "" !in skip && SkipsWholeLists(skip + VOLATILE)
    ensures Differences(was, now, skip) == [] <==> Erase(was, "", skip + VOLATILE) == Erase(now, "", skip + VOLATILE)
  {
    var all := skip + VOLATILE;
    if Differences(was, now, skip) == [] {
      EmptyDiffMeansEqual(was, now, "", all);
    }
    if Erase(was, "", all) == Erase(now, "", all) {
      WholeListsKeepElements(was, "", all);
      EqualMeansEmptyDiff(was, now, "", all);
    }
  }

  function Strings(n: nat, s: string): seq<Json> {
    seq(n, _ => Str(s))
  }

  /** A document whose only content is `j`, at path p. */
  function Placed(p: string, j: Json): Json {
    if p == "" then j else Obj(map[p := j])
  }

  /**
   * The condition of DiffIsExact is also necessary: for every skip set that names a list element but
   * not its list, two documents that differ at that element alone are reported as drift.
   */
  lemma ExactNeedsWholeLists(skip: set<string>, p: string, i: nat)
    requires "" !in skip && Element(p, i) in skip + VOLATILE && p !in skip + VOLATILE
    ensures var was, now := Placed(p, Arr(Strings(i + 1, "x"))), Placed(p, Arr(Strings(i, "x") + [Str("y")]));
      Erase(was, "", skip + VOLATILE) == Erase(now, "", skip + VOLATILE) && Differences(was, now, skip) != []
  {
    var all := skip + VOLATILE;
    var a, b := Arr(Strings(i + 1, "x")), Arr(Strings(i, "x") + [Str("y")]);
    assert Erase(a, p, all) == Erase(b, p, all);
    assert Canonical(a).items[i] != Canonical(b).items[i];
    assert Walk(a, b, p, all) != [];
    if p != "" {
      ErasedObjects(Placed(p, a), Placed(p, b), "", all);
      ObjectsClean(Placed(p, a), Placed(p, b), "", all);
      assert p in Placed(p, a).members;
    }
  }

  /** Skipping the empty path skips the whole record. */
  lemma SkippedRootHidesAll(was: Json, now: Json, skip: set<string>)
    requires "" in skip
    ensures Differences(was, now, skip) == []
  {
  }

  /** The diff of these two documents is empty exactly when they are equal after erasure. */
  ghost predicate IsExact(was: Json, now: Json, skip: set<string>) {
    Differences(was, now, skip) == [] <==> Erase(was, "", skip + VOLATILE) == Erase(now, "", skip + VOLATILE)
  }

  /**
   * The skip sets for which the diff is exact on all documents: those that neither name the whole
   * record nor a list element without its list.
   */
  lemma ExactOnAllDocuments(skip: set<string>)
    ensures (forall was, now :: IsExact(was, now, skip)) <==> "" !in skip && SkipsWholeLists(skip + VOLATILE)
  {
    hide Differences, Erase;
    if "" in skip {
      SkippedRootHidesAll(Str("x"), Str("y"), skip);
      DistinctStringsErase("x", "y", skip + VOLATILE);
      assert !IsExact(Str("x"), Str("y"), skip);
    } else if SkipsWholeLists(skip + VOLATILE) {
      forall was, now ensures IsExact(was, now, skip) {
        DiffIsExact(was, now, skip);
      }
    } else {
      var p: string, i: nat :| Element(p, i) in skip + VOLATILE && p !in skip + VOLATILE;
      ExactNeedsWholeLists(skip, p, i);
      assert !IsExact(Placed(p, Arr(Strings(i + 1, "x"))), Placed(p, Arr(Strings(i, "x") + [Str("y")])), skip);
    }
  }

  lemma DistinctStringsErase(x: string, y: string, skip: set<string>)
    requires x != y
    ensures Erase(Str(x), "", skip) != Erase(Str(y), "", skip)
  {
  }

  /** `True` rewritten as `1` is not drift. */
  lemma BooleanAndNumberAreTheSame(k: string)
    ensures Differences(Obj(map[k := Bool(true)]), Obj(map[k := Num(1.0)]), {}) == []
  {
    var a, b := Obj(map[k := Bool(true)]), Obj(map[k := Num(1.0)]);
    assert Erase(a, "", VOLATILE).members == Erase(b, "", VOLATILE).members;
    assert {} + VOLATILE == VOLATILE;
    EqualMeansEmptyDiff(a, b, "", VOLATILE);
  }

  // ---- what a drift says ----

  lemma {:induction false} MemberOfDiff(a: Json, b: Json, keys: seq<string>, path: string, skip: set<string>, d: Diff) returns (k: string)
    requires a.Obj? && b.Obj? && d in WalkMembers(a, b, keys, path, skip)
    ensures k in keys && d in WalkMember(a, b, k, path, skip)
  {
    hide WalkMember;
    var n := |keys| - 1;
    if d in WalkMember(a, b, keys[n], path, skip) {
      k := keys[n];
    } else {
      k := MemberOfDiff(a, b, keys[..n], path, skip, d);
    }
  }

  lemma {:induction false} ItemOfDiff(a: Json, b: Json, n: nat, path: string, skip: set<string>, d: Diff) returns (i: nat)
    requires a.Arr? && b.Arr? && |a.items| == |b.items| && n <= |a.items| && d in WalkItems(a, b, n, path, skip)
    ensures i < n && d in Walk(a.items[i], b.items[i], Element(path, i), skip)
  {
    hide Walk, Element;
    if d in Walk(a.items[n - 1], b.items[n - 1], Element(path, n - 1), skip) {
      i := n - 1;
    } else {
      i := ItemOfDiff(a, b, n - 1, path, skip, d);
    }
  }

  /** A drift of an object belongs to one of its members. */
  lemma ObjectDiff(a: Json, b: Json, path: string, skip: set<string>, d: Diff) returns (k: string)
    requires a.Obj? && b.Obj? && d in Walk(a, b, path, skip)
    ensures d in WalkMember(a, b, k, path, skip) && (k in a.members || k in b.members)
  {
    hide WalkMember, WalkMembers, SortedSet;
    k := MemberOfDiff(a, b, SortedSet(a.members.Keys + b.members.Keys), path, skip, d);
  }

  lemma {:induction false} MemberDiffsAreReported(a: Json, b: Json, keys: seq<string>, path: string, skip: set<string>,
                                                  k: string, d: Diff)
    requires a.Obj? && b.Obj? && k in keys && d in WalkMember(a, b, k, path, skip)
    ensures d in WalkMembers(a, b, keys, path, skip)
  {
    hide WalkMember;
    var n := |keys| - 1;
    if k != keys[n] {
      MemberDiffsAreReported(a, b, keys[..n], path, skip, k, d);
    }
  }

  lemma {:induction false} ItemDiffsAreReported(a: Json, b: Json, n: nat, path: string, skip: set<string>, i: nat, d: Diff)
    requires a.Arr? && b.Arr? && |a.items| == |b.items| && i < n <= |a.items|
    requires d in Walk(a.items[i], b.items[i], Element(path, i), skip)
    ensures d in WalkItems(a, b, n, path, skip)
  {
    hide Walk, Element;
    if i < n - 1 {
      ItemDiffsAreReported(a, b, n - 1, path, skip, i, d);
    }
  }

  /** The drift belongs to member k: to both sides' values, or to the side that alone has it. */
  ghost predicate IsMemberDrift(a: Json, b: Json, k: string, path: string, skip: set<string>, d: Diff)
    requires a.Obj? && b.Obj?
  {
    && Member(path, k) !in skip
    && (k in a.members && k in b.members ==> d in Walk(a.members[k], b.members[k], Member(path, k), skip))
    && (k in a.members && k !in b.members ==> d == Diff(Member(path, k), OnlyOld(a.members[k])))
    && (k !in a.members ==> k in b.members && d == Diff(Member(path, k), OnlyNew(b.members[k])))
  }

  /** The drifts of two objects are exactly those of their unskipped members. */
  lemma ObjectDrifts(a: Json, b: Json, path: string, skip: set<string>, d: Diff)
    requires a.Obj? && b.Obj? && path !in skip
    ensures d in Walk(a, b, path, skip) <==> exists k :: IsMemberDrift(a, b, k, path, skip, d)
  {
    hide WalkMembers, SortedSet, Member;
    var keys := SortedSet(a.members.Keys + b.members.Keys);
    if d in Walk(a, b, path, skip) {
      var k := ObjectDiff(a, b, path, skip, d);
      MemberDrift(a, b, k, path, skip, d);
    }
    if k :| IsMemberDrift(a, b, k, path, skip, d) {
      MemberDrift(a, b, k, path, skip, d);
      MemberDiffsAreReported(a, b, keys, path, skip, k, d);
    }
  }

  lemma MemberDrift(a: Json, b: Json, k: string, path: string, skip: set<string>, d: Diff)
    requires a.Obj? && b.Obj?
    ensures d in WalkMember(a, b, k, path, skip) <==> IsMemberDrift(a, b, k, path, skip, d)
  {
    if k in a.members && k in b.members && Member(path, k) in skip {
      assert Walk(a.members[k], b.members[k], Member(path, k), skip) == [];
    }
  }

  /** What a change to two lists of strings may say. */
  ghost predicate IsStringsChange(x: seq<Json>, y: seq<Json>, c: Change) {
    match c
    case StringsChanged(gone, come) =>
      && (gone != {} || come != {})
      && (forall s :: s in gone <==> Str(s) in x && Str(s) !in y)
      && (forall s :: s in come <==> Str(s) in y && Str(s) !in x)
    case OrderChanged => x != y && forall s :: Str(s) in x <==> Str(s) in y
    case _ => false
  }

  lemma StringListDrift(a: seq<Json>, b: seq<Json>, path: string)
    requires AllStrings(a) && AllStrings(b) && a != b
    ensures StringListDiff(a, b, path).path == path && IsStringsChange(a, b, StringListDiff(a, b, path).change)
  {
    StringsOf(a);
    StringsOf(b);
  }

  lemma StringsOf(items: seq<Json>)
    requires AllStrings(items)
    ensures forall s :: s in StringSet(items) <==> Str(s) in items
  {
    forall s ensures s in StringSet(items) <==> Str(s) in items {
      if s in StringSet(items) {
        var i :| 0 <= i < |items| && items[i].s == s;
        assert items[i] == Str(s);
      }
      if Str(s) in items {
        var i :| 0 <= i < |items| && items[i] == Str(s);
        assert items[i].s == s;
      }
    }
  }

  /** The drifts of two lists: none if equal; one about their strings; one about their lengths; or those of their elements. */
  lemma ListDrifts(a: Json, b: Json, path: string, skip: set<string>, d: Diff)
    requires a.Arr? && b.Arr? && path !in skip
    ensures PyEqual(a, b) ==> Walk(a, b, path, skip) == []
    ensures !PyEqual(a, b) && AllStrings(a.items) && AllStrings(b.items) ==>
      |Walk(a, b, path, skip)| == 1 && Walk(a, b, path, skip)[0].path == path
      && IsStringsChange(a.items, b.items, Walk(a, b, path, skip)[0].change)
    ensures !PyEqual(a, b) && !(AllStrings(a.items) && AllStrings(b.items)) && |a.items| != |b.items| ==>
      Walk(a, b, path, skip) == [Diff(path, Lengths(|a.items|, |b.items|))]
    ensures !PyEqual(a, b) && !(AllStrings(a.items) && AllStrings(b.items)) && |a.items| == |b.items| ==>
      (d in Walk(a, b, path, skip) <==>
        exists i :: 0 <= i < |a.items| && d in Walk(a.items[i], b.items[i], Element(path, i), skip))
  {
    hide Element, StringListDiff;
    if !PyEqual(a, b) {
      if AllStrings(a.items) && AllStrings(b.items) {
        assert a.items == b.items ==> a == b;
        StringListDrift(a.items, b.items, path);
      } else if |a.items| == |b.items| {
        if d in Walk(a, b, path, skip) {
          var i := ItemOfDiff(a, b, |a.items|, path, skip, d);
        }
        if i :| 0 <= i < |a.items| && d in Walk(a.items[i], b.items[i], Element(path, i), skip) {
          ItemDiffsAreReported(a, b, |a.items|, path, skip, i, d);
        }
      }
    }
  }

  /** Values that are not both objects or both lists drift exactly when they differ, with the old value first. */
  lemma ValueDrifts(a: Json, b: Json, path: string, skip: set<string>)
    requires path !in skip && !(a.Obj? && b.Obj?) && !(a.Arr? && b.Arr?)
    ensures Walk(a, b, path, skip) == if PyEqual(a, b) then [] else [Diff(path, Replaced(a, b))]
  {
  }

  datatype Step = Key(k: string) | Index(i: nat)

  /** The value at the end of a chain of steps, if there is one. */
  function Follow(j: Option<Json>, steps: seq<Step>): Option<Json>
    decreases |steps|
  {
    if steps == [] then j
    else match (j, steps[0])
      case (Some(Obj(members)), Key(k)) => Follow(if k in members then Some(members[k]) else None, steps[1..])
      case (Some(Arr(items)), Index(i)) => Follow(if i < |items| then Some(items[i]) else None, steps[1..])
      case _ => None
  }

  function NameOf(path: string, steps: seq<Step>): string
    decreases |steps|
  {
    if steps == [] then path
    else match steps[0]
      case Key(k) => NameOf(Member(path, k), steps[1..])
      case Index(i) => NameOf(Element(path, i), steps[1..])
  }

  /** The change is what happened to the value between the two documents. */
  ghost predicate Describes(c: Change, was: Option<Json>, now: Option<Json>) {
    match c
    case OnlyNew(added) => was == None && now == Some(added)
    case OnlyOld(removed) => was == Some(removed) && now == None
    case Replaced(x, y) => was == Some(x) && now == Some(y) && !PyEqual(x, y)
    case Lengths(m, n) =>
      && was.Some? && now.Some? && was.value.Arr? && now.value.Arr?
      && m == |was.value.items| && n == |now.value.items| && m != n
    case _ =>
      && was.Some? && now.Some? && was.value.Arr? && now.value.Arr?
      && IsStringsChange(was.value.items, now.value.items, c)
  }

  ghost predicate IsTrueAt(a: Json, b: Json, path: string, d: Diff, steps: seq<Step>) {
    d.path == NameOf(path, steps) && Describes(d.change, Follow(Some(a), steps), Follow(Some(b), steps))
  }

  lemma FirstStep(j: Json, path: string, first: Step, steps: seq<Step>)
    ensures NameOf(path, [first]) == if first.Key? then Member(path, first.k) else Element(path, first.i)
    ensures NameOf(path, [first] + steps) == NameOf(NameOf(path, [first]), steps)
    ensures first.Key? && j.Obj? ==>
      Follow(Some(j), [first]) == if first.k in j.members then Some(j.members[first.k]) else None
    ensures first.Index? && j.Arr? ==>
      Follow(Some(j), [first]) == if first.i < |j.items| then Some(j.items[first.i]) else None
    ensures Follow(Some(j), [first]).Some? ==> Follow(Some(j), [first] + steps) == Follow(Follow(Some(j), [first]), steps)
  {
    hide Member, Element;
    var all := [first] + steps;
    assert all[0] == first && all[1..] == steps && [first][1..] == [];
    assert forall p :: NameOf(p, []) == p;
    assert forall x :: Follow(x, []) == x;
  }

  lemma StepDown(a: Json, b: Json, x: Json, y: Json, path: string, first: Step, d: Diff, steps: seq<Step>)
    requires Follow(Some(a), [first]) == Some(x) && Follow(Some(b), [first]) == Some(y)
    requires IsTrueAt(x, y, NameOf(path, [first]), d, steps)
    ensures IsTrueAt(a, b, path, d, [first] + steps)
  {
    hide Follow, NameOf, Describes;
    FirstStep(a, path, first, steps);
    FirstStep(b, path, first, steps);
  }

  /**
   * Every reported drift is true: following some steps from the top, whose name is the reported path,
   * the old and the new document hold exactly what the change says.
   */
  lemma {:induction false} EveryDriftIsTrue(a: Json, b: Json, path: string, skip: set<string>, d: Diff) returns (steps: seq<Step>)
    requires d in Walk(a, b, path, skip)
    ensures IsTrueAt(a, b, path, d, steps)
    decreases a
  {
    hide Walk, Describes, Member, Element, PyEqual, NameOf, Follow;
    SkippedPathIsClean(a, b, path, skip);
    NoStep(a, b, path);
    if a.Obj? && b.Obj? {
      ObjectDrifts(a, b, path, skip, d);
      var k :| IsMemberDrift(a, b, k, path, skip, d);
      FirstStep(a, path, Key(k), []);
      FirstStep(b, path, Key(k), []);
      if k in a.members && k in b.members {
        var rest := EveryDriftIsTrue(a.members[k], b.members[k], Member(path, k), skip, d);
        steps := [Key(k)] + rest;
        StepDown(a, b, a.members[k], b.members[k], path, Key(k), d, rest);
      } else {
        steps := [Key(k)];
        OneSided(d.change, Follow(Some(a), steps), Follow(Some(b), steps));
      }
    } else if a.Arr? && b.Arr? {
      ListDrifts(a, b, path, skip, d);
      if !(AllStrings(a.items) && AllStrings(b.items)) && |a.items| == |b.items| {
        var i :| 0 <= i < |a.items| && d in Walk(a.items[i], b.items[i], Element(path, i), skip);
        var rest := EveryDriftIsTrue(a.items[i], b.items[i], Element(path, i), skip, d);
        steps := [Index(i)] + rest;
        FirstStep(a, path, Index(i), []);
        FirstStep(b, path, Index(i), []);
        StepDown(a, b, a.items[i], b.items[i], path, Index(i), d, rest);
      } else {
        steps := [];
        ListChange(a, b, d.change);
      }
    } else {
      ValueDrifts(a, b, path, skip);
      steps := [];
      OneSided(d.change, Some(a), Some(b));
    }
  }

  lemma NoStep(a: Json, b: Json, path: string)
    ensures NameOf(path, []) == path && Follow(Some(a), []) == Some(a) && Follow(Some(b), []) == Some(b)
  {
  }

  lemma OneSided(c: Change, was: Option<Json>, now: Option<Json>)
    ensures was.None? && now.Some? && c == OnlyNew(now.value) ==> Describes(c, was, now)
    ensures was.Some? && now.None? && c == OnlyOld(was.value) ==> Describes(c, was, now)
    ensures was.Some? && now.Some? && c == Replaced(was.value, now.value) && !PyEqual(was.value, now.value) ==> Describes(c, was, now)
  {
  }

  lemma ListChange(a: Json, b: Json, c: Change)
    requires a.Arr? && b.Arr?
    ensures IsStringsChange(a.items, b.items, c) ==> Describes(c, Some(a), Some(b))
    ensures c == Lengths(|a.items|, |b.items|) && |a.items| != |b.items| ==> Describes(c, Some(a), Some(b))
  {
  }

  lemma SkippedPathIsClean(x: Json, y: Json, path: string, skip: set<string>)
    ensures path in skip ==> Walk(x, y, path, skip) == []
  {
  }

  /** `False` rewritten as `0` is not drift either; as any other number it is. */
  lemma BooleansAreZeroAndOne(b: bool, x: real)
    ensures PyEqual(Bool(b), Num(x)) <==> x == if b then 1.0 else 0.0
  {
  }
}
