/**
 * Inserting the daily's package roots into `sys.path` at the PYTHONPATH position: before the first
 * entry that belongs to the interpreter, after everything the caller exported.
 */
module ImportPath {
  import opened Prelude

  /** A repository's two candidate directories, `src` first. */
  datatype Repo = Repo(src: string, base: string)

  /** What the file system and the interpreter say about a path. */
  datatype Host = Host(isDir: string -> bool, interpreterOwned: string -> bool)

  /** The first existing candidate; a repository with neither adds nothing. */
  function Candidate(h: Host, r: Repo): Option<string> {
    if h.isDir(r.src) then Some(r.src) else if h.isDir(r.base) then Some(r.base) else None
  }

  /** The position of the first interpreter entry, or the end. */
  function InsertionIndex(h: Host, path: seq<string>): (i: nat)
    ensures i <= |path|
    ensures forall k :: 0 <= k < i ==> !h.interpreterOwned(path[k])
    ensures i < |path| ==> h.interpreterOwned(path[i])
  {
    if path == [] || h.interpreterOwned(path[0]) then 0 else 1 + InsertionIndex(h, path[1..])
  }

  /** The roots that are new to the path, in repository order. */
  function Additions(h: Host, path: seq<string>, repos: seq<Repo>): seq<string> {
    if repos == [] then []
    else
      var n := |repos| - 1;
      var r := Additions(h, path, repos[..n]);
      match Candidate(h, repos[n])
      case None => r
      case Some(p) => if p in path || p in r then r else r + [p]
  }

  /** A repository's root: `src` if that is a directory, otherwise the checkout if that is one. */
  predicate IsRoot(h: Host, r: Repo, p: string) {
    h.isDir(p) && (p == r.src || (p == r.base && !h.isDir(r.src)))
  }

  /**
   * Exactly the roots that the path does not have are added, in the order of the first repository
   * that has each of them: what k repositories add starts what more of them add.
   */
  lemma {:induction false} AdditionsAreRoots(h: Host, path: seq<string>, repos: seq<Repo>, k: nat)
    requires k <= |repos|
    ensures forall p :: p in Additions(h, path, repos) <==>
        p !in path && exists i :: 0 <= i < |repos| && IsRoot(h, repos[i], p)
    ensures Additions(h, path, repos[..k]) <= Additions(h, path, repos)
  {
    hide Candidate, IsRoot;
    if repos != [] {
      var n := |repos| - 1;
      CandidateIsRoot(h, repos[n]);
      AdditionsAreRoots(h, path, repos[..n], if k <= n then k else n);
      assert repos[..|repos|] == repos && (k <= n ==> repos[..n][..k] == repos[..k]);
      assert forall i :: 0 <= i < n ==> repos[i] == repos[..n][i];
    }
  }

  lemma CandidateIsRoot(h: Host, r: Repo)
    ensures forall p :: IsRoot(h, r, p) <==> Candidate(h, r) == Some(p)
  {
  }

  /** A checkout whose `src` exists is not itself added, unless it is another repository's root. */
  lemma CheckoutYieldsToSrc(h: Host, path: seq<string>, repos: seq<Repo>, i: nat)
    requires i < |repos| && h.isDir(repos[i].src) && repos[i].base !in path && repos[i].base != repos[i].src
    ensures repos[i].base in Inserted(h, path, repos) <==>
      exists j :: 0 <= j < |repos| && j != i && IsRoot(h, repos[j], repos[i].base)
  {
    hide Additions, InsertionIndex;
    var at := InsertionIndex(h, path);
    AdditionsAreRoots(h, path, repos, 0);
    InPath(path[..at], Additions(h, path, repos), path[at..], repos[i].base);
    assert path == path[..at] + path[at..];
  }

  lemma {:induction false} AdditionsAreNew(h: Host, path: seq<string>, repos: seq<Repo>)
    ensures var r := Additions(h, path, repos);
      && (forall p :: p in r ==> p !in path)
      && (forall i, j :: 0 <= i < j < |r| ==> r[i] != r[j])
      && (forall i :: 0 <= i < |repos| && Candidate(h, repos[i]).Some? ==>
            Candidate(h, repos[i]).value in path || Candidate(h, repos[i]).value in r)
  {
    hide Candidate;
    if repos != [] {
      var n := |repos| - 1;
      AdditionsAreNew(h, path, repos[..n]);
      assert forall i :: 0 <= i < n ==> repos[i] == repos[..n][i];
    }
  }

  /** Caller prefix, then the new roots, then the old suffix. */
  function Inserted(h: Host, path: seq<string>, repos: seq<Repo>): seq<string> {
    var at := InsertionIndex(h, path);
    path[..at] + Additions(h, path, repos) + path[at..]
  }

  /** The process-wide state: the module search path and the once-only flag. */
  class Resolution {
    var path: seq<string>
    var established: bool

    constructor (path: seq<string>)
      ensures this.path == path && !established
    {
      this.path := path;
      established := false;
    }

    /** Insert once; a second call returns at once. */
    method Ensure(h: Host, repos: seq<Repo>)
      modifies this
      ensures established
      ensures path == if old(established) then old(path) else Inserted(h, old(path), repos)
    {
      if established {
        return;
      }
      var at := FindInsertionIndex(h);
      InsertRoots(h, repos, at);
      established := true;
    }

    /** Insert each new root at the moving index. */
    method InsertRoots(h: Host, repos: seq<Repo>, start: nat)
      requires start <= |path|
      modifies `path
      ensures path == old(path[..start]) + Additions(h, old(path), repos) + old(path[start..])
    {
      hide Candidate;
      var at := start;
      ghost var before, front, back := path, path[..at], path[at..];
      ghost var added: seq<string> := [];
      assert before == front + back == front + added + back;
      for i := 0 to |repos|
        invariant added == Additions(h, before, repos[..i])
        invariant at == |front| + |added|
        invariant path == front + added + back
      {
        AdditionStep(h, before, repos, i);
        var candidate := FirstExisting(h, repos[i]);
        if candidate.Some? {
          var p := candidate.value;
          InPath(front, added, back, p);
          if p !in path {
            InsertHere(front, added, back, p);
            path := path[..at] + [p] + path[at..];
            at, added := at + 1, added + [p];
          }
        }
      }
      assert repos[..|repos|] == repos;
    }

    /** Try `src`, then the checkout itself. */
    method FirstExisting(h: Host, r: Repo) returns (c: Option<string>)
      ensures c == Candidate(h, r)
    {
      if h.isDir(r.src) {
        return Some(r.src);
      }
      if h.isDir(r.base) {
        return Some(r.base);
      }
      return None;
    }

    method FindInsertionIndex(h: Host) returns (at: nat)
      ensures at == InsertionIndex(h, path)
    {
      at := 0;
      while at < |path|
        invariant at <= |path| && at + InsertionIndex(h, path[at..]) == InsertionIndex(h, path)
      {
        if h.interpreterOwned(path[at]) {
          return;
        }
        assert path[at..][1..] == path[at + 1..];
        at := at + 1;
      }
    }
  }

  lemma AdditionStep(h: Host, path: seq<string>, repos: seq<Repo>, i: nat)
    requires i < |repos|
    ensures var added := Additions(h, path, repos[..i]);
      Additions(h, path, repos[..i + 1]) ==
        match Candidate(h, repos[i])
        case None => added
        case Some(p) => if p in path || p in added then added else added + [p]
  {
    hide Candidate;
    assert repos[..i + 1][..i] == repos[..i];
  }

  lemma InPath(front: seq<string>, added: seq<string>, back: seq<string>, p: string)
    ensures p in front + added + back <==> p in front + back || p in added
  {
  }

  lemma InsertHere(front: seq<string>, added: seq<string>, back: seq<string>, p: string)
    ensures var path, k := front + added + back, |front| + |added|;
      path[..k] + [p] + path[k..] == front + (added + [p]) + back
  {
    var path, k := front + added + back, |front| + |added|;
    assert path[..k] == front + added && path[k..] == back;
    assert (front + added) + [p] == front + (added + [p]);
  }

  // ---- what the new path guarantees ----

  /** No old entry is lost or reordered, nothing new repeats, and every chosen root is present. */
  lemma InsertionKeepsEntries(h: Host, path: seq<string>, repos: seq<Repo>)
    ensures var at, added, after := InsertionIndex(h, path), Additions(h, path, repos), Inserted(h, path, repos);
      && |after| == |path| + |added|
      && (forall k :: 0 <= k < at ==> after[k] == path[k])
      && (forall k :: at <= k < |path| ==> after[k + |added|] == path[k])
      && (forall k :: at <= k < at + |added| ==> after[k] !in path)
      && (forall i, j :: 0 <= i < j < |added| ==> added[i] != added[j])
      && (forall i :: 0 <= i < |repos| && Candidate(h, repos[i]).Some? ==> Candidate(h, repos[i]).value in after)
  {
    hide Additions, InsertionIndex, Candidate;
    var at, added, after := InsertionIndex(h, path), Additions(h, path, repos), Inserted(h, path, repos);
    SplicedEntries(path, added, at);
    AdditionsAreNew(h, path, repos);
    forall k | at <= k < at + |added| ensures after[k] !in path {
      assert after[k] == added[k - at];
    }
    forall i | 0 <= i < |repos| && Candidate(h, repos[i]).Some? ensures Candidate(h, repos[i]).value in after {
      InPath(path[..at], added, path[at..], Candidate(h, repos[i]).value);
      assert path == path[..at] + path[at..];
    }
  }

  lemma SplicedEntries(path: seq<string>, added: seq<string>, at: nat)
    requires at <= |path|
    ensures var after := path[..at] + added + path[at..];
      && |after| == |path| + |added|
      && (forall k :: 0 <= k < at ==> after[k] == path[k])
      && (forall k :: at <= k < at + |added| ==> after[k] == added[k - at])
      && (forall k :: at <= k < |path| ==> after[k + |added|] == path[k])
  {
  }

  /** The repository has a candidate, and it is among these entries. */
  predicate HasRootIn(h: Host, r: Repo, entries: seq<string>) {
    Candidate(h, r).Some? && Candidate(h, r).value in entries
  }

  /**
   * "The interpreter's own entries do not keep precedence" holds of every root if and only if none of
   * them was on the path only from the first interpreter entry on: such a root is not moved forward.
   */
  lemma RootsPrecedeExactlyWhenNotBehind(h: Host, path: seq<string>, repos: seq<Repo>)
    ensures var at, n, after := InsertionIndex(h, path), |Additions(h, path, repos)|, Inserted(h, path, repos);
      && at + n <= |after| && after[at + n..] == path[at..]
      && ((forall i :: 0 <= i < |repos| && Candidate(h, repos[i]).Some? ==> HasRootIn(h, repos[i], after[..at + n]))
          <==> forall i :: 0 <= i < |repos| && HasRootIn(h, repos[i], path[at..]) ==> HasRootIn(h, repos[i], path[..at]))
  {
    hide Candidate, InsertionIndex, Additions;
    var at, added, after := InsertionIndex(h, path), Additions(h, path, repos), Inserted(h, path, repos);
    AdditionsAreNew(h, path, repos);
    assert after[..at + |added|] == path[..at] + added && after[at + |added|..] == path[at..];
    assert path == path[..at] + path[at..];
    forall i | 0 <= i < |repos| && Candidate(h, repos[i]).Some?
      ensures HasRootIn(h, repos[i], after[..at + |added|])
        <==> (HasRootIn(h, repos[i], path[at..]) ==> HasRootIn(h, repos[i], path[..at]))
    {
      var p := Candidate(h, repos[i]).value;
      assert p in after[..at + |added|] <==> p in path[..at] || p in added;
      assert p in path <==> p in path[..at] || p in path[at..];
    }
  }

  /** The first entry that has the module, as the import system searches. */
  function FirstMatch(path: seq<string>, has: string -> bool): Option<nat> {
    if path == [] then None
    else if has(path[0]) then Some(0)
    else match FirstMatch(path[1..], has)
      case None => None
      case Some(i) => Some(i + 1)
  }

  lemma {:induction false} FirstMatchIsFirst(path: seq<string>, has: string -> bool)
    ensures var r := FirstMatch(path, has);
      && (r.Some? ==> r.value < |path| && has(path[r.value]))
      && (forall k :: 0 <= k < (if r.Some? then r.value else |path|) ==> !has(path[k]))
  {
    if path != [] && !has(path[0]) {
      FirstMatchIsFirst(path[1..], has);
      var r := FirstMatch(path, has);
      forall k | 0 <= k < (if r.Some? then r.value else |path|) ensures !has(path[k]) {
        assert k > 0 ==> path[k] == path[1..][k - 1];
      }
    }
  }

  /** The answer for two lists one after the other, the first of length n. */
  function Join(first: Option<nat>, n: nat, second: Option<nat>): Option<nat> {
    if first.Some? then first else if second.Some? then Some(n + second.value) else None
  }

  lemma {:induction false} FirstMatchOfJoin(a: seq<string>, b: seq<string>, has: string -> bool)
    ensures FirstMatch(a + b, has) == Join(FirstMatch(a, has), |a|, FirstMatch(b, has))
    ensures FirstMatch(a, has).Some? ==> FirstMatch(a, has).value < |a|
  {
    if a == [] {
      assert a + b == b;
    } else {
      FirstMatchOfJoin(a[1..], b, has);
      assert (a + b)[1..] == a[1..] + b;
    }
  }

  /**
   * Precedence: a module that a caller entry has still comes from that entry; otherwise one that
   * a newly added root has comes from the first such root, never from the interpreter's entries;
   * otherwise the old answer stands.
   */
  lemma Precedence(h: Host, path: seq<string>, repos: seq<Repo>, has: string -> bool)
    ensures var at, added := InsertionIndex(h, path), Additions(h, path, repos);
      var was, now := FirstMatch(path, has), FirstMatch(Inserted(h, path, repos), has);
      if was.Some? && was.value < at then now == was
      else if FirstMatch(added, has).Some? then now == Some(at + FirstMatch(added, has).value)
      else if was.Some? then now == Some(was.value + |added|)
      else now.None?
  {
    hide FirstMatch, Additions, InsertionIndex;
    var at := InsertionIndex(h, path);
    assert path == path[..at] + path[at..];
    SplicedMatch(path[..at], Additions(h, path, repos), path[at..], has);
  }

  lemma SplicedMatch(front: seq<string>, added: seq<string>, back: seq<string>, has: string -> bool)
    ensures var was, mine, now := FirstMatch(front + back, has), FirstMatch(added, has), FirstMatch(front + added + back, has);
      if was.Some? && was.value < |front| then now == was
      else if mine.Some? then now == Some(|front| + mine.value)
      else if was.Some? then now == Some(was.value + |added|)
      else now.None?
  {
    hide FirstMatch;
    FirstMatchOfJoin(front, back, has);
    FirstMatchOfJoin(front, added, has);
    FirstMatchOfJoin(front + added, back, has);
  }

  /** Even without the once-only flag, inserting again would add nothing. */
  lemma {:induction false} NothingLeftToAdd(h: Host, path: seq<string>, repos: seq<Repo>)
    requires forall i :: 0 <= i < |repos| && Candidate(h, repos[i]).Some? ==> Candidate(h, repos[i]).value in path
    ensures Additions(h, path, repos) == []
  {
    hide Candidate;
    if repos != [] {
      NothingLeftToAdd(h, path, repos[..|repos| - 1]);
    }
  }

  lemma InsertionIsIdempotent(h: Host, path: seq<string>, repos: seq<Repo>)
    ensures Inserted(h, Inserted(h, path, repos), repos) == Inserted(h, path, repos)
  {
    hide Candidate, InsertionIndex, Additions;
    InsertionKeepsEntries(h, path, repos);
    NothingLeftToAdd(h, Inserted(h, path, repos), repos);
  }
}
