/** Building a freeze record from the recorded inputs, and verifying one by rebuilding it. */
module FreezeVerify {
  import opened FreezeRecord
  import opened JsonDiff
  import opened Prelude
  import opened Text

  /** What the generator reads from one database file. */
  datatype Database = Database(sha: string, size: nat, mtime: string, sessions: nat -> seq<string>)

  /** An artifact file that is present. */
  datatype Stat = Stat(mtime: string, size: nat, sha: string)

  /** The fixed texts and versions the generator writes into every record. */
  datatype Prose = Prose(recordVersion: Json, protocol: Json, script: Json, version: Json, sessionRule: Json,
                         splitRule: int -> Json, ruleVersion: Json)

  /** The generator's prose and the files at hand: databases by path, artifacts by root and relative path. */
  datatype World = World(prose: Prose, dbs: map<string, Database>, artifact: (string, string) -> Option<Stat>,
                         absPath: (string, string) -> string)

  datatype Args = Args(db: string, window: (string, string), exclude: seq<string>, embargo: int,
                       horizons: seq<nat>, root: string, artifacts: seq<string>)

  const SUPPORTED: set<nat> := {1, 5, 10, 20, 60}
  const MIN_ROWS_PER_SESSION: nat := 2

  function Texts(s: seq<string>): Json {
    Arr(seq(|s|, i requires 0 <= i < |s| => Str(s[i])))
  }

  function Number(n: int): Json {
    Num(n as real)
  }

  function Numbers(s: seq<nat>): Json {
    Arr(seq(|s|, i requires 0 <= i < |s| => Number(s[i])))
  }

  // ---- build ----

  predicate IsExcluded(a: Args, d: string) {
    (Le(a.window.0, d) && Le(d, a.window.1)) || d in a.exclude
  }

  function KeptDates(a: Args, ids: seq<string>): seq<string> {
    Among(ids, set d | d in ids && !IsExcluded(a, d))
  }

  function ExcludedDates(a: Args, ids: seq<string>): seq<string> {
    Among(ids, set d | d in ids && IsExcluded(a, d))
  }

  ghost function UnionDates(db: Database, a: Args): (r: seq<string>)
    ensures Ascending(r)
  {
    SortedSet(set h, d | h in a.horizons && d in KeptDates(a, db.sessions(h)) :: d)
  }

  function HorizonKey(h: nat): string {
    "fwd_" + Decimal(h) + "d"
  }

  function Counted(ids: seq<string>): Json {
    Obj(map["n" := Number(|ids|), "ids" := Texts(ids)])
  }

  function HorizonEntry(a: Args, ids: seq<string>, s: Split): Json {
    var kept := KeptDates(a, ids);
    Obj(map[
      "n_available" := Number(|ids|),
      "n_excluded" := Number(|ExcludedDates(a, ids)|),
      "n_kept" := Number(|kept|),
      "first" := if kept == [] then Null else Str(kept[0]),
      "last" := if kept == [] then Null else Str(kept[|kept| - 1]),
      "tuning" := Counted(Among(kept, Dates(s.tuning))),
      "embargo" := Counted(Among(kept, Dates(s.embargo))),
      "evaluation" := Counted(Among(kept, Dates(s.evaluation)))])
  }

  /** One member per horizon, filled in the order of the arguments. */
  function HorizonEntries(db: Database, a: Args, s: Split, horizons: seq<nat>): map<string, Json> {
    if horizons == [] then map[]
    else
      var n := |horizons| - 1;
      HorizonEntries(db, a, s, horizons[..n])[HorizonKey(horizons[n]) := HorizonEntry(a, db.sessions(horizons[n]), s)]
  }

  /** The loop that fills the per-horizon section. */
  method FillHorizons(db: Database, a: Args, s: Split) returns (out: map<string, Json>)
    ensures out == HorizonEntries(db, a, s, a.horizons)
  {
    hide HorizonEntry, HorizonKey;
    out := map[];
    for i := 0 to |a.horizons|
      invariant out == HorizonEntries(db, a, s, a.horizons[..i])
    {
      var h := a.horizons[i];
      assert a.horizons[..i + 1][..i] == a.horizons[..i];
      out := out[HorizonKey(h) := HorizonEntry(a, db.sessions(h), s)];
    }
    assert a.horizons[..|a.horizons|] == a.horizons;
  }

  function ExcludedEntries(db: Database, a: Args, horizons: seq<nat>): map<string, Json> {
    if horizons == [] then map[]
    else
      var n := |horizons| - 1;
      ExcludedEntries(db, a, horizons[..n])[HorizonKey(horizons[n]) := Texts(ExcludedDates(a, db.sessions(horizons[n])))]
  }

  ghost function ExclusionJson(db: Database, a: Args): Json {
    Obj(map[
      "window" := Texts([a.window.0, a.window.1]),
      "window_endpoints_inclusive" := Bool(true),
      "manual_exclude_sessions" := Texts(SortedSet(Dates(a.exclude))),
      "excluded_session_ids" := Obj(ExcludedEntries(db, a, a.horizons))])
  }

  /** The last kept session of each horizon. */
  function CutoffEntries(db: Database, a: Args, horizons: seq<nat>): map<string, Json> {
    if horizons == [] then map[]
    else
      var n := |horizons| - 1;
      var kept := KeptDates(a, db.sessions(horizons[n]));
      CutoffEntries(db, a, horizons[..n])[HorizonKey(horizons[n]) + "_max_session" :=
        if kept == [] then Null else Str(kept[|kept| - 1])]
  }

  ghost function ArgsJson(a: Args): Json {
    Obj(map[
      "db" := Str(a.db),
      "exclude_window" := Texts([a.window.0, a.window.1]),
      "exclude_sessions" := Texts(SortedSet(Dates(a.exclude))),
      "embargo_trading_days" := Number(a.embargo),
      "horizons" := Numbers(a.horizons),
      "artifacts_root" := Str(a.root),
      "artifacts" := Texts(a.artifacts),
      "min_rows_per_session" := Number(MIN_ROWS_PER_SESSION)])
  }

  function SourceJson(path: string, db: Database): Json {
    Obj(map["path" := Str(path), "sha256" := Str(db.sha), "size_bytes" := Number(db.size), "mtime" := Str(db.mtime)])
  }

  ghost function SplitJson(w: World, a: Args, union: seq<string>, s: Split): Json {
    Obj(map[
      "rule_version" := w.prose.ruleVersion,
      "embargo_trading_days" := Number(a.embargo),
      "union_n" := Number(|union|),
      "tuning_n" := Number(|s.tuning|),
      "embargo_n" := Number(|s.embargo|),
      "evaluation_n" := Number(|s.evaluation|),
      "embargo_session_ids" := Texts(s.embargo)])
  }

  /** Absence is recorded, not fatal. */
  function ArtifactJson(w: World, root: string, rel: string): Json {
    var common := map["rel_path" := Str(rel), "abs_path" := Str(w.absPath(root, rel))];
    match w.artifact(root, rel)
    case None => Obj(common["present" := Bool(false)])
    case Some(f) =>
      Obj(common["present" := Bool(true)]["mtime" := Str(f.mtime)]["size_bytes" := Number(f.size)]["sha256" := Str(f.sha)])
  }

  function ArtifactItems(w: World, a: Args): seq<Json> {
    seq(|a.artifacts|, i requires 0 <= i < |a.artifacts| => ArtifactJson(w, a.root, a.artifacts[i]))
  }

  function ArtifactsJson(w: World, a: Args): Json {
    Obj(map["root" := Str(a.root), "items" := Arr(ArtifactItems(w, a))])
  }

  /** The sections of a record besides its timestamp. */
  datatype Parts = Parts(prose: Prose, args: Json, splitRule: Json, source: Json, exclusion: Json, split: Json, cutoff: Json,
                         horizons: Json, artifacts: Json)

  function GeneratorJson(prose: Prose, args: Json): Json {
    Obj(map["script" := prose.script, "version" := prose.version, "args" := args])
  }

  function Assemble(now: string, p: Parts): Json {
    Obj(map[
      "freeze_record_version" := p.prose.recordVersion,
      "generated_at_utc" := Str(now),
      "protocol" := p.prose.protocol,
      "generator" := GeneratorJson(p.prose, p.args),
      "session_rule" := p.prose.sessionRule,
      "split_rule" := p.splitRule,
      "source_db" := p.source,
      "exclusion" := p.exclusion,
      "split" := p.split,
      "data_cutoff" := p.cutoff,
      "horizons" := p.horizons,
      "artifacts" := p.artifacts])
  }

  ghost function BuildParts(w: World, a: Args): Result<Parts, Failure> {
    if a.db !in w.dbs then Err(DbMissing)
    else if exists h :: h in a.horizons && h !in SUPPORTED then Err(UnsupportedHorizon)
    else
      var db := w.dbs[a.db];
      var union := UnionDates(db, a);
      match AssignSplit(union, a.embargo)
      case Err(e) => Err(e)
      case Ok(s) => Ok(Parts(w.prose, ArgsJson(a), w.prose.splitRule(a.embargo), SourceJson(a.db, db), ExclusionJson(db, a),
                             SplitJson(w, a, union, s), Obj(CutoffEntries(db, a, a.horizons)),
                             Obj(HorizonEntries(db, a, s, a.horizons)), ArtifactsJson(w, a)))
  }

  ghost function Build(w: World, a: Args, now: string): Result<Json, Failure> {
    match BuildParts(w, a)
    case Err(e) => Err(e)
    case Ok(p) => Ok(Assemble(now, p))
  }

  // ---- verify ----

  function Lookup(j: Json, k: string): Option<Json> {
    if j.Obj? && k in j.members then Some(j.members[k]) else None
  }

  function TextList(j: Json): Option<seq<string>> {
    if j.Arr? && AllStrings(j.items) then Some(seq(|j.items|, i requires 0 <= i < |j.items| => j.items[i].s)) else None
  }

  function NumberList(j: Json): Option<seq<nat>> {
    if j.Arr? && (forall i :: 0 <= i < |j.items| ==> j.items[i].Num? && j.items[i].n.Floor >= 0)
    then Some(seq(|j.items|, i requires 0 <= i < |j.items| => j.items[i].n.Floor)) else None
  }

  /** The generator arguments stored in a record; `exclude_sessions` alone may be absent. */
  function ArgsFromRecord(record: Json): Result<Args, Failure> {
    match Lookup(Lookup(record, "generator").GetOr(Null), "args")
    case None => Err(MissingArgs)
    case Some(args) =>
      match (Lookup(args, "db"), Lookup(args, "artifacts_root"), Lookup(args, "embargo_trading_days"))
      case (Some(Str(db)), Some(Str(root)), Some(Num(embargo))) =>
        var window := TextList(Lookup(args, "exclude_window").GetOr(Null));
        var horizons := NumberList(Lookup(args, "horizons").GetOr(Null));
        var artifacts := TextList(Lookup(args, "artifacts").GetOr(Null));
        var exclude := TextList(Lookup(args, "exclude_sessions").GetOr(Arr([])));
        if window.Some? && |window.value| == 2 && horizons.Some? && artifacts.Some? && exclude.Some?
        then Ok(Args(db, (window.value[0], window.value[1]), exclude.value, embargo.Floor, horizons.value, root,
                     artifacts.value))
        else Err(MissingArgs)
      case _ => Err(MissingArgs)
  }

  /** Fields exempt from the comparison when the database or the artifacts root is overridden. */
  const DB_FIELDS: set<string> := {"source_db.path", "source_db.mtime", "generator.args.db"}
  const ROOT_FIELDS: set<string> := {"artifacts.root", "generator.args.artifacts_root"}

  function Exempt(copy: Option<string>, root: Option<string>): set<string> {
    (if copy.Some? then DB_FIELDS else {}) + (if root.Some? then ROOT_FIELDS else {})
  }

  predicate EndsWith(s: string, suffix: string) {
    |suffix| <= |s| && s[|s| - |suffix|..] == suffix
  }

  /** The place or the modification time of one artifact. */
  predicate IsArtifactPlace(path: string) {
    "artifacts.items." <= path && (EndsWith(path, ".abs_path") || EndsWith(path, ".mtime"))
  }

  /** The drifts that count under an optional override of the artifacts root. */
  function Unexempted(diffs: seq<Diff>, root: Option<string>): (r: seq<Diff>)
    ensures forall d :: d in r <==> d in diffs && !(root.Some? && IsArtifactPlace(d.path))
  {
    if diffs == [] then []
    else
      var n := |diffs| - 1;
      Unexempted(diffs[..n], root) + if root.Some? && IsArtifactPlace(diffs[n].path) then [] else [diffs[n]]
  }

  /** Rebuild from the stored arguments, with optional overrides of the database and the artifacts root, and diff. */
  ghost function Verify(w: World, record: Json, copy: Option<string>, root: Option<string>, now: string): Result<seq<Diff>, Failure> {
    match ArgsFromRecord(record)
    case Err(e) => Err(e)
    case Ok(stored) =>
      match Build(w, stored.(db := copy.GetOr(stored.db), root := root.GetOr(stored.root)), now)
      case Err(e) => Err(e)
      case Ok(rebuilt) => Ok(Unexempted(Differences(record, rebuilt, Exempt(copy, root)), root))
  }

  // ---- the split inside a record ----

  lemma {:induction false} AmongAscending(ids: seq<string>, keep: set<string>)
    requires Ascending(ids)
    ensures Ascending(Among(ids, keep))
  {
    hide Le;
    if ids != [] {
      var n := |ids| - 1;
      AmongAscending(ids[..n], keep);
      forall d | d in Among(ids[..n], keep) ensures Le(d, ids[n]) && d != ids[n] {
        assert d in ids[..n];
      }
    }
  }

  /** Every horizon's kept dates are its tuning, embargo and evaluation lists in order, and no date is excluded. */
  lemma RecordPartitionsHorizon(db: Database, a: Args, h: nat)
    requires a.embargo >= 0 && h in a.horizons && Ascending(db.sessions(h))
    ensures var s := AssignSplit(UnionDates(db, a), a.embargo).value;
      var kept := KeptDates(a, db.sessions(h));
      && Among(kept, Dates(s.tuning)) + Among(kept, Dates(s.embargo)) + Among(kept, Dates(s.evaluation)) == kept
      && forall d :: d in kept <==> d in db.sessions(h) && !IsExcluded(a, d)
  {
    hide Among, IsExcluded;
    var kept := KeptDates(a, db.sessions(h));
    AmongAscending(db.sessions(h), set d | d in db.sessions(h) && !IsExcluded(a, d));
    forall d | d in Dates(kept) ensures d in Dates(UnionDates(db, a)) {
      assert h in a.horizons && d in KeptDates(a, db.sessions(h));
    }
    HorizonPartition(UnionDates(db, a), a.embargo, kept);
  }

  /**
   * Across horizons too: a session tuned on at one horizon and one evaluated at another are more
   * than `embargo` sessions of the union apart.
   */
  lemma TuningNeverTouchesEvaluation(db: Database, a: Args, h: nat, k: nat, x: string, y: string, i: nat, j: nat)
    requires a.embargo >= 0
    requires var s := AssignSplit(UnionDates(db, a), a.embargo).value;
      && x in Among(KeptDates(a, db.sessions(h)), Dates(s.tuning))
      && y in Among(KeptDates(a, db.sessions(k)), Dates(s.evaluation))
    requires i < |UnionDates(db, a)| && UnionDates(db, a)[i] == x
    requires j < |UnionDates(db, a)| && UnionDates(db, a)[j] == y
    ensures i + a.embargo < j
  {
    ForwardWindowEndsBeforeEvaluation(UnionDates(db, a), a.embargo, i, j, a.embargo);
  }

  // ---- what a stored record gives back ----

  /** The stored arguments: the same, with the excluded sessions as a sorted set. */
  ghost function Stored(a: Args): Args {
    a.(exclude := SortedSet(Dates(a.exclude)))
  }

  lemma ArgsRoundTrip(w: World, a: Args, now: string)
    requires Build(w, a, now).Ok?
    ensures ArgsFromRecord(Build(w, a, now).value) == Ok(Stored(a))
  {
    hide BuildParts, ArgsJson, ArgsFromRecord;
    BuildNeedsDatabase(w, a);
    ReadArgs(Build(w, a, now).value, a);
  }

  lemma ReadArgs(record: Json, a: Args)
    requires Lookup(Lookup(record, "generator").GetOr(Null), "args") == Some(ArgsJson(a))
    ensures ArgsFromRecord(record) == Ok(Stored(a))
  {
    hide SortedSet;
    TextsRoundTrip([a.window.0, a.window.1]);
    TextsRoundTrip(SortedSet(Dates(a.exclude)));
    TextsRoundTrip(a.artifacts);
    NumbersRoundTrip(a.horizons);
  }

  lemma TextsRoundTrip(s: seq<string>)
    ensures TextList(Texts(s)) == Some(s)
  {
    assert TextList(Texts(s)).value == s;
  }

  lemma NumbersRoundTrip(s: seq<nat>)
    ensures NumberList(Numbers(s)) == Some(s)
  {
    assert forall i :: 0 <= i < |s| ==> Numbers(s).items[i] == Num(s[i] as real);
    assert NumberList(Numbers(s)).value == s;
  }

  /** Arguments that exclude the same dates; sessions are excluded as a set. */
  ghost predicate SameExclusion(a: Args, b: Args) {
    a.window == b.window && Dates(a.exclude) == Dates(b.exclude)
  }

  lemma SameExclusionKeeps(a: Args, b: Args, ids: seq<string>)
    requires SameExclusion(a, b)
    ensures KeptDates(a, ids) == KeptDates(b, ids)
    ensures ExcludedDates(a, ids) == ExcludedDates(b, ids)
  {
    hide Among;
    forall d ensures IsExcluded(a, d) == IsExcluded(b, d) {
      assert (d in a.exclude) == (d in Dates(a.exclude)) == (d in Dates(b.exclude));
    }
    assert (set d | d in ids && !IsExcluded(a, d)) == (set d | d in ids && !IsExcluded(b, d));
    assert (set d | d in ids && IsExcluded(a, d)) == (set d | d in ids && IsExcluded(b, d));
  }

  lemma {:induction false} SameExclusionEntries(x: Database, a: Args, y: Database, b: Args, s: Split, horizons: seq<nat>)
    requires SameExclusion(a, b) && x.sessions == y.sessions
    ensures HorizonEntries(x, a, s, horizons) == HorizonEntries(y, b, s, horizons)
    ensures ExcludedEntries(x, a, horizons) == ExcludedEntries(y, b, horizons)
    ensures CutoffEntries(x, a, horizons) == CutoffEntries(y, b, horizons)
  {
    hide KeptDates, ExcludedDates, Among, SameExclusion;
    if horizons != [] {
      var n := |horizons| - 1;
      SameExclusionEntries(x, a, y, b, s, horizons[..n]);
      SameExclusionKeeps(a, b, x.sessions(horizons[n]));
    }
  }

  lemma SameExclusionUnion(x: Database, a: Args, y: Database, b: Args)
    requires SameExclusion(a, b) && x.sessions == y.sessions && a.horizons == b.horizons
    ensures UnionDates(x, a) == UnionDates(y, b)
  {
    hide KeptDates, SameExclusion;
    forall h | h in a.horizons ensures KeptDates(a, x.sessions(h)) == KeptDates(b, y.sessions(h)) {
      SameExclusionKeeps(a, b, x.sessions(h));
    }
    assert (set h, d | h in a.horizons && d in KeptDates(a, x.sessions(h)) :: d)
        == (set h, d | h in b.horizons && d in KeptDates(b, y.sessions(h)) :: d);
  }

  /** Which sections two builds share when they differ in the two paths and the exclusion list's form. */
  lemma SameSections(w: World, a: Args, b: Args)
    requires SameExclusion(a, b)
    requires b == a.(db := b.db, exclude := b.exclude, root := b.root)
    requires a.db in w.dbs && b.db in w.dbs && w.dbs[a.db].sessions == w.dbs[b.db].sessions
    ensures BuildParts(w, a).Ok? == BuildParts(w, b).Ok?
    ensures BuildParts(w, a).Ok? ==>
      BuildParts(w, b) == Ok(BuildParts(w, a).value.(
        args := ArgsJson(b), source := SourceJson(b.db, w.dbs[b.db]), artifacts := ArtifactsJson(w, b)))
    ensures BuildParts(w, a).Err? ==> BuildParts(w, b) == BuildParts(w, a)
  {
    hide UnionDates, HorizonEntries, ExcludedEntries, CutoffEntries, ExclusionJson, ArgsJson, SourceJson, ArtifactsJson,
      SameExclusion;
    var x, y := w.dbs[a.db], w.dbs[b.db];
    SameExclusionUnion(x, a, y, b);
    match AssignSplit(UnionDates(x, a), a.embargo)
    case Err(_) =>
    case Ok(s) =>
      SameExclusionEntries(x, a, y, b, s, a.horizons);
      SameExclusionSection(x, a, y, b, s);
  }

  lemma SameExclusionSection(x: Database, a: Args, y: Database, b: Args, s: Split)
    requires SameExclusion(a, b) && a.horizons == b.horizons && x.sessions == y.sessions
    ensures ExclusionJson(x, a) == ExclusionJson(y, b)
  {
    hide ExcludedEntries, SortedSet;
    SameExclusionEntries(x, a, y, b, s, a.horizons);
  }

  lemma StoredSameExclusion(a: Args)
    ensures SameExclusion(a, Stored(a)) && ArgsJson(Stored(a)) == ArgsJson(a)
  {
    assert Dates(SortedSet(Dates(a.exclude))) == Dates(a.exclude);
  }

  /** The stored arguments rebuild the very same record at the same instant. */
  lemma StoredBuildsSame(w: World, a: Args, now: string)
    ensures Build(w, Stored(a), now) == Build(w, a, now)
  {
    hide ArgsJson, SourceJson, SameExclusion, SortedSet, UnionDates;
    StoredSameExclusion(a);
    if a.db in w.dbs {
      SameSections(w, a, Stored(a));
    }
  }

  // ---- verification ----

  function LastChar(s: string): char
    requires s != ""
  {
    s[|s| - 1]
  }

  lemma FieldSkipsWholeLists(skip: set<string>)
    requires forall s :: s in skip ==> s != "" && !('0' <= LastChar(s) <= '9')
    ensures SkipsWholeLists(skip)
  {
    forall p: string, i: nat | Element(p, i) in skip ensures p in skip {
      var digits := Decimal(i);
      assert Element(p, i)[|Element(p, i)| - 1] == digits[|digits| - 1];
      assert digits[|digits| - 1] in digits;
    }
  }

  /** Records whose sections erase alike are clean against each other, whatever their timestamps. */
  lemma SectionsClean(now: string, p: Parts, later: string, q: Parts, skip: set<string>)
    requires forall s :: s in skip ==> s != "" && !('0' <= LastChar(s) <= '9')
    requires Erase(GeneratorJson(p.prose, p.args), "generator", skip + VOLATILE)
          == Erase(GeneratorJson(q.prose, q.args), "generator", skip + VOLATILE)
    requires Erase(p.source, "source_db", skip + VOLATILE) == Erase(q.source, "source_db", skip + VOLATILE)
    requires q.(args := p.args, source := p.source) == p
    ensures Differences(Assemble(now, p), Assemble(later, q), skip) == []
  {
    hide Erase, Differences, GeneratorJson;
    var was, again, all := Assemble(now, p), Assemble(later, q), skip + VOLATILE;
    FieldSkipsWholeLists(all);
    forall k | k in was.members && Member("", k) !in all
      ensures Erase(was.members[k], Member("", k), all) == Erase(again.members[k], Member("", k), all)
    {
    }
    ErasedObjects(was, again, "", all);
    DiffIsExact(was, again, skip);
  }

  lemma BuildNeedsDatabase(w: World, a: Args)
    requires BuildParts(w, a).Ok?
    ensures a.db in w.dbs
    ensures var p := BuildParts(w, a).value;
      && p.prose == w.prose && p.args == ArgsJson(a) && p.source == SourceJson(a.db, w.dbs[a.db])
      && p.artifacts == ArtifactsJson(w, a)
  {
    hide UnionDates, ArgsJson, SourceJson, HorizonEntries, ExcludedEntries, ExclusionJson, CutoffEntries, SplitJson, ArtifactsJson;
  }

  /** The two overridable paths are the only arguments that may differ. */
  ghost predicate IsOverride(a: Args, b: Args, copy: Option<string>, root: Option<string>) {
    b == a.(db := copy.GetOr(a.db), root := root.GetOr(a.root))
  }

  lemma SourceErasesSame(path: string, x: Database, y: Database, copy: Option<string>, skip: set<string>)
    requires y == x.(mtime := y.mtime) && (copy.None? ==> x == y)
    requires copy.Some? ==> DB_FIELDS <= skip
    ensures Erase(SourceJson(path, x), "source_db", skip) == Erase(SourceJson(copy.GetOr(path), y), "source_db", skip)
  {
    hide Erase;
    assert Member("source_db", "path") == "source_db.path" && Member("source_db", "mtime") == "source_db.mtime";
    ErasedObjects(SourceJson(path, x), SourceJson(copy.GetOr(path), y), "source_db", skip);
  }

  lemma ArgsEraseSame(a: Args, b: Args, copy: Option<string>, root: Option<string>, skip: set<string>)
    requires IsOverride(a, b, copy, root) && Exempt(copy, root) <= skip
    ensures Erase(ArgsJson(a), "generator.args", skip) == Erase(ArgsJson(b), "generator.args", skip)
  {
    hide Erase, SortedSet, Texts, Number, Numbers;
    assert Member("generator.args", "db") == "generator.args.db";
    assert Member("generator.args", "artifacts_root") == "generator.args.artifacts_root";
    ErasedObjects(ArgsJson(a), ArgsJson(b), "generator.args", skip);
  }

  lemma GeneratorErasesSame(prose: Prose, x: Json, y: Json, skip: set<string>)
    requires Erase(x, "generator.args", skip) == Erase(y, "generator.args", skip)
    ensures Erase(GeneratorJson(prose, x), "generator", skip) == Erase(GeneratorJson(prose, y), "generator", skip)
  {
    hide Erase;
    assert Member("generator", "args") == "generator.args";
    ErasedObjects(GeneratorJson(prose, x), GeneratorJson(prose, y), "generator", skip);
  }

  // ---- moved artifacts ----

  /** The same file at two roots, up to where it is and when it was written. */
  ghost predicate SameFile(w: World, root: string, other: string, rel: string) {
    var x, y := w.artifact(root, rel), w.artifact(other, rel);
    x.Some? == y.Some? && (x.Some? ==> y.value == x.value.(mtime := y.value.mtime))
  }

  /** Such a file drifts only at its place and its modification time. */
  lemma MovedArtifact(w: World, root: string, other: string, rel: string, path: string, skip: set<string>, d: Diff)
    requires SameFile(w, root, other, rel) && "artifacts.items." <= path
    requires d in Walk(ArtifactJson(w, root, rel), ArtifactJson(w, other, rel), path, skip)
    ensures IsArtifactPlace(d.path)
  {
    hide Walk, ArtifactJson, IsArtifactPlace, SameFile;
    var x, y := ArtifactJson(w, root, rel), ArtifactJson(w, other, rel);
    SameKeys(w, root, other, rel);
    var k := ObjectDiff(x, y, path, skip, d);
    AtomDiff(x.members[k], y.members[k], Member(path, k), skip, d);
    PlacePath(path, k);
  }

  lemma Appended(prefix: string, path: string, suffix: string)
    requires prefix <= path
    ensures prefix <= path + suffix && EndsWith(path + suffix, suffix)
  {
  }

  lemma PlacePath(path: string, k: string)
    requires "artifacts.items." <= path
    ensures k == "abs_path" || k == "mtime" ==> IsArtifactPlace(Member(path, k))
  {
    hide EndsWith;
    assert Member(path, "abs_path") == path + ".abs_path" && Member(path, "mtime") == path + ".mtime";
    Appended("artifacts.items.", path, ".abs_path");
    Appended("artifacts.items.", path, ".mtime");
  }

  lemma SameKeys(w: World, root: string, other: string, rel: string)
    requires SameFile(w, root, other, rel)
    ensures var x, y := ArtifactJson(w, root, rel), ArtifactJson(w, other, rel);
      && x.Obj? && y.Obj? && x.members.Keys == y.members.Keys
      && (forall k :: k in x.members ==> !x.members[k].Obj? && !x.members[k].Arr? && !y.members[k].Obj? && !y.members[k].Arr?)
      && (forall k :: k in x.members && k != "abs_path" && k != "mtime" ==> x.members[k] == y.members[k])
  {
  }

  /** A drift between two values that are no containers is at their own path, and means they differ. */
  lemma AtomDiff(x: Json, y: Json, path: string, skip: set<string>, d: Diff)
    requires !x.Obj? && !x.Arr? && !y.Obj? && !y.Arr? && d in Walk(x, y, path, skip)
    ensures d.path == path && x != y
  {
  }

  /** The artifacts section of two roots holding the same files drifts only at places and modification times. */
  lemma MovedArtifacts(w: World, a: Args, b: Args, skip: set<string>, d: Diff)
    requires b.artifacts == a.artifacts && "artifacts.root" in skip
    requires forall i :: 0 <= i < |a.artifacts| ==> SameFile(w, a.root, b.root, a.artifacts[i])
    requires d in Walk(ArtifactsJson(w, a), ArtifactsJson(w, b), "artifacts", skip)
    ensures IsArtifactPlace(d.path)
  {
    hide Walk, Element, SameFile, ArtifactJson;
    var k := ObjectDiff(ArtifactsJson(w, a), ArtifactsJson(w, b), "artifacts", skip, d);
    assert Member("artifacts", "root") == "artifacts.root" && Member("artifacts", "items") == "artifacts.items";
    var x, y := Arr(ArtifactItems(w, a)), Arr(ArtifactItems(w, b));
    SkippedPathIsClean(Str(a.root), Str(b.root), "artifacts.root", skip);
    assert k == "items" && d in Walk(x, y, "artifacts.items", skip);
    ArtifactsAreObjects(w, a);
    var i := ObjectListDiff(x, y, "artifacts.items", skip, d);
    ElementPath("artifacts.items", i);
    assert SameFile(w, a.root, b.root, a.artifacts[i]);
    MovedArtifact(w, a.root, b.root, a.artifacts[i], Element("artifacts.items", i), skip, d);
  }

  lemma ArtifactsAreObjects(w: World, a: Args)
    ensures forall i :: 0 <= i < |a.artifacts| ==> ArtifactItems(w, a)[i].Obj?
  {
  }

  lemma ElementPath(path: string, i: nat)
    ensures path + "." <= Element(path, i)
  {
  }

  /** A drift between lists of objects of equal length belongs to one position. */
  lemma ObjectListDiff(x: Json, y: Json, path: string, skip: set<string>, d: Diff) returns (i: nat)
    requires x.Arr? && y.Arr? && |x.items| == |y.items| && d in Walk(x, y, path, skip)
    requires forall j :: 0 <= j < |x.items| ==> x.items[j].Obj?
    ensures i < |x.items| && d in Walk(x.items[i], y.items[i], Element(path, i), skip)
  {
    hide Element, Canonical;
    assert x.items == [] ==> x == y;
    assert x.items != [] ==> x.items[0].Obj?;
    i := ItemOfDiff(x, y, |x.items|, path, skip, d);
  }

  /** If a record is clean but for one section, every drift is in that section. */
  lemma DriftsInSection(was: Json, clean: Json, again: Json, section: string, skip: set<string>, d: Diff)
    requires was.Obj? && clean.Obj? && again.Obj? && clean.members.Keys == again.members.Keys == was.members.Keys
    requires section in was.members && again.members == clean.members[section := again.members[section]]
    requires Differences(was, clean, skip) == [] && d in Differences(was, again, skip)
    ensures d in Walk(was.members[section], again.members[section], Member("", section), skip + VOLATILE)
  {
    hide WalkMembers, Member;
    var all := skip + VOLATILE;
    var k := ObjectDiff(was, again, "", all, d);
    assert "" !in all;
    ObjectsClean(was, clean, "", all);
    if k != section {
      assert again.members[k] == clean.members[k];
      MemberClean(was, clean, k, "", all);
      MemberClean(was, again, k, "", all);
    }
  }

  // ---- verification accepts what has not drifted ----

  /** The database at the other path, if any, is a copy. */
  ghost predicate IsCopy(w: World, db: string, copy: Option<string>) {
    db in w.dbs && (copy.Some? ==> copy.value in w.dbs && w.dbs[copy.value] == w.dbs[db].(mtime := w.dbs[copy.value].mtime))
  }

  lemma {:induction false} NothingCounts(diffs: seq<Diff>, root: Option<string>)
    requires forall d :: d in diffs ==> root.Some? && IsArtifactPlace(d.path)
    ensures Unexempted(diffs, root) == []
  {
    hide IsArtifactPlace;
    if diffs != [] {
      var n := |diffs| - 1;
      assert diffs[n] in diffs && forall d :: d in diffs[..n] ==> d in diffs;
      NothingCounts(diffs[..n], root);
    }
  }

  lemma {:induction false} EverythingCounts(diffs: seq<Diff>)
    ensures Unexempted(diffs, None) == diffs
  {
    if diffs != [] {
      EverythingCounts(diffs[..|diffs| - 1]);
    }
  }

  lemma SameArtifacts(w: World, a: Args, b: Args)
    requires a.root == b.root && a.artifacts == b.artifacts
    ensures ArtifactsJson(w, a) == ArtifactsJson(w, b)
  {
    assert ArtifactItems(w, a) == ArtifactItems(w, b);
  }

  lemma OverrideDrift(w: World, a: Args, b: Args, now: string, later: string, copy: Option<string>, root: Option<string>, d: Diff)
    requires Build(w, a, now).Ok? && Build(w, b, later).Ok? && IsOverride(a, b, copy, root) && IsCopy(w, a.db, copy)
    requires root.Some? ==> forall i :: 0 <= i < |a.artifacts| ==> SameFile(w, a.root, root.value, a.artifacts[i])
    requires d in Differences(Build(w, a, now).value, Build(w, b, later).value, Exempt(copy, root))
    ensures root.Some? && IsArtifactPlace(d.path)
  {
    hide Differences, Erase, SourceJson, ArgsJson, UnionDates, SortedSet, BuildParts, ArtifactsJson, SameFile;
    BuildNeedsDatabase(w, a);
    SameSections(w, a, b);
    var p, q, skip := BuildParts(w, a).value, BuildParts(w, b).value, Exempt(copy, root);
    var same := q.(artifacts := p.artifacts);
    SourceErasesSame(a.db, w.dbs[a.db], w.dbs[b.db], copy, skip + VOLATILE);
    ArgsEraseSame(a, b, copy, root, skip + VOLATILE);
    GeneratorErasesSame(w.prose, p.args, q.args, skip + VOLATILE);
    SectionsClean(now, p, later, same, skip);
    if root.None? {
      SameArtifacts(w, a, b);
      assert false;
    } else {
      DriftsInSection(Assemble(now, p), Assemble(later, same), Assemble(later, q), "artifacts", skip, d);
      assert Member("", "artifacts") == "artifacts";
      MovedArtifacts(w, a, b, skip + VOLATILE, d);
    }
  }

  /**
   * Generate, then verify at any later instant, with or without an override of the database by a
   * byte-identical copy and of the artifacts root by one that holds the same files: no drift.
   */
  lemma VerifyAcceptsOverrides(w: World, a: Args, now: string, later: string, copy: Option<string>, root: Option<string>)
    requires Build(w, a, now).Ok? && IsCopy(w, a.db, copy)
    requires root.Some? ==> forall i :: 0 <= i < |a.artifacts| ==> SameFile(w, a.root, root.value, a.artifacts[i])
    ensures Verify(w, Build(w, a, now).value, copy, root, later) == Ok([])
  {
    hide Differences, ArgsFromRecord, Assemble, Erase, SourceJson, ArgsJson, UnionDates, SortedSet, BuildParts, Exempt,
      ArtifactsJson, SameFile, Unexempted;
    ArgsRoundTrip(w, a, now);
    var b := a.(db := copy.GetOr(a.db), root := root.GetOr(a.root));
    assert Stored(a).(db := copy.GetOr(a.db), root := root.GetOr(a.root)) == Stored(b);
    StoredBuildsSame(w, b, later);
    BuildNeedsDatabase(w, a);
    SameSections(w, a, b);
    var was, again, skip := Build(w, a, now).value, Build(w, b, later).value, Exempt(copy, root);
    forall d | d in Differences(was, again, skip) ensures root.Some? && IsArtifactPlace(d.path) {
      OverrideDrift(w, a, b, now, later, copy, root, d);
    }
    NothingCounts(Differences(was, again, skip), root);
  }

  /** On unchanged inputs. */
  lemma VerifyAcceptsUnchanged(w: World, a: Args, now: string, later: string)
    requires Build(w, a, now).Ok?
    ensures Verify(w, Build(w, a, now).value, None, None, later) == Ok([])
  {
    hide BuildParts, Verify;
    BuildNeedsDatabase(w, a);
    VerifyAcceptsOverrides(w, a, now, later, None, None);
  }

  /** Against a copy of the database at another path. */
  lemma VerifyAcceptsCopy(w: World, a: Args, now: string, later: string, copy: string)
    requires Build(w, a, now).Ok?
    requires copy in w.dbs && w.dbs[copy] == w.dbs[a.db].(mtime := w.dbs[copy].mtime)
    ensures Verify(w, Build(w, a, now).value, Some(copy), None, later) == Ok([])
  {
    hide BuildParts, Verify;
    BuildNeedsDatabase(w, a);
    VerifyAcceptsOverrides(w, a, now, later, Some(copy), None);
  }

  // ---- what a clean verification guarantees ----

  /** The sessions of horizon h that arms may tune on, and those held out for evaluation. */
  ghost function ArmSessions(db: Database, a: Args, h: nat): (seq<string>, seq<string>)
    requires a.embargo >= 0
  {
    var s := AssignSplit(UnionDates(db, a), a.embargo).value;
    var kept := KeptDates(a, db.sessions(h));
    (Among(kept, Dates(s.tuning)), Among(kept, Dates(s.evaluation)))
  }

  lemma ErasedMember(a: Json, b: Json, path: string, skip: set<string>, k: string)
    requires a.Obj? && b.Obj? && Erase(a, path, skip) == Erase(b, path, skip)
    requires k in a.members && Member(path, k) !in skip
    ensures k in b.members && Erase(a.members[k], Member(path, k), skip) == Erase(b.members[k], Member(path, k), skip)
  {
    hide Member;
    ErasedObjects(a, b, path, skip);
  }

  lemma ErasedTexts(x: seq<string>, y: seq<string>, path: string, skip: set<string>)
    requires SkipsWholeLists(skip) && path !in skip
    requires Erase(Texts(x), path, skip) == Erase(Texts(y), path, skip)
    ensures x == y
  {
    hide Element;
    var ex, ey := Erase(Texts(x), path, skip).items, Erase(Texts(y), path, skip).items;
    assert |x| == |ex| == |ey| == |y|;
    forall i | 0 <= i < |x| ensures x[i] == y[i] {
      assert ex[i] == Str(x[i]) && ey[i] == Str(y[i]);
    }
  }

  lemma {:induction false} EntryPresent(db: Database, a: Args, s: Split, horizons: seq<nat>, h: nat)
    requires h in horizons
    ensures var all := HorizonEntries(db, a, s, horizons);
      HorizonKey(h) in all && all[HorizonKey(h)] == HorizonEntry(a, db.sessions(h), s)
  {
    hide HorizonEntry;
    var n := |horizons| - 1;
    if horizons[n] != h {
      EntryPresent(db, a, s, horizons[..n], h);
      var k, last := HorizonKey(h), HorizonKey(horizons[n]);
      if k == last {
        assert k[4..|k| - 1] == Decimal(h) && last[4..|last| - 1] == Decimal(horizons[n]);
        DecimalInjective(h, horizons[n]);
      }
    }
  }

  /** Paths that verification may exempt: none inside the horizons, no database content, no list element. */
  ghost predicate IsExemption(skip: set<string>) {
    forall p :: p in skip ==>
      p != "" && p[0] != 'h' && !('0' <= LastChar(p) <= '9')
      && p !in {"source_db", "source_db.sha256", "source_db.size_bytes", "artifacts"} && !("artifacts.items" <= p)
  }

  lemma ExemptIsExemption(copy: Option<string>, root: Option<string>)
    ensures IsExemption(Exempt(copy, root) + VOLATILE)
  {
    forall p | p in Exempt(copy, root) + VOLATILE ensures !("artifacts.items" <= p) {
      BelowItems(p);
    }
  }

  lemma BelowItems(p: string)
    ensures "artifacts.items" <= p ==> p[0] == 'a' && p[10] == 'i'
  {
    assert "artifacts.items" <= p ==> p[0] == "artifacts.items"[0] && p[10] == "artifacts.items"[10];
  }

  /** The members of one horizon's counted list, read back from two records that erase alike. */
  lemma SameCounted(x: Json, y: Json, path: string, k: string, u: seq<string>, v: seq<string>, skip: set<string>)
    requires IsExemption(skip) && x.Obj? && y.Obj? && Erase(x, path, skip) == Erase(y, path, skip)
    requires path != "" && path[0] == 'h'
    requires k in x.members && k in y.members && x.members[k] == Counted(u) && y.members[k] == Counted(v)
    ensures u == v
  {
    hide Erase;
    FieldSkipsWholeLists(skip);
    NotExempt(path, k, skip);
    ErasedMember(x, y, path, skip, k);
    NotExempt(Member(path, k), "ids", skip);
    ErasedMember(Counted(u), Counted(v), Member(path, k), skip, "ids");
    ErasedTexts(u, v, Member(Member(path, k), "ids"), skip);
  }

  lemma NotExempt(path: string, k: string, skip: set<string>)
    requires IsExemption(skip) && path != "" && path[0] == 'h'
    ensures Member(path, k) !in skip && Member(path, k) != "" && Member(path, k)[0] == 'h'
  {
  }

  lemma SectionsOf(w: World, a: Args)
    requires BuildParts(w, a).Ok?
    ensures a.db in w.dbs && a.embargo >= 0
    ensures var db := w.dbs[a.db];
      && BuildParts(w, a).value.source == SourceJson(a.db, db)
      && BuildParts(w, a).value.horizons == Obj(HorizonEntries(db, a, AssignSplit(UnionDates(db, a), a.embargo).value, a.horizons))
      && BuildParts(w, a).value.artifacts == ArtifactsJson(w, a)
  {
    hide UnionDates, ArgsJson, SourceJson, HorizonEntries, ExcludedEntries, SplitJson, ArtifactsJson;
  }

  lemma SameHash(p: string, x: Database, q: string, y: Database, skip: set<string>)
    requires IsExemption(skip) && Erase(SourceJson(p, x), "source_db", skip) == Erase(SourceJson(q, y), "source_db", skip)
    ensures x.sha == y.sha && x.size == y.size
  {
    assert Member("source_db", "sha256") == "source_db.sha256" && Member("source_db", "size_bytes") == "source_db.size_bytes";
    ErasedMember(SourceJson(p, x), SourceJson(q, y), "source_db", skip, "sha256");
    ErasedMember(SourceJson(p, x), SourceJson(q, y), "source_db", skip, "size_bytes");
  }

  lemma SameArmSessions(x: Database, y: Database, a: Args, h: nat, skip: set<string>)
    requires IsExemption(skip) && a.embargo >= 0 && h in a.horizons
    requires Erase(Obj(HorizonEntries(x, a, AssignSplit(UnionDates(x, a), a.embargo).value, a.horizons)), "horizons", skip)
          == Erase(Obj(HorizonEntries(y, a, AssignSplit(UnionDates(y, a), a.embargo).value, a.horizons)), "horizons", skip)
    ensures ArmSessions(x, a, h) == ArmSessions(y, a, h)
  {
    hide Erase, UnionDates, HorizonEntries, Counted, HorizonKey;
    var s, t := AssignSplit(UnionDates(x, a), a.embargo).value, AssignSplit(UnionDates(y, a), a.embargo).value;
    EntryPresent(x, a, s, a.horizons, h);
    EntryPresent(y, a, t, a.horizons, h);
    var k := HorizonKey(h);
    NotExempt("horizons", k, skip);
    ErasedMember(Obj(HorizonEntries(x, a, s, a.horizons)), Obj(HorizonEntries(y, a, t, a.horizons)), "horizons", skip, k);
    var u, v := KeptDates(a, x.sessions(h)), KeptDates(a, y.sessions(h));
    SameCounted(HorizonEntry(a, x.sessions(h), s), HorizonEntry(a, y.sessions(h), t), Member("horizons", k), "tuning",
                Among(u, Dates(s.tuning)), Among(v, Dates(t.tuning)), skip);
    SameCounted(HorizonEntry(a, x.sessions(h), s), HorizonEntry(a, y.sessions(h), t), Member("horizons", k), "evaluation",
                Among(u, Dates(s.evaluation)), Among(v, Dates(t.evaluation)), skip);
  }

  /** Every drift below a named path has a name that extends it. */
  lemma {:induction false} DriftPathExtends(a: Json, b: Json, path: string, skip: set<string>, d: Diff)
    requires path != "" && d in Walk(a, b, path, skip)
    ensures path <= d.path
    decreases a
  {
    hide Walk, IsStringsChange, PyEqual;
    SkippedPathIsClean(a, b, path, skip);
    if a.Obj? && b.Obj? {
      ObjectDrifts(a, b, path, skip, d);
      var k :| IsMemberDrift(a, b, k, path, skip, d);
      if k in a.members && k in b.members {
        DriftPathExtends(a.members[k], b.members[k], Member(path, k), skip, d);
      }
    } else if a.Arr? && b.Arr? {
      ListDrifts(a, b, path, skip, d);
      if !(AllStrings(a.items) && AllStrings(b.items)) && |a.items| == |b.items| {
        var i :| 0 <= i < |a.items| && d in Walk(a.items[i], b.items[i], Element(path, i), skip);
        DriftPathExtends(a.items[i], b.items[i], Element(path, i), skip, d);
      }
    } else {
      ValueDrifts(a, b, path, skip);
    }
  }

  /** A drift of a section both records have is a drift of the records. */
  lemma SectionDriftIsDrift(was: Json, again: Json, section: string, skip: set<string>, d: Diff)
    requires was.Obj? && again.Obj? && section in was.members && section in again.members
    requires section !in skip + VOLATILE && "" !in skip + VOLATILE
    requires d in Walk(was.members[section], again.members[section], section, skip + VOLATILE)
    ensures d in Differences(was, again, skip)
  {
    hide Walk;
    assert Member("", section) == section;
    assert IsMemberDrift(was, again, section, "", skip + VOLATILE, d);
    ObjectDrifts(was, again, "", skip + VOLATILE, d);
  }

  /** A clean verification leaves a section other than the artifacts without drift. */
  lemma CleanSection(was: Json, again: Json, section: string, skip: set<string>, root: Option<string>)
    requires was.Obj? && again.Obj? && section in was.members && section in again.members
    requires section != "" && section[0] != 'a' && section !in skip + VOLATILE && "" !in skip + VOLATILE
    requires Unexempted(Differences(was, again, skip), root) == []
    ensures Erase(was.members[section], section, skip + VOLATILE) == Erase(again.members[section], section, skip + VOLATILE)
  {
    hide Walk, Differences, Erase, IsArtifactPlace;
    var x, y, all := was.members[section], again.members[section], skip + VOLATILE;
    forall d ensures d !in Walk(x, y, section, all) {
      if d in Walk(x, y, section, all) {
        SectionDriftIsDrift(was, again, section, skip, d);
        DriftPathExtends(x, y, section, all, d);
        PlacesAreArtifacts(d.path, section);
      }
    }
    NoDrifts(Walk(x, y, section, all));
    EmptyDiffMeansEqual(x, y, section, all);
  }

  lemma NoDrifts(diffs: seq<Diff>)
    requires forall d :: d !in diffs
    ensures diffs == []
  {
    FirstIsMember(diffs);
  }

  lemma FirstIsMember(diffs: seq<Diff>)
    ensures |diffs| > 0 ==> diffs[0] in diffs
  {
  }

  lemma PlacesAreArtifacts(path: string, section: string)
    requires section != "" && section[0] != 'a' && section <= path
    ensures !IsArtifactPlace(path)
  {
    assert path[0] == section[0];
  }

  /** The artifact files hold the same content, or both are missing. */
  ghost predicate SameContent(x: Option<Stat>, y: Option<Stat>) {
    x.Some? == y.Some? && (x.Some? ==> x.value.size == y.value.size && x.value.sha == y.value.sha)
  }

  /** Two artifact entries without drift at presence, size and hash describe the same content. */
  lemma CleanArtifact(w: World, p: string, other: World, q: string, rel: string)
    requires var x, y := ArtifactJson(w, p, rel), ArtifactJson(other, q, rel);
      forall k :: k in {"present", "size_bytes", "sha256"} ==>
        (k in x.members <==> k in y.members) && (k in x.members && k in y.members ==> PyEqual(x.members[k], y.members[k]))
    ensures SameContent(w.artifact(p, rel), other.artifact(q, rel))
  {
    var x, y := ArtifactJson(w, p, rel), ArtifactJson(other, q, rel);
    assert "present" in x.members && "present" in y.members;
    assert w.artifact(p, rel).Some? ==> "sha256" in x.members && "size_bytes" in x.members;
  }

  /** What a clean verification says about artifact i. */
  lemma CleanArtifactEntry(was: Json, again: Json, w: World, a: Args, other: World, b: Args, skip: set<string>, root: Option<string>, i: nat)
    requires b.artifacts == a.artifacts && i < |a.artifacts| && IsExemption(skip + VOLATILE)
    requires was.Obj? && again.Obj? && "artifacts" in was.members && "artifacts" in again.members
    requires was.members["artifacts"] == ArtifactsJson(w, a) && again.members["artifacts"] == ArtifactsJson(other, b)
    requires Unexempted(Differences(was, again, skip), root) == []
    ensures SameContent(w.artifact(a.root, a.artifacts[i]), other.artifact(b.root, a.artifacts[i]))
  {
    hide Walk, Differences, Element, ArtifactJson, IsArtifactPlace, PyEqual, SameContent;
    var all, at := skip + VOLATILE, Element("artifacts.items", i);
    var x, y := ArtifactJson(w, a.root, a.artifacts[i]), ArtifactJson(other, b.root, b.artifacts[i]);
    ArtifactsAreObjects(w, a);
    ArtifactsAreObjects(other, b);
    assert x == ArtifactItems(w, a)[i] && y == ArtifactItems(other, b)[i];
    SectionKeys(w, a);
    SectionKeys(other, b);
    var xs, ys := Arr(ArtifactItems(w, a)), Arr(ArtifactItems(other, b));
    forall k | k in {"present", "size_bytes", "sha256"}
      ensures (k in x.members <==> k in y.members) && (k in x.members && k in y.members ==> PyEqual(x.members[k], y.members[k]))
    {
      if PyEqual(xs, ys) {
        EqualItems(xs, ys, i, k);
      } else {
        ElementIsNotExempt(i, k, all);
        ArtifactFields(w, a.root, a.artifacts[i]);
        ArtifactFields(other, b.root, a.artifacts[i]);
        forall d ensures !IsMemberDrift(x, y, k, at, all, d) {
          if IsMemberDrift(x, y, k, at, all, d) {
            ArtifactDriftCounts(was, again, xs, ys, i, k, skip, d);
            FieldDriftPath(x, y, k, at, all, d);
            FieldIsNoPlace(at, k);
          }
        }
        NoMemberDrift(x, y, k, at, all);
      }
    }
    CleanArtifact(w, a.root, other, b.root, a.artifacts[i]);
  }

  lemma SectionKeys(w: World, a: Args)
    ensures ArtifactsJson(w, a).Obj? && "items" in ArtifactsJson(w, a).members
    ensures ArtifactsJson(w, a).members["items"] == Arr(ArtifactItems(w, a)) && |ArtifactItems(w, a)| == |a.artifacts|
  {
  }

  lemma ArtifactFields(w: World, root: string, rel: string)
    ensures var x := ArtifactJson(w, root, rel);
      x.Obj? && forall k :: k in x.members ==> !x.members[k].Obj? && !x.members[k].Arr?
  {
  }

  lemma EqualItems(xs: Json, ys: Json, i: nat, k: string)
    requires xs.Arr? && ys.Arr? && PyEqual(xs, ys) && i < |xs.items| && i < |ys.items| && xs.items[i].Obj? && ys.items[i].Obj?
    ensures k in xs.items[i].members <==> k in ys.items[i].members
    ensures k in xs.items[i].members ==> PyEqual(xs.items[i].members[k], ys.items[i].members[k])
  {
    assert Canonical(xs).items[i] == Canonical(ys).items[i];
    var x, y := Canonical(xs.items[i]), Canonical(ys.items[i]);
    assert x.members.Keys == xs.items[i].members.Keys && y.members.Keys == ys.items[i].members.Keys;
    if k in xs.items[i].members {
      assert x.members[k] == y.members[k];
    }
  }

  lemma FieldDriftPath(x: Json, y: Json, k: string, at: string, skip: set<string>, d: Diff)
    requires x.Obj? && y.Obj? && IsMemberDrift(x, y, k, at, skip, d)
    requires forall j :: j in x.members ==> !x.members[j].Obj? && !x.members[j].Arr?
    requires forall j :: j in y.members ==> !y.members[j].Obj? && !y.members[j].Arr?
    ensures d.path == Member(at, k)
  {
    hide Walk, Member, PyEqual;
    if k in x.members && k in y.members {
      ValueDrifts(x.members[k], y.members[k], Member(at, k), skip);
    }
  }

  lemma FieldIsNoPlace(at: string, k: string)
    requires at != "" && k in {"present", "size_bytes", "sha256"}
    ensures !IsArtifactPlace(Member(at, k))
  {
    var path := Member(at, k);
    assert path == at + "." + k && path[|path| - 1] == k[|k| - 1];
    LastOfSuffix(path, ".abs_path");
    LastOfSuffix(path, ".mtime");
  }

  lemma LastOfSuffix(path: string, suffix: string)
    requires suffix != ""
    ensures EndsWith(path, suffix) ==> path != "" && path[|path| - 1] == suffix[|suffix| - 1]
  {
    if EndsWith(path, suffix) {
      assert path[|path| - |suffix|..][|suffix| - 1] == path[|path| - 1];
    }
  }

  /** A drift at a member of artifact i is a drift of the records. */
  lemma ArtifactDriftCounts(was: Json, again: Json, xs: Json, ys: Json, i: nat, k: string, skip: set<string>, d: Diff)
    requires was.Obj? && again.Obj? && "artifacts" in was.members && "artifacts" in again.members && IsExemption(skip + VOLATILE)
    requires var x, y := was.members["artifacts"], again.members["artifacts"];
      x.Obj? && y.Obj? && "items" in x.members && "items" in y.members && x.members["items"] == xs && y.members["items"] == ys
    requires xs.Arr? && ys.Arr? && |xs.items| == |ys.items| && i < |xs.items| && xs.items[i].Obj? && ys.items[i].Obj?
    requires !PyEqual(xs, ys) && IsMemberDrift(xs.items[i], ys.items[i], k, Element("artifacts.items", i), skip + VOLATILE, d)
    ensures d in Differences(was, again, skip)
  {
    hide Walk, Differences, Element, PyEqual;
    var all := skip + VOLATILE;
    ElementIsNotExempt(i, k, all);
    ObjectDrifts(xs.items[i], ys.items[i], Element("artifacts.items", i), all, d);
    ListDrifts(xs, ys, "artifacts.items", all, d);
    assert Member("artifacts", "items") == "artifacts.items";
    assert IsMemberDrift(was.members["artifacts"], again.members["artifacts"], "items", "artifacts", all, d);
    ObjectDrifts(was.members["artifacts"], again.members["artifacts"], "artifacts", all, d);
    SectionDriftIsDrift(was, again, "artifacts", skip, d);
  }

  lemma ElementIsNotExempt(i: nat, k: string, skip: set<string>)
    requires IsExemption(skip)
    ensures var at := Element("artifacts.items", i); at !in skip && at != "" && Member(at, k) !in skip
  {
    var at := Element("artifacts.items", i);
    assert at == "artifacts.items" + "." + Decimal(i) && "artifacts.items" <= at;
    assert Member(at, k) == at + "." + k && "artifacts.items" <= Member(at, k);
  }

  lemma MemberDriftsShow(x: Json, y: Json, k: string, at: string, skip: set<string>)
    requires x.Obj? && y.Obj? && Member(at, k) !in skip
    requires k in x.members ==> !x.members[k].Obj? && !x.members[k].Arr?
    ensures k in x.members && k in y.members && !PyEqual(x.members[k], y.members[k]) ==>
      IsMemberDrift(x, y, k, at, skip, Diff(Member(at, k), Replaced(x.members[k], y.members[k])))
    ensures k in x.members && k !in y.members ==> IsMemberDrift(x, y, k, at, skip, Diff(Member(at, k), OnlyOld(x.members[k])))
    ensures k !in x.members && k in y.members ==> IsMemberDrift(x, y, k, at, skip, Diff(Member(at, k), OnlyNew(y.members[k])))
  {
    hide Walk, PyEqual, Member;
    if k in x.members && k in y.members {
      ValueDrifts(x.members[k], y.members[k], Member(at, k), skip);
    }
  }

  lemma NoMemberDrift(x: Json, y: Json, k: string, at: string, skip: set<string>)
    requires x.Obj? && y.Obj? && Member(at, k) !in skip && forall d :: !IsMemberDrift(x, y, k, at, skip, d)
    requires k in x.members ==> !x.members[k].Obj? && !x.members[k].Arr?
    ensures k in x.members <==> k in y.members
    ensures k in x.members && k in y.members ==> PyEqual(x.members[k], y.members[k])
  {
    hide IsMemberDrift, PyEqual, Member;
    MemberDriftsShow(x, y, k, at, skip);
  }

  /**
   * A clean verification, with or without overrides, means the same database content, the same tuning
   * and evaluation sessions at every horizon, and the same content of every artifact.
   */
  lemma CleanMeansSameInputs(w: World, a: Args, now: string, other: World, later: string, copy: Option<string>, root: Option<string>)
    requires Build(w, a, now).Ok?
    requires Verify(other, Build(w, a, now).value, copy, root, later) == Ok([])
    ensures a.embargo >= 0 && a.db in w.dbs && copy.GetOr(a.db) in other.dbs
    ensures other.dbs[copy.GetOr(a.db)].sha == w.dbs[a.db].sha && other.dbs[copy.GetOr(a.db)].size == w.dbs[a.db].size
    ensures forall h :: h in a.horizons ==> ArmSessions(other.dbs[copy.GetOr(a.db)], a, h) == ArmSessions(w.dbs[a.db], a, h)
    ensures forall i :: 0 <= i < |a.artifacts| ==>
      SameContent(w.artifact(a.root, a.artifacts[i]), other.artifact(root.GetOr(a.root), a.artifacts[i]))
  {
    hide ArgsFromRecord, Erase, SourceJson, ArgsJson, UnionDates, SortedSet, BuildParts, ArmSessions, HorizonEntries, Walk,
      ArtifactsJson, Differences, SameContent, IsExemption, Exempt, Unexempted, ArtifactItems;
    ArgsRoundTrip(w, a, now);
    var b := a.(db := copy.GetOr(a.db), root := root.GetOr(a.root));
    assert Stored(a).(db := copy.GetOr(a.db), root := root.GetOr(a.root)) == Stored(b);
    StoredBuildsSame(other, b, later);
    var was, again, skip := Build(w, a, now).value, Build(other, b, later).value, Exempt(copy, root);
    var all := skip + VOLATILE;
    ExemptIsExemption(copy, root);
    SectionsOf(w, a);
    SectionsOf(other, b);
    NotExemptSections(all);
    CleanSection(was, again, "source_db", skip, root);
    SameHash(a.db, w.dbs[a.db], b.db, other.dbs[b.db], all);
    CleanSection(was, again, "horizons", skip, root);
    SameSplitArguments(other.dbs[b.db], a, b);
    forall h | h in a.horizons ensures ArmSessions(other.dbs[b.db], a, h) == ArmSessions(w.dbs[a.db], a, h) {
      SameArmSessions(w.dbs[a.db], other.dbs[b.db], a, h, all);
    }
    forall i | 0 <= i < |a.artifacts|
      ensures SameContent(w.artifact(a.root, a.artifacts[i]), other.artifact(b.root, a.artifacts[i]))
    {
      CleanArtifactEntry(was, again, w, a, other, b, skip, root, i);
    }
  }

  lemma NotExemptSections(skip: set<string>)
    requires IsExemption(skip)
    ensures "" !in skip && "horizons" !in skip && "source_db" !in skip && "artifacts" !in skip
  {
  }

  /** The horizon section does not depend on where the database or the artifacts are. */
  lemma SameSplitArguments(db: Database, a: Args, b: Args)
    requires b == a.(db := b.db, root := b.root) && a.embargo >= 0
    ensures HorizonEntries(db, a, AssignSplit(UnionDates(db, a), a.embargo).value, a.horizons)
         == HorizonEntries(db, b, AssignSplit(UnionDates(db, b), b.embargo).value, b.horizons)
  {
    hide UnionDates, HorizonEntries;
    SameExclusionUnion(db, a, db, b);
    SameExclusionEntries(db, a, db, b, AssignSplit(UnionDates(db, a), a.embargo).value, a.horizons);
  }

  /** The case without overrides. */
  lemma CleanMeansSameSessions(w: World, a: Args, now: string, other: World, later: string, h: nat)
    requires Build(w, a, now).Ok? && h in a.horizons
    requires Verify(other, Build(w, a, now).value, None, None, later) == Ok([])
    ensures a.embargo >= 0 && a.db in w.dbs && a.db in other.dbs
    ensures other.dbs[a.db].sha == w.dbs[a.db].sha
    ensures ArmSessions(other.dbs[a.db], a, h) == ArmSessions(w.dbs[a.db], a, h)
  {
    hide Build, Verify, ArmSessions;
    CleanMeansSameInputs(w, a, now, other, later, None, None);
  }

  // ---- reading a built record ----

  function Field(j: Json, k: string): Json {
    Lookup(j, k).GetOr(Null)
  }

  /** The "fwd_5d" member of a section, for h = 5. */
  function OfHorizon(section: Json, h: nat): Json {
    Field(section, "fwd_" + Decimal(h) + "d")
  }

  /** The session list stored under a class of a horizon. */
  function Ids(record: Json, h: nat, part: string): Option<seq<string>> {
    TextList(Field(Field(OfHorizon(Field(record, "horizons"), h), part), "ids"))
  }

  /** The ascending sessions that are neither in the window, ends included, nor named. */
  ghost predicate IsUnexcluded(a: Args, sessions: seq<string>, kept: seq<string>) {
    && Ascending(kept)
    && forall d :: d in kept <==> d in sessions && d !in a.exclude && !(Le(a.window.0, d) && Le(d, a.window.1))
  }

  /** The ascending union of the unexcluded sessions of all horizons. */
  ghost predicate IsUnion(db: Database, a: Args, union: seq<string>) {
    && Ascending(union)
    && forall d :: d in union <==>
         d !in a.exclude && !(Le(a.window.0, d) && Le(d, a.window.1)) && exists h :: h in a.horizons && d in db.sessions(h)
  }

  lemma UnionIsUnexcluded(db: Database, a: Args)
    ensures IsUnion(db, a, UnionDates(db, a))
  {
    hide SortedSet;
    forall d ensures d in UnionDates(db, a) <==>
      d !in a.exclude && !(Le(a.window.0, d) && Le(d, a.window.1)) && exists h :: h in a.horizons && d in db.sessions(h)
    {
      if d in UnionDates(db, a) {
        var h :| h in a.horizons && d in KeptDates(a, db.sessions(h));
        assert h in a.horizons && d in db.sessions(h);
      }
      if h :| h in a.horizons && d in db.sessions(h) && !IsExcluded(a, d) {
        assert h in a.horizons && d in KeptDates(a, db.sessions(h));
      }
    }
  }

  lemma KeptIsUnexcluded(a: Args, sessions: seq<string>)
    requires Ascending(sessions)
    ensures IsUnexcluded(a, sessions, KeptDates(a, sessions))
  {
    hide Among;
    AmongAscending(sessions, set d | d in sessions && !IsExcluded(a, d));
  }

  /** What a build consists of when it succeeds. */
  lemma BuiltSections(w: World, a: Args, now: string)
    requires Build(w, a, now).Ok?
    ensures a.db in w.dbs && a.embargo >= 0
    ensures var record, db := Build(w, a, now).value, w.dbs[a.db];
      var union := UnionDates(db, a);
      var s := AssignSplit(union, a.embargo).value;
      && Field(record, "horizons") == Obj(HorizonEntries(db, a, s, a.horizons))
      && Field(record, "exclusion") == ExclusionJson(db, a)
      && Field(record, "split") == SplitJson(w, a, union, s)
      && Field(record, "data_cutoff") == Obj(CutoffEntries(db, a, a.horizons))
      && Field(record, "source_db") == SourceJson(a.db, db)
      && Field(record, "artifacts") == ArtifactsJson(w, a)
  {
    hide UnionDates, ArgsJson, SourceJson, HorizonEntries, ExcludedEntries, ExclusionJson, CutoffEntries, SplitJson, ArtifactsJson;
  }

  /** Building fails exactly for a missing database, an unsupported horizon or a negative embargo. */
  lemma BuildFailsExactlyWhen(w: World, a: Args, now: string)
    ensures Build(w, a, now).Err? <==>
      a.db !in w.dbs || (exists h :: h in a.horizons && h !in {1, 5, 10, 20, 60}) || a.embargo < 0
  {
    hide UnionDates, ArgsJson, SourceJson, HorizonEntries, ExcludedEntries, ExclusionJson, CutoffEntries, SplitJson, ArtifactsJson;
    assert SUPPORTED == {1, 5, 10, 20, 60};
  }

  lemma CountedReadsBack(ids: seq<string>)
    ensures TextList(Field(Counted(ids), "ids")) == Some(ids)
    ensures Field(Counted(ids), "n") == Num(|ids| as real)
  {
    TextsRoundTrip(ids);
  }

  /** What the record stores for one horizon. */
  lemma StoredEntry(w: World, a: Args, now: string, h: nat)
    requires Build(w, a, now).Ok? && h in a.horizons
    ensures a.db in w.dbs && a.embargo >= 0
    ensures OfHorizon(Field(Build(w, a, now).value, "horizons"), h)
         == HorizonEntry(a, w.dbs[a.db].sessions(h), AssignSplit(UnionDates(w.dbs[a.db], a), a.embargo).value)
  {
    hide HorizonEntries, HorizonEntry, UnionDates, Build;
    BuiltSections(w, a, now);
    EntryPresent(w.dbs[a.db], a, AssignSplit(UnionDates(w.dbs[a.db], a), a.embargo).value, a.horizons, h);
  }

  lemma EntryFields(a: Args, ids: seq<string>, s: Split)
    ensures var entry, kept := HorizonEntry(a, ids, s), KeptDates(a, ids);
      && Field(entry, "tuning") == Counted(Among(kept, Dates(s.tuning)))
      && Field(entry, "embargo") == Counted(Among(kept, Dates(s.embargo)))
      && Field(entry, "evaluation") == Counted(Among(kept, Dates(s.evaluation)))
      && Field(entry, "n_available") == Num(|ids| as real) && Field(entry, "n_kept") == Num(|kept| as real)
      && Field(entry, "n_excluded") == Num(|ExcludedDates(a, ids)| as real)
      && Field(entry, "first") == (if kept == [] then Null else Str(kept[0]))
      && Field(entry, "last") == (if kept == [] then Null else Str(kept[|kept| - 1]))
  {
    hide Counted, KeptDates, ExcludedDates, Among;
  }

  /**
   * The lists of a built record. For every horizon, what is stored under tuning, embargo and
   * evaluation, in this order, is the list of its unexcluded sessions, and every stored count is that
   * of its list.
   */
  lemma RecordListsSessions(w: World, a: Args, now: string, h: nat)
      returns (kept: seq<string>, tuning: seq<string>, embargo: seq<string>, evaluation: seq<string>)
    requires Build(w, a, now).Ok? && h in a.horizons && a.db in w.dbs && Ascending(w.dbs[a.db].sessions(h))
    ensures var record, sessions := Build(w, a, now).value, w.dbs[a.db].sessions(h);
      var entry := OfHorizon(Field(record, "horizons"), h);
      && Ids(record, h, "tuning") == Some(tuning) && Field(Field(entry, "tuning"), "n") == Num(|tuning| as real)
      && Ids(record, h, "embargo") == Some(embargo) && Field(Field(entry, "embargo"), "n") == Num(|embargo| as real)
      && Ids(record, h, "evaluation") == Some(evaluation) && Field(Field(entry, "evaluation"), "n") == Num(|evaluation| as real)
      && IsUnexcluded(a, sessions, kept) && tuning + embargo + evaluation == kept
      && Field(entry, "n_kept") == Num(|kept| as real) && Field(entry, "n_available") == Num(|sessions| as real)
      && (kept != [] ==> Field(entry, "first") == Str(kept[0]) && Field(entry, "last") == Str(kept[|kept| - 1]))
      && (kept == [] ==> Field(entry, "first") == Null && Field(entry, "last") == Null)
  {
    hide HorizonEntry, Among, KeptDates, ExcludedDates, Counted, UnionDates, Build, OfHorizon, Field;
    StoredEntry(w, a, now, h);
    var db := w.dbs[a.db];
    var s := AssignSplit(UnionDates(db, a), a.embargo).value;
    RecordPartitionsHorizon(db, a, h);
    EntryFields(a, db.sessions(h), s);
    kept := KeptDates(a, db.sessions(h));
    tuning, embargo, evaluation := Among(kept, Dates(s.tuning)), Among(kept, Dates(s.embargo)), Among(kept, Dates(s.evaluation));
    KeptIsUnexcluded(a, db.sessions(h));
    CountedReadsBack(tuning);
    CountedReadsBack(embargo);
    CountedReadsBack(evaluation);
  }

  /**
   * No leakage, in the record itself: a session stored under tuning at any horizon lies in the first
   * half, rounded up, of the union of all unexcluded sessions, and more than the embargo before every
   * session stored under evaluation at any horizon.
   */
  lemma StoredTuningPrecedesEvaluation(w: World, a: Args, now: string, h: nat, k: nat, x: string, y: string)
      returns (union: seq<string>, i: nat, j: nat)
    requires Build(w, a, now).Ok? && h in a.horizons && k in a.horizons
    requires a.db in w.dbs && Ascending(w.dbs[a.db].sessions(h)) && Ascending(w.dbs[a.db].sessions(k))
    requires Ids(Build(w, a, now).value, h, "tuning").Some? && x in Ids(Build(w, a, now).value, h, "tuning").value
    requires Ids(Build(w, a, now).value, k, "evaluation").Some? && y in Ids(Build(w, a, now).value, k, "evaluation").value
    ensures IsUnion(w.dbs[a.db], a, union)
    ensures i < (|union| + 1) / 2 <= j < |union| && union[i] == x && union[j] == y
    ensures i + a.embargo < j
  {
    hide HorizonEntry, Among, KeptDates, ExcludedDates, Counted, UnionDates, Build, OfHorizon, Field;
    StoredEntry(w, a, now, h);
    StoredEntry(w, a, now, k);
    var db := w.dbs[a.db];
    union := UnionDates(db, a);
    var s := AssignSplit(union, a.embargo).value;
    UnionIsUnexcluded(db, a);
    EntryFields(a, db.sessions(h), s);
    EntryFields(a, db.sessions(k), s);
    CountedReadsBack(Among(KeptDates(a, db.sessions(h)), Dates(s.tuning)));
    CountedReadsBack(Among(KeptDates(a, db.sessions(k)), Dates(s.evaluation)));
    assert x in s.tuning && y in s.evaluation;
    i :| 0 <= i < |s.tuning| && s.tuning[i] == x;
    var e :| 0 <= e < |s.evaluation| && s.evaluation[e] == y;
    j := |union| - |s.evaluation| + e;
    assert union[i] == x && union[j] == y;
  }

  lemma {:induction false} EntriesPresent(db: Database, a: Args, horizons: seq<nat>, h: nat)
    requires h in horizons
    ensures HorizonKey(h) in ExcludedEntries(db, a, horizons)
    ensures ExcludedEntries(db, a, horizons)[HorizonKey(h)] == Texts(ExcludedDates(a, db.sessions(h)))
    ensures var kept := KeptDates(a, db.sessions(h));
      && HorizonKey(h) + "_max_session" in CutoffEntries(db, a, horizons)
      && CutoffEntries(db, a, horizons)[HorizonKey(h) + "_max_session"] == if kept == [] then Null else Str(kept[|kept| - 1])
  {
    hide KeptDates, ExcludedDates;
    var n := |horizons| - 1;
    if horizons[n] != h {
      EntriesPresent(db, a, horizons[..n], h);
      DifferentKeys(h, horizons[n]);
    }
  }

  lemma DifferentKeys(h: nat, k: nat)
    requires h != k
    ensures HorizonKey(h) != HorizonKey(k) && HorizonKey(h) + "_max_session" != HorizonKey(k) + "_max_session"
  {
    var x, y := HorizonKey(h), HorizonKey(k);
    if x == y {
      assert x[4..|x| - 1] == Decimal(h) && y[4..|y| - 1] == Decimal(k);
      DecimalInjective(h, k);
    }
    assert x == (x + "_max_session")[..|x + "_max_session"| - 12] && y == (y + "_max_session")[..|y + "_max_session"| - 12];
  }

  /** The excluded sessions and the cutoff of every horizon, and the split section, say what they are called. */
  lemma RecordSaysWhatWasExcluded(w: World, a: Args, now: string, h: nat) returns (excluded: seq<string>)
    requires Build(w, a, now).Ok? && h in a.horizons && a.db in w.dbs && Ascending(w.dbs[a.db].sessions(h))
    ensures var record, sessions := Build(w, a, now).value, w.dbs[a.db].sessions(h);
      && TextList(OfHorizon(Field(Field(record, "exclusion"), "excluded_session_ids"), h)) == Some(excluded)
      && Ascending(excluded)
      && (forall d :: d in excluded <==> d in sessions && (d in a.exclude || (Le(a.window.0, d) && Le(d, a.window.1))))
      && Field(OfHorizon(Field(record, "horizons"), h), "n_excluded") == Num(|excluded| as real)
      && Field(Field(record, "data_cutoff"), "fwd_" + Decimal(h) + "d_max_session")
         == Field(OfHorizon(Field(record, "horizons"), h), "last")
  {
    hide HorizonEntry, HorizonEntries, ExcludedEntries, CutoffEntries, Among, KeptDates, Counted, UnionDates, Build, SortedSet;
    BuiltSections(w, a, now);
    StoredEntry(w, a, now, h);
    var db := w.dbs[a.db];
    EntryFields(a, db.sessions(h), AssignSplit(UnionDates(db, a), a.embargo).value);
    excluded := ExcludedDates(a, db.sessions(h));
    EntriesPresent(db, a, a.horizons, h);
    AmongAscending(db.sessions(h), set d | d in db.sessions(h) && IsExcluded(a, d));
    TextsRoundTrip(excluded);
    assert ("fwd_" + Decimal(h) + "d") + "_max_session" == "fwd_" + Decimal(h) + "d_max_session";
  }

  lemma RecordSaysHowItWasSplit(w: World, a: Args, now: string) returns (union: seq<string>)
    requires Build(w, a, now).Ok? && a.db in w.dbs
    ensures IsUnion(w.dbs[a.db], a, union)
    ensures var split := Field(Build(w, a, now).value, "split");
      var half := (|union| + 1) / 2;
      var resume := if half + a.embargo < |union| then half + a.embargo else |union|;
      && a.embargo >= 0
      && Field(split, "embargo_trading_days") == Num(a.embargo as real) && Field(split, "union_n") == Num(|union| as real)
      && Field(split, "tuning_n") == Num(half as real)
      && Field(split, "embargo_n") == Num((resume - half) as real)
      && Field(split, "evaluation_n") == Num((|union| - resume) as real)
      && TextList(Field(split, "embargo_session_ids")) == Some(union[half..resume])
  {
    hide UnionDates, Build, SplitJson, Field, TextList, AssignSplit;
    BuiltSections(w, a, now);
    union := UnionDates(w.dbs[a.db], a);
    UnionIsUnexcluded(w.dbs[a.db], a);
    SplitSizes(union, a.embargo);
    SplitFields(w, a, union, AssignSplit(union, a.embargo).value);
  }

  lemma SplitSizes(union: seq<string>, embargo: nat)
    ensures var half := (|union| + 1) / 2;
      var resume := if half + embargo < |union| then half + embargo else |union|;
      && AssignSplit(union, embargo) == Ok(Split(union[..half], union[half..resume], union[resume..]))
      && |union[..half]| == half && |union[half..resume]| == resume - half && |union[resume..]| == |union| - resume
  {
  }

  lemma SplitFields(w: World, a: Args, union: seq<string>, s: Split)
    ensures var split := SplitJson(w, a, union, s);
      && Field(split, "embargo_trading_days") == Num(a.embargo as real) && Field(split, "union_n") == Num(|union| as real)
      && Field(split, "tuning_n") == Num(|s.tuning| as real) && Field(split, "embargo_n") == Num(|s.embargo| as real)
      && Field(split, "evaluation_n") == Num(|s.evaluation| as real)
      && TextList(Field(split, "embargo_session_ids")) == Some(s.embargo)
  {
    hide TextList, Texts;
    TextsRoundTrip(s.embargo);
  }

  /** The source section names the database and carries its hash, size and modification time. */
  lemma RecordIdentifiesSource(w: World, a: Args, now: string)
    requires Build(w, a, now).Ok? && a.db in w.dbs
    ensures var source, db := Field(Build(w, a, now).value, "source_db"), w.dbs[a.db];
      && Field(source, "path") == Str(a.db) && Field(source, "sha256") == Str(db.sha)
      && Field(source, "size_bytes") == Num(db.size as real) && Field(source, "mtime") == Str(db.mtime)
    ensures Field(Build(w, a, now).value, "generated_at_utc") == Str(now)
  {
    hide UnionDates, HorizonEntries, ExcludedEntries, ExclusionJson, CutoffEntries, SplitJson, ArtifactsJson, ArgsJson, BuildParts;
    BuildNeedsDatabase(w, a);
  }
}
