/** The liveness scan: classify each scheduled job, re-judge stale verdicts in place, count statuses. */
module Liveness {
  import opened Firings
  import opened Prelude
  import Tally

  const MISSED_FIRINGS_TOLERANCE: nat := 2

  /** Timestamp 0, the modification time assumed for an absent log. */
  const EPOCH: int := 719_163 * DAY

  datatype Status =
    | EvidenceFresh
    | NoEvidenceStale
    | StaleButSiblingIsNewer
    | StaleAmbiguousSharedDir
    | NoLogPath
    | NoSchedule
    | NoPlist

  datatype Surface = EvidenceGlob | GlobNoMatch | StandardOut | NoSurface

  /** The value of StartCalendarInterval; a list may hold items that are not dictionaries. */
  datatype Schedule = Absent | One(entry: Entry) | Many(items: seq<Option<Entry>>) | OtherType

  /** A parsed plist; an absent or empty StandardOutPath is None. Its root may be something else than a dictionary. */
  datatype Plist = Plist(schedule: Schedule, standardOut: Option<string>) | NotADictionary

  /** The manifest's evidence_glob, and the newest file it matches. */
  datatype Glob = NotDeclared | NoMatch | Newest(path: string)

  /** A file in a log directory. */
  datatype Sibling = Sibling(name: string, isFile: bool, size: nat, mtime: int)

  /** What the scan reads from disk. */
  datatype Disk = Disk(
    mtime: string -> Option<int>,           // of a log path; None when it does not exist
    directory: string -> string,            // the real directory of a log path
    name: string -> string,                 // its file name
    listing: string -> Option<seq<Sibling>> // of the directory of a log path; None on OSError
  )

  datatype Job = Job(id: string, plist: Option<Plist>, glob: Glob)

  /** What corroboration records besides the status. */
  datatype Notes = Notes(owners: set<string>, sibling: Option<string>, siblingMissed: Option<nat>, siblingWrite: Option<int>)

  const NO_NOTES := Notes({}, None, None, None)

  datatype Row = Row(id: string, status: Status, surface: Surface, log: Option<string>,
                     entries: Option<seq<Entry>>, missed: Option<nat>, notes: Notes)

  /** What escapes the scan of a job. */
  datatype ScanError = PlistHasNoKeys | BadScheduleValue

  // ---- scan_job ----

  /** The dictionaries of a list, in order. */
  function Dictionaries(items: seq<Option<Entry>>): seq<Entry> {
    if items == [] then []
    else
      var n := |items| - 1;
      Dictionaries(items[..n]) + if items[n].Some? then [items[n].value] else []
  }

  function ScheduleEntries(s: Schedule): (r: Option<seq<Entry>>)
    ensures r.Some? ==> r.value != []
  {
    match s
    case One(e) => Some([e])
    case Many(items) => if Dictionaries(items) == [] then None else Some(Dictionaries(items))
    case _ => None
  }

  /** Every dictionary of a list is an entry, as often as it is listed, and nothing else is. */
  lemma {:induction false} DictionariesKeepAll(items: seq<Option<Entry>>, e: Entry)
    ensures multiset(Dictionaries(items))[e] == multiset(items)[Some(e)]
  {
    if items != [] {
      var n := |items| - 1;
      DictionariesKeepAll(items[..n], e);
      assert items == items[..n] + [items[n]];
      assert Dictionaries(items) == Dictionaries(items[..n]) + if items[n].Some? then [items[n].value] else [];
    }
  }

  /** A dictionary is one entry; of a list, exactly its dictionaries are; anything else is no schedule. */
  lemma EntriesAreTheDictionaries(s: Schedule)
    ensures s.One? ==> ScheduleEntries(s) == Some([s.entry])
    ensures s.Many? ==> (ScheduleEntries(s).Some? <==> exists i :: 0 <= i < |s.items| && s.items[i].Some?)
    ensures s.Many? && ScheduleEntries(s).Some? ==>
      forall e :: multiset(ScheduleEntries(s).value)[e] == multiset(s.items)[Some(e)]
    ensures s.Absent? || s.OtherType? ==> ScheduleEntries(s) == None
  {
    hide Dictionaries;
    if s.Many? {
      forall e ensures multiset(Dictionaries(s.items))[e] == multiset(s.items)[Some(e)] {
        DictionariesKeepAll(s.items, e);
      }
      if i :| 0 <= i < |s.items| && s.items[i].Some? {
        assert multiset(s.items)[Some(s.items[i].value)] > 0;
        assert s.items[i].value in multiset(Dictionaries(s.items));
      }
      if Dictionaries(s.items) != [] {
        var e := Dictionaries(s.items)[0];
        assert e in multiset(Dictionaries(s.items));
        assert Some(e) in multiset(s.items);
        var i :| 0 <= i < |s.items| && s.items[i] == Some(e);
      }
    }
  }

  function EvidenceSurface(job: Job): Result<(Option<string>, Surface), ScanError>
    requires job.plist.Some?
  {
    match job.glob
    case Newest(path) => Ok((Some(path), EvidenceGlob))
    case NoMatch => Ok((None, GlobNoMatch))
    case NotDeclared =>
      match job.plist.value
      case NotADictionary => Err(PlistHasNoKeys)
      case Plist(_, Some(path)) => Ok((Some(path), StandardOut))
      case Plist(_, None) => Ok((None, NoSurface))
  }

  /** The file whose last write is the job's evidence. */
  function LogOf(job: Job): Option<string> {
    match job.glob
    case Newest(path) => Some(path)
    case NoMatch => None
    case NotDeclared => if job.plist.Some? && job.plist.value.Plist? then job.plist.value.standardOut else None
  }

  /** The job has a log path and a schedule to hold it to. */
  predicate HasCadence(job: Job) {
    && job.plist.Some? && job.plist.value.Plist?
    && LogOf(job).Some? && ScheduleEntries(job.plist.value.schedule).Some?
  }

  function Cadence(job: Job): seq<Entry>
    requires HasCadence(job)
  {
    ScheduleEntries(job.plist.value.schedule).value
  }

  /** The job's log exists, and its schedule only uses keys that are implemented. */
  ghost predicate IsJudged(job: Job, disk: Disk) {
    HasCadence(job) && disk.mtime(LogOf(job).value).Some? && !Unsupported(Cadence(job))
  }

  /** How many firings have elapsed since the job's log was last written. */
  ghost function Missed(job: Job, now: int, disk: Disk, cal: Calendar): nat
    requires IsJudged(job, disk)
  {
    |AllFirings(Cadence(job), disk.mtime(LogOf(job).value).value, now, cal)|
  }

  /** The scan of the job fails. */
  ghost predicate Raises(job: Job, now: int, disk: Disk, cal: Calendar) {
    if job.plist == Some(NotADictionary) then job.glob != NoMatch
    else IsJudged(job, disk) && HitsBadValue(Cadence(job), disk.mtime(LogOf(job).value).value, now, cal)
  }

  /** The row of one job, or the exception that escapes. */
  ghost function Scanned(job: Job, now: int, disk: Disk, cal: Calendar): Result<Row, ScanError> {
    var blank := Row(job.id, NoPlist, NoSurface, None, None, None, NO_NOTES);
    if job.plist.None? then Ok(blank)
    else match EvidenceSurface(job)
      case Err(e) => Err(e)
      case Ok((log, surface)) =>
        var row := blank.(surface := surface, log := log);
        if log.None? then Ok(row.(status := NoLogPath))
        else if job.plist.value.NotADictionary? then Err(PlistHasNoKeys)
        else match ScheduleEntries(job.plist.value.schedule)
          case None => Ok(row.(status := NoSchedule))
          case Some(entries) =>
            match disk.mtime(log.value)
            case None => Ok(row.(entries := Some(entries), status := NoEvidenceStale))
            case Some(written) =>
              match Expected(entries, written, now, cal)
              case Err(BadValue) => Err(BadScheduleValue)
              case Err(_) => Ok(row.(entries := Some(entries), status := NoSchedule))
              case Ok(n) => Ok(row.(entries := Some(entries), missed := Some(n),
                                    status := if n >= MISSED_FIRINGS_TOLERANCE then NoEvidenceStale else EvidenceFresh))
  }

  /** A declared glob is the evidence, matched or not; standard output only stands in for it. */
  predicate IsRecordedSurface(job: Job, log: Option<string>, surface: Surface) {
    match job.glob
    case Newest(path) => log == Some(path) && surface == EvidenceGlob
    case NoMatch => log == None && surface == GlobNoMatch
    case NotDeclared =>
      job.plist.Some? && job.plist.value.Plist? ==>
        log == job.plist.value.standardOut && surface == if log.Some? then StandardOut else NoSurface
  }

  /** What the row records besides its status. */
  ghost predicate IsRecorded(job: Job, now: int, disk: Disk, cal: Calendar, row: Row) {
    && (job.plist.Some? ==> IsRecordedSurface(job, row.log, row.surface) && row.log == LogOf(job))
    && (HasCadence(job) ==> row.entries == Some(Cadence(job)))
    && (IsJudged(job, disk) ==> row.missed == Some(Missed(job, now, disk, cal)))
    && (!IsJudged(job, disk) ==> row.missed == None)
    && row.notes == NO_NOTES
  }

  /** A verdict, and what each status says about the job. */
  method ScanJob(job: Job, now: int, disk: Disk, cal: Calendar) returns (r: Result<Row, ScanError>)
    ensures r == Scanned(job, now, disk, cal)
    ensures r.Err? <==> Raises(job, now, disk, cal)
    ensures r.Ok? ==> r.value.id == job.id && IsRecorded(job, now, disk, cal, r.value)
    ensures r.Ok? ==> (r.value.status == EvidenceFresh <==> IsJudged(job, disk) && Missed(job, now, disk, cal) < 2)
    ensures r.Ok? ==> (r.value.status == NoEvidenceStale <==>
      HasCadence(job) && (disk.mtime(LogOf(job).value).None?
        || (IsJudged(job, disk) && Missed(job, now, disk, cal) >= 2)))
    ensures r.Ok? ==> (r.value.status == NoSchedule <==>
      job.plist.Some? && LogOf(job).Some?
      && (!HasCadence(job) || (disk.mtime(LogOf(job).value).Some? && Unsupported(Cadence(job)))))
    ensures r.Ok? ==> (r.value.status == NoLogPath <==> job.plist.Some? && LogOf(job).None?)
    ensures r.Ok? ==> (r.value.status == NoPlist <==> job.plist.None?)
  {
    hide Unsupported, HitsBadValue, AllFirings, Dictionaries;
    var row := Row(job.id, NoPlist, NoSurface, None, None, None, NO_NOTES);
    if job.plist.None? {
      return Ok(row);
    }
    var evidence := EvidenceSurface(job);
    if evidence.Err? {
      return Err(evidence.error);
    }
    var (log, surface) := evidence.value;
    row := row.(surface := surface, log := log);
    if log.None? {
      return Ok(row.(status := NoLogPath));
    }
    if job.plist.value.NotADictionary? {
      return Err(PlistHasNoKeys);
    }
    var entries := ScheduleEntries(job.plist.value.schedule);
    if entries.None? {
      return Ok(row.(status := NoSchedule));
    }
    row := row.(entries := entries);
    var lastWrite := disk.mtime(log.value);
    if lastWrite.None? {
      return Ok(row.(status := NoEvidenceStale));
    }
    var missed := ExpectedFirings(entries.value, lastWrite.value, now, cal);
    match missed
    case Err(UnsupportedScheduleKey) => return Ok(row.(status := NoSchedule));
    case Err(BadValue) => return Err(BadScheduleValue);
    case Ok(n) =>
      row := row.(missed := Some(n));
      return Ok(row.(status := if n >= MISSED_FIRINGS_TOLERANCE then NoEvidenceStale else EvidenceFresh));
  }

  /**
   * "Never raises" holds exactly when the plist is a dictionary, if it is looked into, and the job is
   * not judged on a schedule with a value that is no integer or no time of day on a visited day.
   */
  lemma ScanRaisesExactlyOnBadInput(job: Job, now: int, disk: Disk, cal: Calendar)
    ensures Scanned(job, now, disk, cal).Err? <==> Raises(job, now, disk, cal)
  {
    hide Unsupported, HitsBadValue, AllFirings, Dictionaries;
  }

  /** A daily job on one log, due at the given hour. */
  function DailyJob(hour: Number): Job {
    Job("daily", Some(Plist(One(map["Hour" := hour]), Some("log"))), NotDeclared)
  }

  /** Such a job fails to scan exactly when its hour is no integer in [0, 24) and its log is older than the scan. */
  lemma BadHourRaises(hour: Number, now: int, disk: Disk, cal: Calendar)
    requires disk.mtime("log").Some?
    ensures Scanned(DailyJob(hour), now, disk, cal) == Err(BadScheduleValue)
       <==> disk.mtime("log").value < now && !(hour.Int? && 0 <= hour.n < 24)
  {
    hide AllFirings;
    var e: Entry, since := map["Hour" := hour], disk.mtime("log").value;
    assert ScheduleEntries(One(e)) == Some([e]);
    assert forall k :: k in e ==> k in SUPPORTED_KEYS;
    assert forall day :: VisitOn(e, day, cal) == Raise <==> !(hour.Int? && 0 <= hour.n < 24);
    if since < now {
      DayOrder(since, now);
      assert [e][0] == e;
      assert VisitOn([e][0], since / DAY, cal) == Raise ==> HitsBadValue([e], since, now, cal);
    }
  }

  /** The simplest failing inputs: an hour of 24, and an hour that is no number. */
  lemma HourTwentyFourRaises(disk: Disk, cal: Calendar)
    requires disk.mtime("log") == Some(0)
    ensures Scanned(DailyJob(Int(24)), 1, disk, cal) == Err(BadScheduleValue)
    ensures Scanned(DailyJob(NotAnInt), 1, disk, cal) == Err(BadScheduleValue)
  {
    BadHourRaises(Int(24), 1, disk, cal);
    BadHourRaises(NotAnInt, 1, disk, cal);
  }

  /** On an unchanged disk staleness only grows: a stale job is stale at every later scan that does not fail. */
  lemma StaleStaysStale(job: Job, now: int, later: int, disk: Disk, cal: Calendar)
    requires now <= later
    requires Scanned(job, now, disk, cal).Ok? && Scanned(job, now, disk, cal).value.status == NoEvidenceStale
    requires Scanned(job, later, disk, cal).Ok?
    ensures Scanned(job, later, disk, cal).value.status == NoEvidenceStale
  {
    hide Unsupported, HitsBadValue, AllFirings, Dictionaries;
    if IsJudged(job, disk) {
      CountGrows(Cadence(job), disk.mtime(LogOf(job).value).value, now, later, cal);
    }
  }

  lemma CountGrows(entries: seq<Entry>, since: int, now: int, later: int, cal: Calendar)
    requires now <= later
    ensures |AllFirings(entries, since, now, cal)| <= |AllFirings(entries, since, later, cal)|
  {
    hide Fires;
    if since <= now {
      AllFiringsSplit(entries, since, now, later, cal);
    } else {
      assert AllFirings(entries, since, now, cal) == {};
    }
  }

  // ---- corroborate ----

  predicate Proper(s: Sibling, logName: string) {
    s.isFile && s.name != logName && s.size > 0
  }

  /** File i is nonempty and not the log; no other such file is newer, and no earlier one as new. */
  ghost predicate IsFirstNewest(files: seq<Sibling>, logName: string, i: int) {
    && 0 <= i < |files| && files[i].isFile && files[i].name != logName && files[i].size > 0
    && (forall j :: 0 <= j < |files| && files[j].isFile && files[j].name != logName && files[j].size > 0 ==>
          files[j].mtime <= files[i].mtime && (files[j].mtime == files[i].mtime ==> i <= j))
  }

  /** The first newest proper sibling: the loop keeps a file only when it is strictly newer. */
  function NewestSibling(files: seq<Sibling>, logName: string): (r: Option<Sibling>)
    ensures r.Some? ==> r.value in files && Proper(r.value, logName)
    ensures r.Some? ==> forall f :: f in files && Proper(f, logName) ==> f.mtime <= r.value.mtime
    ensures r.None? ==> forall f :: f in files ==> !Proper(f, logName)
  {
    if files == [] then None
    else
      var n := |files| - 1;
      var best := NewestSibling(files[..n], logName);
      if Proper(files[n], logName) && (best.None? || files[n].mtime > best.value.mtime) then Some(files[n]) else best
  }

  /** The labels of all rows whose log lives in directory d. */
  function Owners(rows: seq<Row>, d: string, disk: Disk): set<string> {
    set r | r in rows && r.log.Some? && disk.directory(r.log.value) == d :: r.id
  }

  function NewerSibling(row: Row, newest: Sibling): Result<Row, FiringError> {
    Ok(row.(status := StaleButSiblingIsNewer,
            notes := row.notes.(sibling := Some(newest.name), siblingWrite := Some(newest.mtime))))
  }

  function StaleSibling(row: Row, newest: Sibling, missed: nat): Result<Row, FiringError> {
    Ok(row.(notes := row.notes.(sibling := Some(newest.name), siblingMissed := Some(missed))))
  }

  /** What corroboration makes of one stale proxy verdict. */
  ghost function Rejudged(row: Row, owners: set<string>, now: int, disk: Disk, cal: Calendar): Result<Row, FiringError> {
    if row.status != NoEvidenceStale || row.log.None? || row.surface == EvidenceGlob then Ok(row)
    else if |owners| > 1 then Ok(row.(status := StaleAmbiguousSharedDir, notes := row.notes.(owners := owners)))
    else match disk.listing(row.log.value)
      case None => Ok(row)
      case Some(files) =>
        match NewestSibling(files, disk.name(row.log.value))
        case None => Ok(row)
        case Some(newest) =>
          if newest.mtime <= disk.mtime(row.log.value).GetOr(EPOCH) then Ok(row)
          else if row.entries.None? then NewerSibling(row, newest)
          else match Expected(row.entries.value, newest.mtime, now, cal)
            case Err(BadValue) => Err(BadValue)
            case Err(_) => Ok(row)
            case Ok(n) =>
              if n >= MISSED_FIRINGS_TOLERANCE then StaleSibling(row, newest, n)
              else NewerSibling(row, newest)
  }

  ghost function RejudgedIn(rows: seq<Row>, row: Row, now: int, disk: Disk, cal: Calendar): Result<Row, FiringError> {
    Rejudged(row, if row.log.Some? then Owners(rows, disk.directory(row.log.value), disk) else {}, now, disk, cal)
  }

  /** Rows below i are re-judged, rows from i on are as they were. */
  ghost predicate RejudgedBelow(before: seq<Row>, after: seq<Row>, i: nat, now: int, disk: Disk, cal: Calendar)
    requires |before| == |after| && i <= |before|
  {
    && (forall j :: 0 <= j < i ==> RejudgedIn(before, before[j], now, disk, cal) == Ok(after[j]))
    && (forall j :: i <= j < |before| ==> after[j] == before[j])
  }

  /** Row i raises, those before it are re-judged, and the rest is untouched. */
  ghost predicate StoppedAt(before: seq<Row>, after: seq<Row>, i: nat, now: int, disk: Disk, cal: Calendar)
    requires |before| == |after| && i < |before|
  {
    RejudgedIn(before, before[i], now, disk, cal).Err? && RejudgedBelow(before, after, i, now, disk, cal)
  }

  /** Re-judge every row in place; at the first row that raises, those before it stay changed and the rest untouched. */
  method Corroborate(rows: array<Row>, now: int, disk: Disk, cal: Calendar) returns (raised: bool)
    modifies rows
    ensures raised <==> exists i :: 0 <= i < rows.Length && RejudgedIn(old(rows[..]), old(rows[i]), now, disk, cal).Err?
    ensures !raised ==> RejudgedBelow(old(rows[..]), rows[..], rows.Length, now, disk, cal)
    ensures raised ==> exists i :: 0 <= i < rows.Length && StoppedAt(old(rows[..]), rows[..], i, now, disk, cal)
  {
    hide Rejudged, Owners;
    var before := rows[..];
    for i := 0 to rows.Length
      invariant RejudgedBelow(before, rows[..], i, now, disk, cal)
    {
      var r := rows[i];
      var owners := if r.log.Some? then Owners(before, disk.directory(r.log.value), disk) else {};
      var judged := Rejudge(r, owners, now, disk, cal);
      if judged.Err? {
        assert StoppedAt(before, rows[..], i, now, disk, cal);
        return true;
      }
      rows[i] := judged.value;
    }
    return false;
  }

  method Rejudge(row: Row, owners: set<string>, now: int, disk: Disk, cal: Calendar) returns (r: Result<Row, FiringError>)
    ensures r == Rejudged(row, owners, now, disk, cal)
  {
    if row.status != NoEvidenceStale || row.log.None? || row.surface == EvidenceGlob {
      return Ok(row);
    }
    if |owners| > 1 {
      return Ok(row.(status := StaleAmbiguousSharedDir, notes := row.notes.(owners := owners)));
    }
    var files := disk.listing(row.log.value);
    if files.None? {
      return Ok(row);
    }
    var newest := FindNewest(files.value, disk.name(row.log.value));
    if newest.None? || newest.value.mtime <= disk.mtime(row.log.value).GetOr(EPOCH) {
      return Ok(row);
    }
    if row.entries.Some? {
      var missed := ExpectedFirings(row.entries.value, newest.value.mtime, now, cal);
      match missed
      case Err(UnsupportedScheduleKey) => return Ok(row);
      case Err(BadValue) => return Err(BadValue);
      case Ok(n) =>
        if n >= MISSED_FIRINGS_TOLERANCE {
          return StaleSibling(row, newest.value, n);
        }
    }
    return NewerSibling(row, newest.value);
  }

  method FindNewest(files: seq<Sibling>, logName: string) returns (newest: Option<Sibling>)
    ensures newest == NewestSibling(files, logName)
  {
    newest := None;
    for i := 0 to |files|
      invariant newest == NewestSibling(files[..i], logName)
    {
      var f := files[i];
      assert files[..i + 1][..i] == files[..i];
      if f.isFile && f.name != logName && f.size > 0 {
        if newest.None? || f.mtime > newest.value.mtime {
          newest := Some(f);
        }
      }
    }
    assert files[..|files|] == files;
  }

  // ---- what corroboration may do ----

  /** Only a stale proxy verdict changes, it never becomes fresh, and nothing else of the row changes but the note. */
  lemma OnlyLeavesStale(rows: seq<Row>, row: Row, now: int, disk: Disk, cal: Calendar)
    requires RejudgedIn(rows, row, now, disk, cal).Ok?
    ensures var after := RejudgedIn(rows, row, now, disk, cal).value;
      && (after.status == EvidenceFresh ==> row.status == EvidenceFresh)
      && (after.status != row.status ==>
            row.status == NoEvidenceStale && row.surface != EvidenceGlob
            && (after.status == StaleAmbiguousSharedDir || after.status == StaleButSiblingIsNewer))
      && after == row.(status := after.status, notes := after.notes)
      && (row.status != NoEvidenceStale || row.surface == EvidenceGlob || row.log.None? ==> after == row)
  {
    hide Expected, Owners;
  }

  /** Ownership of a directory, and so every verdict, ignores the order of the results. */
  lemma OrderDoesNotMatter(rows: seq<Row>, other: seq<Row>, row: Row, now: int, disk: Disk, cal: Calendar)
    requires multiset(rows) == multiset(other)
    ensures RejudgedIn(rows, row, now, disk, cal) == RejudgedIn(other, row, now, disk, cal)
  {
    hide Rejudged;
    forall r ensures r in rows <==> r in other {
      assert r in multiset(rows) <==> r in multiset(other);
    }
    forall d ensures Owners(rows, d, disk) == Owners(other, d, disk) {
    }
  }

  /** Re-judging keeps labels and logs, hence the owners of every directory: a second pass changes nothing. */
  lemma SecondPassIsIdle(rows: seq<Row>, after: seq<Row>, now: int, disk: Disk, cal: Calendar)
    requires |rows| == |after|
    requires forall i :: 0 <= i < |rows| ==> RejudgedIn(rows, rows[i], now, disk, cal) == Ok(after[i])
    ensures forall i :: 0 <= i < |rows| ==> RejudgedIn(after, after[i], now, disk, cal) == Ok(after[i])
  {
    hide Expected, Owners;
    forall i | 0 <= i < |rows| ensures after[i].id == rows[i].id && after[i].log == rows[i].log {
      OnlyLeavesStale(rows, rows[i], now, disk, cal);
    }
    forall i | 0 <= i < |rows| ensures RejudgedIn(after, after[i], now, disk, cal) == Ok(after[i]) {
      SameOwners(rows, after, disk);
    }
  }

  lemma SameOwners(rows: seq<Row>, after: seq<Row>, disk: Disk)
    requires |rows| == |after|
    requires forall i :: 0 <= i < |rows| ==> after[i].id == rows[i].id && after[i].log == rows[i].log
    ensures forall d :: Owners(rows, d, disk) == Owners(after, d, disk)
  {
    forall d ensures Owners(rows, d, disk) == Owners(after, d, disk) {
      forall x ensures x in Owners(rows, d, disk) <==> x in Owners(after, d, disk) {
        if x in Owners(rows, d, disk) {
          var i :| 0 <= i < |rows| && rows[i].log.Some? && disk.directory(rows[i].log.value) == d && rows[i].id == x;
          assert after[i] in after;
        }
        if x in Owners(after, d, disk) {
          var i :| 0 <= i < |after| && after[i].log.Some? && disk.directory(after[i].log.value) == d && after[i].id == x;
          assert rows[i] in rows;
        }
      }
    }
  }

  /**
   * A sibling newer than a present watched log never shows more missed firings than the log itself,
   * so corroboration can only soften the measured staleness; and it is sound: the sibling it names
   * has missed fewer firings than the tolerance.
   */
  lemma SiblingMissesNoMore(row: Row, newest: Sibling, now: int, disk: Disk, cal: Calendar)
    requires row.log.Some? && row.entries.Some? && row.missed.Some? && disk.mtime(row.log.value).Some?
    requires Expected(row.entries.value, disk.mtime(row.log.value).value, now, cal) == Ok(row.missed.value)
    requires newest.mtime > disk.mtime(row.log.value).value
    ensures Expected(row.entries.value, newest.mtime, now, cal).Ok?
    ensures Expected(row.entries.value, newest.mtime, now, cal).value <= row.missed.value
  {
    LaterStartCountsFewer(row.entries.value, disk.mtime(row.log.value).value, newest.mtime, now, cal);
  }

  /** A nonempty neighbour file, written after the watched log, that misses fewer firings than the tolerance. */
  ghost predicate IsFreshSibling(row: Row, f: Sibling, now: int, disk: Disk, cal: Calendar)
    requires row.log.Some?
  {
    && Proper(f, disk.name(row.log.value))
    && f.mtime > disk.mtime(row.log.value).GetOr(EPOCH)
    && (row.entries.Some? ==>
          match Expected(row.entries.value, f.mtime, now, cal)
          case Ok(n) => n < MISSED_FIRINGS_TOLERANCE
          case Err(_) => false)
  }

  lemma SiblingClaimIsFresh(rows: seq<Row>, row: Row, now: int, disk: Disk, cal: Calendar)
    requires RejudgedIn(rows, row, now, disk, cal).Ok? && row.status == NoEvidenceStale
    requires RejudgedIn(rows, row, now, disk, cal).value.status == StaleButSiblingIsNewer
    ensures row.log.Some? && |Owners(rows, disk.directory(row.log.value), disk)| <= 1
    ensures disk.listing(row.log.value).Some?
    ensures exists f :: f in disk.listing(row.log.value).value && IsFreshSibling(row, f, now, disk, cal)
  {
    hide Expected, Owners;
  }

  /** Another job's row has its log in the same directory. */
  ghost predicate IsShared(rows: seq<Row>, row: Row, disk: Disk)
    requires row.log.Some?
  {
    exists other :: other in rows && other.log.Some? && other.id != row.id
      && disk.directory(other.log.value) == disk.directory(row.log.value)
  }

  lemma SharedMeansTwoOwners(rows: seq<Row>, row: Row, disk: Disk)
    requires row in rows && row.log.Some?
    ensures |Owners(rows, disk.directory(row.log.value), disk)| > 1 <==> IsShared(rows, row, disk)
  {
    var owners := Owners(rows, disk.directory(row.log.value), disk);
    assert row.id in owners;
    if IsShared(rows, row, disk) {
      var other :| other in rows && other.log.Some? && other.id != row.id
        && disk.directory(other.log.value) == disk.directory(row.log.value);
      assert other.id in owners;
      assert {row.id, other.id} <= owners;
      StringsCount({row.id, other.id}, owners);
    } else {
      assert owners == {row.id};
    }
  }

  lemma StringsCount(a: set<string>, b: set<string>)
    requires a <= b
    ensures |a| <= |b|
  {
    assert b == a + (b - a);
  }

  /** The first newest sibling of the row's log, which was written after the log. */
  ghost predicate IsNewerSibling(row: Row, files: seq<Sibling>, i: int, disk: Disk)
    requires row.log.Some?
  {
    && IsFirstNewest(files, disk.name(row.log.value), i)
    && files[i].mtime > disk.mtime(row.log.value).GetOr(EPOCH)
  }

  /** How a sibling written at `mtime` changes a stale row, if it does not raise. */
  ghost predicate IsSiblingVerdict(row: Row, after: Row, f: Sibling, now: int, cal: Calendar) {
    if row.entries.None? then
      && after.status == StaleButSiblingIsNewer
      && after.notes == row.notes.(sibling := Some(f.name), siblingWrite := Some(f.mtime))
    else match Expected(row.entries.value, f.mtime, now, cal)
      case Ok(n) =>
        if n < 2 then
          && after.status == StaleButSiblingIsNewer
          && after.notes == row.notes.(sibling := Some(f.name), siblingWrite := Some(f.mtime))
        else
          && after.status == NoEvidenceStale
          && after.notes == row.notes.(sibling := Some(f.name), siblingMissed := Some(n))
      case Err(_) => after == row
  }

  /**
   * Exactly what becomes of a stale proxy row: ambiguous if and only if another job writes to its
   * directory; otherwise decided by the first newest sibling written after its log, which makes it
   * "sibling is newer" if and only if it has missed fewer than two firings; otherwise unchanged.
   */
  lemma CorroborationVerdict(rows: seq<Row>, row: Row, now: int, disk: Disk, cal: Calendar)
    requires row in rows && row.log.Some? && row.status == NoEvidenceStale && row.surface != EvidenceGlob
    requires RejudgedIn(rows, row, now, disk, cal).Ok?
    ensures var after := RejudgedIn(rows, row, now, disk, cal).value;
      && (after.status == StaleAmbiguousSharedDir <==> IsShared(rows, row, disk))
      && (IsShared(rows, row, disk) ==> after.notes == row.notes.(owners := Owners(rows, disk.directory(row.log.value), disk)))
      && (!IsShared(rows, row, disk) ==>
            if disk.listing(row.log.value).Some?
               && exists i :: 0 <= i < |disk.listing(row.log.value).value| && IsNewerSibling(row, disk.listing(row.log.value).value, i, disk)
            then
              forall i :: 0 <= i < |disk.listing(row.log.value).value| && IsNewerSibling(row, disk.listing(row.log.value).value, i, disk) ==>
                IsSiblingVerdict(row, after, disk.listing(row.log.value).value[i], now, cal)
            else after == row)
  {
    hide Expected, Owners, IsFirstNewest;
    SharedMeansTwoOwners(rows, row, disk);
    if disk.listing(row.log.value).Some? {
      var files, name := disk.listing(row.log.value).value, disk.name(row.log.value);
      NewestIsFirst(files, name);
      if NewestSibling(files, name).Some? {
        var i :| 0 <= i < |files| && IsFirstNewest(files, name, i) && NewestSibling(files, name) == Some(files[i]);
        assert IsNewerSibling(row, files, i, disk) <==> files[i].mtime > disk.mtime(row.log.value).GetOr(EPOCH);
      }
    }
  }

  lemma FirstNewestExtends(files: seq<Sibling>, logName: string)
    requires files != []
    ensures var n := |files| - 1;
      forall i :: IsFirstNewest(files[..n], logName, i) && !(Proper(files[n], logName) && files[n].mtime > files[i].mtime) ==>
        IsFirstNewest(files, logName, i) && files[i] == files[..n][i]
  {
    var n := |files| - 1;
    assert forall j :: 0 <= j < n ==> files[..n][j] == files[j];
  }

  /** There is one first newest file, and it is the one that is found; without one there is no nonempty neighbour. */
  lemma {:induction false} NewestIsFirst(files: seq<Sibling>, logName: string)
    ensures var r := NewestSibling(files, logName);
      && (r.Some? ==> exists i :: 0 <= i < |files| && IsFirstNewest(files, logName, i) && r == Some(files[i]))
      && (forall i :: 0 <= i < |files| && IsFirstNewest(files, logName, i) ==> r == Some(files[i]))
      && (r.None? ==> forall f :: f in files ==> !(f.isFile && f.name != logName && f.size > 0))
  {
    if files != [] {
      var n := |files| - 1;
      NewestIsFirst(files[..n], logName);
      FirstNewestExtends(files, logName);
      var best := NewestSibling(files[..n], logName);
      assert files[n] in files;
      if Proper(files[n], logName) && (best.None? || files[n].mtime > best.value.mtime) {
        LastIsFirstNewest(files, logName);
      } else if best.Some? {
        var i :| 0 <= i < n && IsFirstNewest(files[..n], logName, i) && best == Some(files[..n][i]);
        assert IsFirstNewest(files, logName, i);
      }
      forall i | 0 <= i < |files| && IsFirstNewest(files, logName, i) ensures NewestSibling(files, logName) == Some(files[i]) {
        OneFirstNewest(files, logName, i);
      }
    }
  }

  lemma LastIsFirstNewest(files: seq<Sibling>, logName: string)
    requires files != [] && Proper(files[|files| - 1], logName)
    requires var best := NewestSibling(files[..|files| - 1], logName); best.None? || files[|files| - 1].mtime > best.value.mtime
    ensures IsFirstNewest(files, logName, |files| - 1)
  {
    var n := |files| - 1;
    assert forall j :: 0 <= j < n ==> files[..n][j] == files[j] && files[j] in files[..n];
  }

  lemma OneFirstNewest(files: seq<Sibling>, logName: string, i: int)
    requires IsFirstNewest(files, logName, i)
    requires exists j :: 0 <= j < |files| && IsFirstNewest(files, logName, j) && NewestSibling(files, logName) == Some(files[j])
    ensures NewestSibling(files, logName) == Some(files[i])
  {
    var j :| 0 <= j < |files| && IsFirstNewest(files, logName, j) && NewestSibling(files, logName) == Some(files[j]);
    assert i == j;
  }

  /** And exactly when it raises: the deciding sibling's interval visits a bad value. */
  lemma CorroborationRaises(rows: seq<Row>, row: Row, now: int, disk: Disk, cal: Calendar)
    requires row in rows
    ensures RejudgedIn(rows, row, now, disk, cal).Err? <==>
      && row.status == NoEvidenceStale && row.log.Some? && row.surface != EvidenceGlob
      && !IsShared(rows, row, disk) && disk.listing(row.log.value).Some? && row.entries.Some?
      && exists i :: 0 <= i < |disk.listing(row.log.value).value|
           && IsNewerSibling(row, disk.listing(row.log.value).value, i, disk)
           && Expected(row.entries.value, disk.listing(row.log.value).value[i].mtime, now, cal) == Err(BadValue)
  {
    hide Unsupported, HitsBadValue, AllFirings, Owners;
    if row.log.Some? {
      SharedMeansTwoOwners(rows, row, disk);
      if disk.listing(row.log.value).Some? {
        NewestIsFirst(disk.listing(row.log.value).value, disk.name(row.log.value));
      }
    }
  }

  // ---- scan ----

  function StatusOf(r: Row): Status {
    r.status
  }

  function CountOf(rows: seq<Row>, s: Status): nat {
    Tally.CountOf(rows, StatusOf, s)
  }

  method CountStatuses(rows: seq<Row>) returns (counts: map<Status, nat>)
    ensures forall s :: (s in counts <==> CountOf(rows, s) > 0) && (s in counts ==> counts[s] == CountOf(rows, s))
  {
    counts := map[];
    for i := 0 to |rows|
      invariant forall s :: (s in counts <==> CountOf(rows[..i], s) > 0) && (s in counts ==> counts[s] == CountOf(rows[..i], s))
    {
      var s := rows[i].status;
      assert rows[..i + 1][..i] == rows[..i];
      counts := counts[s := (if s in counts then counts[s] else 0) + 1];
    }
    assert rows[..|rows|] == rows;
  }

  lemma NoCounts()
    ensures forall s :: CountOf([], s) == 0
  {
  }

  lemma CountStep(rows: seq<Row>)
    requires rows != []
    ensures forall s :: CountOf(rows, s) == CountOf(rows[..|rows| - 1], s) + if rows[|rows| - 1].status == s then 1 else 0
  {
    Tally.CountStep(rows, StatusOf);
  }

  /** The seven statuses partition the jobs. */
  lemma {:induction false} CountsSumToJobs(rows: seq<Row>)
    ensures CountOf(rows, EvidenceFresh) + CountOf(rows, NoEvidenceStale) + CountOf(rows, StaleButSiblingIsNewer)
          + CountOf(rows, StaleAmbiguousSharedDir) + CountOf(rows, NoLogPath) + CountOf(rows, NoSchedule)
          + CountOf(rows, NoPlist) == |rows|
  {
    hide CountOf;
    if rows == [] {
      NoCounts();
    } else {
      CountsSumToJobs(rows[..|rows| - 1]);
      CountStep(rows);
    }
  }

  /** Corroboration never moves the count of fresh or unjudgeable jobs. */
  lemma {:induction false} CorroborationMovesOnlyStale(all: seq<Row>, rows: seq<Row>, after: seq<Row>, now: int, disk: Disk, cal: Calendar, s: Status)
    requires |rows| == |after| && s in {EvidenceFresh, NoLogPath, NoSchedule, NoPlist}
    requires forall i :: 0 <= i < |rows| ==>
      RejudgedIn(all, rows[i], now, disk, cal) == Ok(after[i]) && rows[i].status !in {StaleButSiblingIsNewer, StaleAmbiguousSharedDir}
    ensures CountOf(after, s) == CountOf(rows, s)
  {
    hide RejudgedIn;
    if rows != [] {
      var n := |rows| - 1;
      OnlyLeavesStale(all, rows[n], now, disk, cal);
      CorroborationMovesOnlyStale(all, rows[..n], after[..n], now, disk, cal, s);
    }
  }
}
