/**
 * Attributing log lines to a day. A record is a timestamped line with every following line up to the
 * next timestamp. How a line's timestamp and a name's dates are recognised is left to the caller.
 */
module LogRecords {
  import opened Prelude

  datatype Attribution = ByFilename | ByTimestamp | Unattributable

  /** What the module reads: whether the file exists, the date-like parts of its name, its lines. */
  datatype LogFile = LogFile(exists_: bool, nameDates: seq<Option<int>>, lines: seq<string>)

  /** Recognisers: the date stamped at the start of a line, and whether a line is blank. */
  datatype Reader = Reader(lineDate: string -> Option<int>, isBlank: string -> bool)

  // ---- the file name ----

  /** The distinct real dates of a name, in order of first appearance. */
  function DistinctDates(found: seq<Option<int>>): (r: seq<int>)
    ensures forall d :: d in r <==> Some(d) in found
    ensures forall i, j :: 0 <= i < j < |r| ==> r[i] != r[j]
  {
    if found == [] then []
    else
      var n := |found| - 1;
      var front := DistinctDates(found[..n]);
      assert forall d :: Some(d) in found <==> Some(d) in found[..n] || found[n] == Some(d);
      if found[n].Some? && found[n].value !in front then front + [found[n].value] else front
  }

  // ---- what attribution means ----

  /** The date of the nearest timestamped line at or before line i. */
  function Owner(rd: Reader, lines: seq<string>, i: nat): Option<int>
    requires i < |lines|
  {
    if rd.lineDate(lines[i]).Some? then rd.lineDate(lines[i])
    else if i == 0 then None
    else Owner(rd, lines, i - 1)
  }

  /** The lines among the first n that belong to a day's records, in order. */
  function OwnedBy(rd: Reader, lines: seq<string>, n: nat, day: int): seq<string>
    requires n <= |lines|
  {
    if n == 0 then []
    else OwnedBy(rd, lines, n - 1, day) + if Owner(rd, lines, n - 1) == Some(day) then [lines[n - 1]] else []
  }

  /** The lines among the first n before any timestamp: nonblank orphans, or leading blanks. */
  function Leading(rd: Reader, lines: seq<string>, n: nat, blank: bool): seq<string>
    requires n <= |lines|
  {
    if n == 0 then []
    else Leading(rd, lines, n - 1, blank)
         + if Owner(rd, lines, n - 1).None? && rd.isBlank(lines[n - 1]) == blank then [lines[n - 1]] else []
  }

  predicate Stamped(rd: Reader, lines: seq<string>) {
    exists i :: 0 <= i < |lines| && rd.lineDate(lines[i]).Some?
  }

  /** What is returned for a day: never the whole undated file, and no line of another day. */
  function Attributed(rd: Reader, f: LogFile, day: int): (Attribution, seq<string>) {
    var named := DistinctDates(f.nameDates);
    if !f.exists_ || |named| > 1 then (Unattributable, [])
    else if |named| == 1 then (if named[0] == day then (ByFilename, f.lines) else (Unattributable, []))
    else if Stamped(rd, f.lines) then (ByTimestamp, OwnedBy(rd, f.lines, |f.lines|, day))
    else (Unattributable, [])
  }

  // ---- the single pass ----

  datatype Framed = Framed(date: int, body: seq<string>)

  /** The bodies of a day's records, concatenated. */
  function Hits(records: seq<Framed>, day: int): seq<string> {
    if records == [] then []
    else
      var last := records[|records| - 1];
      Hits(records[..|records| - 1], day) + if last.date == day then last.body else []
  }

  /** The records frame the first k lines: each day's bodies are its lines, and the last record is open. */
  ghost predicate Frames(rd: Reader, lines: seq<string>, k: nat, records: seq<Framed>)
    requires k <= |lines|
  {
    && (records != [] <==> exists i :: 0 <= i < k && rd.lineDate(lines[i]).Some?)
    && (k > 0 ==> Owner(rd, lines, k - 1) == LastDate(records))
    && (forall day :: Hits(records, day) == OwnedBy(rd, lines, k, day))
  }

  function LastDate(records: seq<Framed>): Option<int> {
    if records == [] then None else Some(records[|records| - 1].date)
  }

  method FrameRecords(rd: Reader, lines: seq<string>) returns (records: seq<Framed>, orphan: seq<string>)
    ensures Frames(rd, lines, |lines|, records)
    ensures orphan == Leading(rd, lines, |lines|, false)
  {
    hide Hits, OwnedBy, Owner, Leading;
    records, orphan := [], [];
    NothingFramed(rd, lines);
    for k := 0 to |lines|
      invariant Frames(rd, lines, k, records)
      invariant orphan == Leading(rd, lines, k, false)
    {
      var line := lines[k];
      var d := rd.lineDate(line);
      FrameStep(rd, lines, k, records);
      LeadingMore(rd, lines, k, false);
      if d.Some? {
        records := records + [Framed(d.value, [line])];
      } else if records != [] {
        var last := |records| - 1;
        records := records[last := records[last].(body := records[last].body + [line])];
      } else if !rd.isBlank(line) {
        orphan := orphan + [line];
      }
    }
  }

  lemma NothingFramed(rd: Reader, lines: seq<string>)
    ensures Frames(rd, lines, 0, [])
    ensures Leading(rd, lines, 0, false) == []
  {
  }

  /** One more line keeps the framing, in each of the three cases of the pass. */
  lemma FrameStep(rd: Reader, lines: seq<string>, k: nat, records: seq<Framed>)
    requires k < |lines| && Frames(rd, lines, k, records)
    ensures var line, d := lines[k], rd.lineDate(lines[k]);
      if d.Some? then
        && Frames(rd, lines, k + 1, records + [Framed(d.value, [line])])
        && Owner(rd, lines, k).Some?
      else if records != [] then
        var last := |records| - 1;
        && Frames(rd, lines, k + 1, records[last := records[last].(body := records[last].body + [line])])
        && Owner(rd, lines, k).Some?
      else
        && Frames(rd, lines, k + 1, records)
        && Owner(rd, lines, k).None?
  {
    hide Hits;
    var line, d := lines[k], rd.lineDate(lines[k]);
    assert Owner(rd, lines, k) == if d.Some? then d else LastDate(records);
    if d.Some? {
      var after := records + [Framed(d.value, [line])];
      assert after[..|after| - 1] == records;
      forall day ensures Hits(after, day) == OwnedBy(rd, lines, k + 1, day) {
        HitsOfLast(after, day);
      }
    } else if records != [] {
      var last := |records| - 1;
      var after := records[last := records[last].(body := records[last].body + [line])];
      assert after[..last] == records[..last];
      forall day ensures Hits(after, day) == OwnedBy(rd, lines, k + 1, day) {
        AppendToLast(records, after, line, day);
      }
    }
  }

  lemma LeadingMore(rd: Reader, lines: seq<string>, n: nat, blank: bool)
    requires n < |lines|
    ensures Leading(rd, lines, n + 1, blank) == Leading(rd, lines, n, blank)
      + if Owner(rd, lines, n).None? && rd.isBlank(lines[n]) == blank then [lines[n]] else []
  {
    hide Owner;
  }

  lemma AppendToLast(before: seq<Framed>, after: seq<Framed>, line: string, day: int)
    requires before != [] && |after| == |before| && after[..|after| - 1] == before[..|before| - 1]
    requires after[|after| - 1] == before[|before| - 1].(body := before[|before| - 1].body + [line])
    ensures Hits(after, day) == Hits(before, day) + if before[|before| - 1].date == day then [line] else []
  {
    hide Hits;
    HitsOfLast(before, day);
    HitsOfLast(after, day);
    var front, last := Hits(before[..|before| - 1], day), before[|before| - 1];
    assert front + (last.body + [line]) == (front + last.body) + [line];
  }

  lemma HitsOfLast(records: seq<Framed>, day: int)
    requires records != []
    ensures var last := records[|records| - 1];
      Hits(records, day) == Hits(records[..|records| - 1], day) + if last.date == day then last.body else []
  {
  }

  method LinesForDate(rd: Reader, f: LogFile, day: int) returns (status: Attribution, lines: seq<string>)
    ensures (status, lines) == Attributed(rd, f, day)
  {
    if !f.exists_ {
      return Unattributable, [];
    }
    var found := FilenameDates(f.nameDates);
    if |found| > 1 {
      return Unattributable, [];
    }
    if |found| == 1 {
      if found[0] != day {
        return Unattributable, [];
      }
      return ByFilename, f.lines;
    }
    var records, orphan := FrameRecords(rd, f.lines);
    if records == [] {
      return Unattributable, [];
    }
    assert Stamped(rd, f.lines);
    var hits := CollectHits(records, day);
    return ByTimestamp, hits;
  }

  method FilenameDates(nameDates: seq<Option<int>>) returns (found: seq<int>)
    ensures found == DistinctDates(nameDates)
  {
    found := [];
    for i := 0 to |nameDates|
      invariant found == DistinctDates(nameDates[..i])
    {
      assert nameDates[..i + 1][..i] == nameDates[..i];
      if nameDates[i].Some? && nameDates[i].value !in found {
        found := found + [nameDates[i].value];
      }
    }
    assert nameDates[..|nameDates|] == nameDates;
  }

  method CollectHits(records: seq<Framed>, day: int) returns (hits: seq<string>)
    ensures hits == Hits(records, day)
  {
    hits := [];
    for i := 0 to |records|
      invariant hits == Hits(records[..i], day)
    {
      assert records[..i + 1][..i] == records[..i];
      if records[i].date == day {
        hits := hits + records[i].body;
      }
    }
    assert records[..|records|] == records;
  }

  /** The name carries this real date. */
  predicate HasDate(f: LogFile, d: int) {
    Some(d) in f.nameDates
  }

  /**
   * When a day is served, over the name and the lines alone: the whole file if and only if its name
   * has that date and no other, framed records if and only if the name has none and some line is
   * stamped, and otherwise nothing.
   */
  lemma AttributionSaysWhy(rd: Reader, f: LogFile, day: int)
    ensures var (status, lines) := Attributed(rd, f, day);
      && (status == ByFilename <==> f.exists_ && HasDate(f, day) && forall d :: HasDate(f, d) ==> d == day)
      && (status == ByTimestamp <==> f.exists_ && (forall d :: !HasDate(f, d)) && Stamped(rd, f.lines))
      && (status == ByFilename ==> lines == f.lines)
      && (status == Unattributable ==> lines == [])
  {
    var named := DistinctDates(f.nameDates);
    assert forall d :: HasDate(f, d) <==> d in named;
    assert |named| > 1 ==> named[0] in named && named[1] in named && named[0] != named[1];
    assert |named| == 1 ==> named[0] in named;
  }

  /** Before any timestamp, the orphans are the lines that are not blank and the rest are the blank ones. */
  lemma {:induction false} LeadingLines(rd: Reader, lines: seq<string>, n: nat, blank: bool)
    requires n <= |lines|
    ensures forall s :: s in Leading(rd, lines, n, blank) ==> rd.isBlank(s) == blank
    ensures forall i :: 0 <= i < n && Owner(rd, lines, i).None? && rd.isBlank(lines[i]) == blank ==>
      lines[i] in Leading(rd, lines, n, blank)
  {
    hide Owner;
    if n > 0 {
      LeadingLines(rd, lines, n - 1, blank);
    }
  }

  // ---- conservation ----

  ghost predicate DistinctDays(days: seq<int>) {
    forall i, j :: 0 <= i < j < |days| ==> days[i] != days[j]
  }

  /** The lines of several days together. */
  function OwnedByAny(rd: Reader, lines: seq<string>, n: nat, days: seq<int>): multiset<string>
    requires n <= |lines|
  {
    if days == [] then multiset{}
    else OwnedByAny(rd, lines, n, days[1..]) + multiset(OwnedBy(rd, lines, n, days[0]))
  }

  lemma {:induction false} OneMoreLine(rd: Reader, lines: seq<string>, n: nat, days: seq<int>)
    requires n < |lines| && DistinctDays(days)
    ensures OwnedByAny(rd, lines, n + 1, days) == OwnedByAny(rd, lines, n, days)
      + if Owner(rd, lines, n).Some? && Owner(rd, lines, n).value in days then multiset{lines[n]} else multiset{}
  {
    hide Owner;
    if days != [] {
      OneMoreLine(rd, lines, n, days[1..]);
      assert forall d :: d in days <==> d == days[0] || d in days[1..];
    }
  }

  /**
   * Nothing is lost and nothing is returned twice: over any list of distinct days that covers every
   * timestamp, the lines returned, the orphans and the leading blanks are exactly the file's lines.
   */
  lemma {:induction false} LinesAreConserved(rd: Reader, lines: seq<string>, n: nat, days: seq<int>)
    requires n <= |lines| && DistinctDays(days)
    requires forall i :: 0 <= i < n && rd.lineDate(lines[i]).Some? ==> rd.lineDate(lines[i]).value in days
    ensures OwnedByAny(rd, lines, n, days) + multiset(Leading(rd, lines, n, false)) + multiset(Leading(rd, lines, n, true))
         == multiset(lines[..n])
  {
    hide OwnedByAny, Leading, Owner;
    if n == 0 {
      NoLines(rd, lines, days);
    } else {
      LinesAreConserved(rd, lines, n - 1, days);
      OneMoreLine(rd, lines, n - 1, days);
      OwnerIsStamped(rd, lines, n - 1);
      LeadingMore(rd, lines, n - 1, false);
      LeadingMore(rd, lines, n - 1, true);
      assert lines[..n] == lines[..n - 1] + [lines[n - 1]];
    }
  }

  lemma {:induction false} NoLines(rd: Reader, lines: seq<string>, days: seq<int>)
    ensures OwnedByAny(rd, lines, 0, days) == multiset{}
    ensures forall blank :: Leading(rd, lines, 0, blank) == []
  {
    if days != [] {
      NoLines(rd, lines, days[1..]);
    }
  }

  predicate IsNearestStamp(rd: Reader, lines: seq<string>, j: int, i: nat)
    requires i < |lines|
  {
    0 <= j <= i && rd.lineDate(lines[j]).Some? && forall k :: j < k <= i ==> rd.lineDate(lines[k]).None?
  }

  /** An owner is a timestamp of the file at or before the line, with no timestamp in between. */
  lemma {:induction false} OwnerIsStamped(rd: Reader, lines: seq<string>, i: nat)
    requires i < |lines|
    ensures Owner(rd, lines, i).Some? ==>
      exists j :: IsNearestStamp(rd, lines, j, i) && rd.lineDate(lines[j]) == Owner(rd, lines, i)
    ensures Owner(rd, lines, i).None? ==> forall k :: 0 <= k <= i ==> rd.lineDate(lines[k]).None?
  {
    if rd.lineDate(lines[i]).Some? {
      assert IsNearestStamp(rd, lines, i, i);
    } else if i > 0 {
      OwnerIsStamped(rd, lines, i - 1);
      if Owner(rd, lines, i).Some? {
        var j :| IsNearestStamp(rd, lines, j, i - 1) && rd.lineDate(lines[j]) == Owner(rd, lines, i - 1);
        assert IsNearestStamp(rd, lines, j, i);
      }
    }
  }

  /** The positions among the first n that belong to a day, in order. */
  function Positions(rd: Reader, lines: seq<string>, n: nat, day: int): (r: seq<nat>)
    requires n <= |lines|
    ensures forall p: nat :: p in r <==> p < n && Owner(rd, lines, p) == Some(day)
    ensures forall i, j :: 0 <= i < j < |r| ==> r[i] < r[j]
    ensures forall i :: 0 <= i < |r| ==> r[i] < n
  {
    if n == 0 then []
    else
      var front := Positions(rd, lines, n - 1, day);
      assert forall i :: 0 <= i < |front| ==> front[i] in front;
      if Owner(rd, lines, n - 1) == Some(day) then front + [n - 1] else front
  }

  /** A day's lines are the lines at its positions, in file order. */
  lemma {:induction false} LinesAtPositions(rd: Reader, lines: seq<string>, n: nat, day: int)
    requires n <= |lines|
    ensures var ps := Positions(rd, lines, n, day);
      && |OwnedBy(rd, lines, n, day)| == |ps|
      && forall i :: 0 <= i < |ps| ==> OwnedBy(rd, lines, n, day)[i] == lines[ps[i]]
  {
    hide Owner;
    if n > 0 {
      LinesAtPositions(rd, lines, n - 1, day);
    }
  }

  /** Two days never share a position: each returns the lines at its own positions, once and in order. */
  lemma DaysPartitionPositions(rd: Reader, lines: seq<string>, a: int, b: int)
    requires a != b
    ensures var ps, qs := Positions(rd, lines, |lines|, a), Positions(rd, lines, |lines|, b);
      && (forall p :: p in ps ==> p !in qs)
      && |OwnedBy(rd, lines, |lines|, a)| == |ps| && |OwnedBy(rd, lines, |lines|, b)| == |qs|
      && (forall i :: 0 <= i < |ps| ==> OwnedBy(rd, lines, |lines|, a)[i] == lines[ps[i]])
      && (forall i :: 0 <= i < |qs| ==> OwnedBy(rd, lines, |lines|, b)[i] == lines[qs[i]])
  {
    hide Owner;
    LinesAtPositions(rd, lines, |lines|, a);
    LinesAtPositions(rd, lines, |lines|, b);
  }

  // ---- over all days ----

  /** Everything a file yields when it is asked about each of several days. */
  function ReturnedOver(rd: Reader, f: LogFile, days: seq<int>): multiset<string> {
    if days == [] then multiset{}
    else ReturnedOver(rd, f, days[1..]) + multiset(Attributed(rd, f, days[0]).1)
  }

  /** A file named for one date yields each of its lines once over any days with that date, and nothing over others. */
  lemma {:induction false} NamedFileServesOneDay(rd: Reader, f: LogFile, d: int, days: seq<int>)
    requires f.exists_ && DistinctDates(f.nameDates) == [d] && DistinctDays(days)
    ensures ReturnedOver(rd, f, days) == if d in days then multiset(f.lines) else multiset{}
  {
    if days != [] {
      NamedFileServesOneDay(rd, f, d, days[1..]);
      assert forall e :: e in days <==> e == days[0] || e in days[1..];
    }
  }

  /** An unnamed stamped file yields what its days own. */
  lemma {:induction false} StampedFileServesOwners(rd: Reader, f: LogFile, days: seq<int>)
    requires f.exists_ && DistinctDates(f.nameDates) == [] && Stamped(rd, f.lines)
    ensures ReturnedOver(rd, f, days) == OwnedByAny(rd, f.lines, |f.lines|, days)
  {
    if days != [] {
      StampedFileServesOwners(rd, f, days[1..]);
    }
  }

  lemma {:induction false} UnattributableServesNobody(rd: Reader, f: LogFile, days: seq<int>)
    requires !f.exists_ || |DistinctDates(f.nameDates)| > 1 || (DistinctDates(f.nameDates) == [] && !Stamped(rd, f.lines))
    ensures ReturnedOver(rd, f, days) == multiset{}
  {
    if days != [] {
      UnattributableServesNobody(rd, f, days[1..]);
    }
  }

  /** The lines of any days are among the file's lines, each at most as often as it occurs. */
  lemma {:induction false} OwnersReturnNothingTwice(rd: Reader, lines: seq<string>, n: nat, days: seq<int>)
    requires n <= |lines| && DistinctDays(days)
    ensures OwnedByAny(rd, lines, n, days) <= multiset(lines[..n])
  {
    hide Owner, OwnedByAny;
    if n == 0 {
      NoLines(rd, lines, days);
    } else {
      OwnersReturnNothingTwice(rd, lines, n - 1, days);
      OneMoreLine(rd, lines, n - 1, days);
      assert lines[..n] == lines[..n - 1] + [lines[n - 1]];
    }
  }

  /** Whatever the file, asking about any distinct days never returns a line more often than the file holds it. */
  lemma NothingReturnedTwice(rd: Reader, f: LogFile, days: seq<int>)
    requires DistinctDays(days)
    ensures ReturnedOver(rd, f, days) <= multiset(f.lines)
  {
    hide ReturnedOver, OwnedByAny, Stamped, Attributed;
    var named := DistinctDates(f.nameDates);
    if f.exists_ && |named| == 1 {
      assert named == [named[0]];
      NamedFileServesOneDay(rd, f, named[0], days);
    } else if f.exists_ && named == [] && Stamped(rd, f.lines) {
      StampedFileServesOwners(rd, f, days);
      OwnersReturnNothingTwice(rd, f.lines, |f.lines|, days);
      assert f.lines[..|f.lines|] == f.lines;
    } else {
      UnattributableServesNobody(rd, f, days);
    }
  }
}
