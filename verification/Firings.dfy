/**
 * Counting scheduled firings in a half-open interval. Instants are integer microseconds, days are
 * proleptic ordinals (day 1 is a Monday), and the day-of-month and month of a day are whatever the
 * calendar says.
 */
module Firings {
  import opened Prelude

  const MINUTE: int := 60_000_000
  const DAY: int := 86_400_000_000

  const SUPPORTED_KEYS: set<string> := {"Minute", "Hour", "Day", "Weekday", "Month"}

  /** A value in a schedule: what Python's `int` makes of it, if anything. */
  datatype Number = Int(n: int) | NotAnInt

  /** One StartCalendarInterval dictionary. */
  type Entry = map<string, Number>

  datatype Calendar = Calendar(dayOfMonth: int -> int, month: int -> int)

  datatype FiringError = UnsupportedScheduleKey | BadValue

  function Get(e: Entry, k: string): Number {
    if k in e then e[k] else Int(0)
  }

  ghost predicate Unsupported(entries: seq<Entry>) {
    exists i, k :: 0 <= i < |entries| && k in entries[i] && k !in SUPPORTED_KEYS
  }

  /** Monday is 0 in Python; Sunday is 0 (or 7) for launchd. */
  function PyWeekday(day: int): int {
    (day + 6) % 7
  }

  function LaunchdWeekday(day: int): int {
    if PyWeekday(day) == 6 then 0 else PyWeekday(day) + 1
  }

  /** What the loop body does with an entry on a day: compute a fire time, go on to the next entry, or raise. */
  datatype Visit = Fire | Skip | Raise

  /** A constraint that is absent holds; one that is no integer raises. */
  function Check(e: Entry, k: string, actual: int): Visit {
    if k !in e then Fire
    else match e[k]
      case NotAnInt => Raise
      case Int(n) => if (if k == "Weekday" && n == 7 then 0 else n) == actual then Fire else Skip
  }

  /** The time of day is valid for `datetime.time`. */
  predicate ValidTime(e: Entry) {
    var hour, minute := Get(e, "Hour"), Get(e, "Minute");
    hour.Int? && minute.Int? && 0 <= hour.n < 24 && 0 <= minute.n < 60
  }

  /** Weekday, then day, then month, then the time: the first check that does not hold decides. */
  function VisitOn(e: Entry, day: int, cal: Calendar): Visit {
    var weekday := Check(e, "Weekday", LaunchdWeekday(day));
    if weekday != Fire then weekday
    else
      var dayOfMonth := Check(e, "Day", cal.dayOfMonth(day));
      if dayOfMonth != Fire then dayOfMonth
      else
        var month := Check(e, "Month", cal.month(day));
        if month != Fire then month
        else if ValidTime(e) then Fire
        else Raise
  }

  /** Microseconds into the day of a valid time. */
  function Offset(e: Entry): int {
    if ValidTime(e) then (Get(e, "Hour").n * 60 + Get(e, "Minute").n) * MINUTE else 0
  }

  // ---- what a firing is ----

  /** The entry fires at instant t. */
  predicate Fires(e: Entry, t: int, cal: Calendar) {
    VisitOn(e, t / DAY, cal) == Fire && t % DAY == Offset(e)
  }

  /** All (entry, instant) pairs in (since, until]. */
  ghost function AllFirings(entries: seq<Entry>, since: int, until: int, cal: Calendar): set<(int, int)> {
    set i, t | 0 <= i < |entries| && since < t <= until && Fires(entries[i], t, cal) :: (i, t)
  }

  /** Some entry, on a day the count visits, holds a value that is no integer or no time of day. */
  ghost predicate HitsBadValue(entries: seq<Entry>, since: int, until: int, cal: Calendar) {
    && since < until
    && exists i, day ::
         0 <= i < |entries| && since / DAY <= day <= until / DAY && VisitOn(entries[i], day, cal) == Raise
  }

  /** The count as a property of the interval: the number of firings, or the error the source raises. */
  ghost function Expected(entries: seq<Entry>, since: int, until: int, cal: Calendar): Result<nat, FiringError> {
    if Unsupported(entries) then Err(UnsupportedScheduleKey)
    else if HitsBadValue(entries, since, until, cal) then Err(BadValue)
    else Ok(|AllFirings(entries, since, until, cal)|)
  }

  // ---- the day loop ----

  /** Firings on days before `day`, and on `day` for the first `j` entries. */
  ghost function Seen(entries: seq<Entry>, since: int, until: int, cal: Calendar, day: int, j: int): set<(int, int)> {
    set i, t | 0 <= i < |entries| && since < t <= until && Fires(entries[i], t, cal)
               && (t / DAY < day || (t / DAY == day && i < j)) :: (i, t)
  }

  method UnknownKeys(entries: seq<Entry>) returns (unknown: bool)
    ensures unknown <==> Unsupported(entries)
  {
    for i := 0 to |entries|
      invariant forall j, k :: 0 <= j < i && k in entries[j] ==> k in SUPPORTED_KEYS
    {
      if !(entries[i].Keys <= SUPPORTED_KEYS) {
        assert exists k :: k in entries[i] && k !in SUPPORTED_KEYS;
        return true;
      }
    }
    return false;
  }

  /** The constraint keys, in the order they are checked. */
  const CONSTRAINTS: seq<string> := ["Weekday", "Day", "Month"]

  /** What the calendar says about the i-th constraint. */
  function Actual(day: int, cal: Calendar, i: nat): int
    requires i < 3
  {
    if i == 0 then LaunchdWeekday(day) else if i == 1 then cal.dayOfMonth(day) else cal.month(day)
  }

  /** The entry asks for this integer under the key, Sunday being 0. */
  predicate AsksFor(e: Entry, k: string, n: int) {
    k in e && e[k].Int? && (if k == "Weekday" && e[k].n == 7 then 0 else e[k].n) == n
  }

  /** The first i constraints are absent or ask for what the calendar says. */
  ghost predicate AgreesBelow(e: Entry, day: int, cal: Calendar, i: nat)
    requires i <= 3
  {
    forall j :: 0 <= j < i ==> CONSTRAINTS[j] !in e || AsksFor(e, CONSTRAINTS[j], Actual(day, cal, j))
  }

  /** The i-th constraint is the first that does not agree, and it asks for another integer. */
  ghost predicate DisagreesAt(e: Entry, day: int, cal: Calendar, i: nat)
    requires i < 3
  {
    var k := CONSTRAINTS[i];
    AgreesBelow(e, day, cal, i) && k in e && e[k].Int? && !AsksFor(e, k, Actual(day, cal, i))
  }

  /** The i-th constraint is the first that does not agree, and it is no integer. */
  ghost predicate BreaksAt(e: Entry, day: int, cal: Calendar, i: nat)
    requires i < 3
  {
    AgreesBelow(e, day, cal, i) && CONSTRAINTS[i] in e && e[CONSTRAINTS[i]].NotAnInt?
  }

  /** The first constraint that does not agree decides: another integer skips the entry, no integer raises; then the time. */
  method VisitEntry(e: Entry, day: int, cal: Calendar) returns (v: Visit)
    ensures v == VisitOn(e, day, cal)
    ensures v == Fire <==> AgreesBelow(e, day, cal, 3) && ValidTime(e)
    ensures v == Skip <==> exists i: nat :: i < 3 && DisagreesAt(e, day, cal, i)
    ensures v == Raise <==> (AgreesBelow(e, day, cal, 3) && !ValidTime(e)) || exists i: nat :: i < 3 && BreaksAt(e, day, cal, i)
  {
    v := Check(e, "Weekday", LaunchdWeekday(day));
    assert v == Skip ==> DisagreesAt(e, day, cal, 0);
    assert v == Raise ==> BreaksAt(e, day, cal, 0);
    if v != Fire {
      return;
    }
    v := Check(e, "Day", cal.dayOfMonth(day));
    assert v == Skip ==> DisagreesAt(e, day, cal, 1);
    assert v == Raise ==> BreaksAt(e, day, cal, 1);
    if v != Fire {
      return;
    }
    v := Check(e, "Month", cal.month(day));
    assert v == Skip ==> DisagreesAt(e, day, cal, 2);
    assert v == Raise ==> BreaksAt(e, day, cal, 2);
    if v == Fire && !ValidTime(e) {
      v := Raise;
    }
  }

  /** Once a constraint disagrees, no later value is looked at, whatever it is. */
  lemma LaterValuesDoNotMatter(e: Entry, day: int, cal: Calendar, i: nat, k: string, x: Number)
    requires i < 3 && DisagreesAt(e, day, cal, i) && k !in CONSTRAINTS[..i + 1]
    ensures VisitOn(e[k := x], day, cal) == Skip
  {
    assert forall j :: 0 <= j <= i ==> CONSTRAINTS[..i + 1][j] == CONSTRAINTS[j];
    assert forall j :: 0 <= j <= i ==> CONSTRAINTS[j] != k;
    SkipsWhereItDisagrees(e[k := x], day, cal, i);
  }

  lemma SkipsWhereItDisagrees(e: Entry, day: int, cal: Calendar, i: nat)
    requires i < 3 && DisagreesAt(e, day, cal, i)
    ensures VisitOn(e, day, cal) == Skip
  {
    assert i > 0 ==> CONSTRAINTS[0] == "Weekday";
    assert i > 1 ==> CONSTRAINTS[1] == "Day";
  }

  method ExpectedFirings(entries: seq<Entry>, since: int, until: int, cal: Calendar)
    returns (r: Result<nat, FiringError>)
    ensures r == Expected(entries, since, until, cal)
  {
    hide VisitOn, Offset;
    var unknown := UnknownKeys(entries);
    if unknown {
      return Err(UnsupportedScheduleKey);
    }
    if until <= since {
      assert AllFirings(entries, since, until, cal) == {};
      return Ok(0);
    }
    var count := 0;
    var day := since / DAY;
    var lastDay := until / DAY;
    assert Seen(entries, since, until, cal, day, 0) == {};
    while day <= lastDay
      invariant since / DAY <= day <= lastDay + 1
      invariant count == |Seen(entries, since, until, cal, day, 0)|
      invariant forall i, d :: 0 <= i < |entries| && since / DAY <= d < day ==> VisitOn(entries[i], d, cal) != Raise
    {
      for j := 0 to |entries|
        invariant count == |Seen(entries, since, until, cal, day, j)|
        invariant forall i :: 0 <= i < j ==> VisitOn(entries[i], day, cal) != Raise
      {
        var e := entries[j];
        SeenStep(entries, since, until, cal, day, j);
        var visit := VisitEntry(e, day, cal);
        if visit == Raise {
          return Err(BadValue);
        }
        if visit == Fire {
          var fire := day * DAY + Offset(e);
          if since < fire <= until {
            count := count + 1;
          }
        }
      }
      assert Seen(entries, since, until, cal, day, |entries|) == Seen(entries, since, until, cal, day + 1, 0);
      day := day + 1;
    }
    assert Seen(entries, since, until, cal, day, 0) == AllFirings(entries, since, until, cal);
    return Ok(count);
  }

  /** One entry on one day contributes its fire time, if that is inside the interval, and nothing else. */
  lemma SeenStep(entries: seq<Entry>, since: int, until: int, cal: Calendar, day: int, j: int)
    requires 0 <= j < |entries|
    ensures var before, after := Seen(entries, since, until, cal, day, j), Seen(entries, since, until, cal, day, j + 1);
      var e := entries[j];
      var fire := day * DAY + Offset(e);
      |after| == |before| + if VisitOn(e, day, cal) == Fire && since < fire <= until then 1 else 0
  {
    hide VisitOn, Offset;
    var before, after := Seen(entries, since, until, cal, day, j), Seen(entries, since, until, cal, day, j + 1);
    var e := entries[j];
    var fire := day * DAY + Offset(e);
    var counts := VisitOn(e, day, cal) == Fire && since < fire <= until;
    FireTimeIsUnique(e, day, fire);
    forall x: (int, int) ensures x in after <==> x in before || (counts && x == (j, fire)) {
      FireTimeIsUnique(e, day, x.1);
    }
    assert (j, fire) !in before;
    assert after == if counts then before + {(j, fire)} else before;
  }

  lemma FireTimeIsUnique(e: Entry, day: int, t: int)
    ensures 0 <= Offset(e) < DAY
    ensures t / DAY == day && t % DAY == Offset(e) <==> t == day * DAY + Offset(e)
  {
    assert t == (t / DAY) * DAY + t % DAY;
  }

  // ---- which instants are counted ----

  /** The entry's time of day: an absent hour or minute is 0. */
  predicate IsTimedAt(e: Entry, hour: int, minute: int) {
    && 0 <= hour < 24 && (if "Hour" in e then e["Hour"] == Int(hour) else hour == 0)
    && 0 <= minute < 60 && (if "Minute" in e then e["Minute"] == Int(minute) else minute == 0)
  }

  /** Microseconds of a day, an hour and a minute. */
  function Instant(day: int, hour: int, minute: int): int {
    day * 86_400_000_000 + hour * 3_600_000_000 + minute * 60_000_000
  }

  /** On this day, at this time, the entry is due. */
  ghost predicate IsDue(e: Entry, day: int, hour: int, minute: int, cal: Calendar) {
    AgreesBelow(e, day, cal, 3) && IsTimedAt(e, hour, minute)
  }

  /** An entry fires at an instant if and only if it is due on its day at its hour and minute. */
  lemma FiresExactlyWhenDue(e: Entry, t: int, cal: Calendar)
    ensures Fires(e, t, cal) <==> exists day, hour, minute :: IsDue(e, day, hour, minute, cal) && t == Instant(day, hour, minute)
  {
    hide AgreesBelow, VisitOn;
    FireMeansAgrees(e, t / DAY, cal);
    assert t == (t / DAY) * DAY + t % DAY;
    if Fires(e, t, cal) {
      var hour, minute := Get(e, "Hour").n, Get(e, "Minute").n;
      assert IsDue(e, t / DAY, hour, minute, cal) && t == Instant(t / DAY, hour, minute);
    }
    forall day, hour, minute | IsDue(e, day, hour, minute, cal) && t == Instant(day, hour, minute) ensures Fires(e, t, cal) {
      SplitInstant(day, hour, minute);
    }
  }

  lemma FireMeansAgrees(e: Entry, day: int, cal: Calendar)
    ensures VisitOn(e, day, cal) == Fire <==> AgreesBelow(e, day, cal, 3) && ValidTime(e)
  {
    assert CONSTRAINTS[0] == "Weekday" && CONSTRAINTS[1] == "Day" && CONSTRAINTS[2] == "Month";
  }

  lemma SplitInstant(day: int, hour: int, minute: int)
    requires 0 <= hour < 24 && 0 <= minute < 60
    ensures Instant(day, hour, minute) / DAY == day
    ensures Instant(day, hour, minute) % DAY == (hour * 60 + minute) * MINUTE
  {
  }

  /** The entry fails on this day: the first constraint that does not agree is no integer, or the time is none. */
  ghost predicate IsBroken(e: Entry, day: int, cal: Calendar) {
    || (exists i: nat :: i < 3 && BreaksAt(e, day, cal, i))
    || (AgreesBelow(e, day, cal, 3) && forall hour, minute :: !IsTimedAt(e, hour, minute))
  }

  lemma RaiseMeansBroken(e: Entry, day: int, cal: Calendar)
    ensures VisitOn(e, day, cal) == Raise <==> IsBroken(e, day, cal)
  {
    hide AgreesBelow;
    FireMeansAgrees(e, day, cal);
    assert ValidTime(e) ==> IsTimedAt(e, Get(e, "Hour").n, Get(e, "Minute").n);
    RaiseByConstraint(e, day, cal);
  }

  lemma RaiseByConstraint(e: Entry, day: int, cal: Calendar)
    ensures VisitOn(e, day, cal) == Raise <==>
      (exists i: nat :: i < 3 && BreaksAt(e, day, cal, i)) || (AgreesBelow(e, day, cal, 3) && !ValidTime(e))
  {
    assert CONSTRAINTS[0] == "Weekday" && CONSTRAINTS[1] == "Day" && CONSTRAINTS[2] == "Month";
    var w, d, m := Check(e, "Weekday", LaunchdWeekday(day)), Check(e, "Day", cal.dayOfMonth(day)), Check(e, "Month", cal.month(day));
    assert w == Raise ==> BreaksAt(e, day, cal, 0);
    assert w == Fire && d == Raise ==> BreaksAt(e, day, cal, 1);
    assert w == Fire && d == Fire && m == Raise ==> BreaksAt(e, day, cal, 2);
  }

  ghost predicate IsDueAt(e: Entry, t: int, cal: Calendar) {
    exists day, hour, minute :: IsDue(e, day, hour, minute, cal) && t == Instant(day, hour, minute)
  }

  ghost predicate HasForeignKey(entries: seq<Entry>) {
    exists i, k :: 0 <= i < |entries| && k in entries[i] && k !in {"Minute", "Hour", "Day", "Weekday", "Month"}
  }

  lemma ForeignKeysAreUnsupported(entries: seq<Entry>)
    ensures HasForeignKey(entries) <==> Unsupported(entries)
  {
    if HasForeignKey(entries) {
      var i, k :| 0 <= i < |entries| && k in entries[i] && k !in {"Minute", "Hour", "Day", "Weekday", "Month"};
      assert k !in SUPPORTED_KEYS;
    }
    if Unsupported(entries) {
      var i, k :| 0 <= i < |entries| && k in entries[i] && k !in SUPPORTED_KEYS;
      assert k !in {"Minute", "Hour", "Day", "Weekday", "Month"};
    }
  }

  /** Some entry is broken on a day from that of `since` to that of `until`. */
  ghost predicate VisitsBroken(entries: seq<Entry>, since: int, until: int, cal: Calendar) {
    && since < until
    && exists i, day ::
         0 <= i < |entries| && since / 86_400_000_000 <= day <= until / 86_400_000_000 && IsBroken(entries[i], day, cal)
  }

  /**
   * The count in the interval's own terms: it fails on any key but the five, then on an entry that is
   * broken on a visited day, and otherwise is the number of (entry, instant) pairs that are due.
   */
  lemma CountIsOfDueInstants(entries: seq<Entry>, since: int, until: int, cal: Calendar) returns (due: set<(int, int)>)
    ensures forall i, t :: (i, t) in due <==> 0 <= i < |entries| && since < t <= until && IsDueAt(entries[i], t, cal)
    ensures var r := Expected(entries, since, until, cal);
      && (r == Err(UnsupportedScheduleKey) <==> HasForeignKey(entries))
      && (r == Err(BadValue) <==> !HasForeignKey(entries) && VisitsBroken(entries, since, until, cal))
      && (r.Ok? ==> r.value == |due|)
  {
    hide Fires, IsBroken, VisitOn, IsDue;
    ForeignKeysAreUnsupported(entries);
    due := AllFirings(entries, since, until, cal);
    forall i, t | 0 <= i < |entries| ensures Fires(entries[i], t, cal) <==> IsDueAt(entries[i], t, cal) {
      FiresExactlyWhenDue(entries[i], t, cal);
    }
    forall i, day | 0 <= i < |entries| ensures VisitOn(entries[i], day, cal) == Raise <==> IsBroken(entries[i], day, cal) {
      RaiseMeansBroken(entries[i], day, cal);
    }
  }

  /** Weekdays: ordinal 7 is a Sunday, which is 0, and each next day adds one, modulo seven. */
  lemma WeekdaysCycle(day: int)
    ensures LaunchdWeekday(7) == 0 && LaunchdWeekday(day + 1) == (LaunchdWeekday(day) + 1) % 7
  {
  }

  // ---- interval algebra ----

  lemma AllFiringsSplit(entries: seq<Entry>, a: int, b: int, c: int, cal: Calendar)
    requires a <= b <= c
    ensures |AllFirings(entries, a, c, cal)| == |AllFirings(entries, a, b, cal)| + |AllFirings(entries, b, c, cal)|
  {
    hide Fires;
    var x, y := AllFirings(entries, a, b, cal), AllFirings(entries, b, c, cal);
    assert AllFirings(entries, a, c, cal) == x + y;
    assert x !! y;
  }

  /** Counting over adjacent intervals adds up, and fails on the whole exactly when it fails on a part. */
  lemma CountIsAdditive(entries: seq<Entry>, a: int, b: int, c: int, cal: Calendar)
    requires a <= b <= c
    ensures match (Expected(entries, a, b, cal), Expected(entries, b, c, cal))
      case (Ok(x), Ok(y)) => Expected(entries, a, c, cal) == Ok(x + y)
      case _ => Expected(entries, a, c, cal).Err?
  {
    hide Unsupported, AllFirings, VisitOn;
    AllFiringsSplit(entries, a, b, c, cal);
    if HitsBadValue(entries, a, c, cal) {
      var i, day :| 0 <= i < |entries| && a / DAY <= day <= c / DAY && VisitOn(entries[i], day, cal) == Raise;
      assert day <= b / DAY || b / DAY <= day;
      assert HitsBadValue(entries, a, b, cal) || HitsBadValue(entries, b, c, cal);
    } else {
      BadValueNarrows(entries, a, b, a, c, cal);
      BadValueNarrows(entries, b, c, a, c, cal);
    }
  }

  lemma BadValueNarrows(entries: seq<Entry>, since: int, until: int, lo: int, hi: int, cal: Calendar)
    requires lo <= since <= until <= hi
    ensures HitsBadValue(entries, since, until, cal) ==> HitsBadValue(entries, lo, hi, cal)
  {
    hide VisitOn;
    if HitsBadValue(entries, since, until, cal) {
      var i, day :| 0 <= i < |entries| && since / DAY <= day <= until / DAY && VisitOn(entries[i], day, cal) == Raise;
      DayOrder(lo, since);
      DayOrder(until, hi);
    }
  }

  lemma DayOrder(a: int, b: int)
    requires a <= b
    ensures a / DAY <= b / DAY
  {
  }

  lemma {:induction false} SubsetCount(a: set<(int, int)>, b: set<(int, int)>)
    requires a <= b
    ensures |a| <= |b|
  {
    assert b == a + (b - a);
  }

  /** Moving the start later never raises the count, and never introduces a failure. */
  lemma LaterStartCountsFewer(entries: seq<Entry>, a: int, b: int, c: int, cal: Calendar)
    requires a <= b && Expected(entries, a, c, cal).Ok?
    ensures Expected(entries, b, c, cal).Ok?
    ensures Expected(entries, b, c, cal).value <= Expected(entries, a, c, cal).value
  {
    if b <= c {
      CountIsAdditive(entries, a, b, c, cal);
    } else {
      assert AllFirings(entries, b, c, cal) == {};
    }
  }

  /** `tight` is `loose` with more Weekday, Day or Month constraints. */
  ghost predicate Constrains(tight: Entry, loose: Entry) {
    && (forall k :: k in loose ==> k in tight && tight[k] == loose[k])
    && (forall k :: k in tight && k !in loose ==> k in {"Weekday", "Day", "Month"})
  }

  /**
   * Adding a constraint key never raises the count: the tighter schedule counts no more, and it fails
   * on its own account only if an added value is no integer.
   */
  lemma ConstraintsCountFewer(tight: seq<Entry>, loose: seq<Entry>, since: int, until: int, cal: Calendar)
    requires |tight| == |loose| && forall i :: 0 <= i < |tight| ==> Constrains(tight[i], loose[i])
    requires Expected(loose, since, until, cal).Ok?
    ensures Expected(tight, since, until, cal).Ok? ==>
      Expected(tight, since, until, cal).value <= Expected(loose, since, until, cal).value
    ensures (forall i, k :: 0 <= i < |tight| && k in tight[i] && k !in loose[i] ==> tight[i][k].Int?) ==>
      Expected(tight, since, until, cal).Ok?
  {
    hide VisitOn, Offset;
    forall i, day | 0 <= i < |tight|
      ensures VisitOn(tight[i], day, cal) == Fire ==> VisitOn(loose[i], day, cal) == Fire
      ensures (forall k :: k in tight[i] && k !in loose[i] ==> tight[i][k].Int?) && VisitOn(tight[i], day, cal) == Raise ==>
        VisitOn(loose[i], day, cal) == Raise
      ensures Offset(tight[i]) == Offset(loose[i])
    {
      ConstraintStep(tight[i], loose[i], day, cal);
    }
    forall i, k | 0 <= i < |tight| && k in tight[i] ensures k in SUPPORTED_KEYS {
      assert Constrains(tight[i], loose[i]);
      assert k in loose[i] ==> k in SUPPORTED_KEYS;
    }
    SubsetCount(AllFirings(tight, since, until, cal), AllFirings(loose, since, until, cal));
  }

  lemma ConstraintStep(tight: Entry, loose: Entry, day: int, cal: Calendar)
    requires Constrains(tight, loose)
    ensures VisitOn(tight, day, cal) == Fire ==> VisitOn(loose, day, cal) == Fire
    ensures (forall k :: k in tight && k !in loose ==> tight[k].Int?) && VisitOn(tight, day, cal) == Raise ==>
      VisitOn(loose, day, cal) == Raise
    ensures Offset(tight) == Offset(loose)
  {
  }

  /** launchd's two names for Sunday count the same firings. */
  lemma SundayIsZeroOrSeven(entries: seq<Entry>, i: nat, since: int, until: int, cal: Calendar)
    requires i < |entries| && "Weekday" in entries[i] && entries[i]["Weekday"] == Int(7)
    ensures Expected(entries, since, until, cal)
         == Expected(entries[i := entries[i]["Weekday" := Int(0)]], since, until, cal)
  {
    hide Offset, VisitOn;
    var other := entries[i := entries[i]["Weekday" := Int(0)]];
    forall j, day | 0 <= j < |entries|
      ensures VisitOn(entries[j], day, cal) == VisitOn(other[j], day, cal) && Offset(entries[j]) == Offset(other[j])
    {
      SundayStep(entries[i], day, cal);
    }
    forall j ensures 0 <= j < |entries| ==> entries[j].Keys == other[j].Keys {
    }
    assert Unsupported(entries) == Unsupported(other);
    assert AllFirings(entries, since, until, cal) == AllFirings(other, since, until, cal);
  }

  lemma SundayStep(sunday: Entry, day: int, cal: Calendar)
    requires "Weekday" in sunday && sunday["Weekday"] == Int(7)
    ensures VisitOn(sunday, day, cal) == VisitOn(sunday["Weekday" := Int(0)], day, cal)
    ensures Offset(sunday) == Offset(sunday["Weekday" := Int(0)])
  {
  }
}
