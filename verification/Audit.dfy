/** The audit aggregator: member verdicts, the acknowledgement layer, and the exit code. */
module Audit {
  import opened Digest
  import opened Prelude
  import Tally

  datatype Status = StatusOk | Findings | Info | Crash | Timeout | Missing | Unusable

  datatype Disposition = NotApplicable | New | Acked | AckedButChanged | AckExpired

  /** How running a member ended. */
  datatype Outcome =
    | NotPresent
    | TimedOut
    | Raised
    | Exited(code: int, stdout: seq<string>, stderr: seq<string>, traceback: bool)

  datatype MemberRun = MemberRun(name: string, findingExits: set<int>, outcome: Outcome)

  datatype Row = Row(member: string, status: Status, detail: string, disposition: Disposition)

  /** A ledger value: an acknowledgement, or something that is not an object. */
  datatype Ack = NotAnObject | Ack(body: string, numbersWhenAcked: Option<seq<string>>)

  type Ledger = map<string, Ack>

  /** What lives outside this model: the hash, and when an acknowledgement expires. */
  datatype Environment = Environment(hash: string -> string, ackExpiry: (Ack, string) -> Option<int>)

  // ---- one member ----

  function RunStatus(m: MemberRun): Status {
    match m.outcome
    case NotPresent => Missing
    case TimedOut => Timeout
    case Raised => Crash
    case Exited(code, _, _, traceback) =>
      if traceback then Crash
      else if code == 0 then StatusOk
      else if code in m.findingExits then Findings
      else Unusable
  }

  function RunDetail(o: Outcome): string {
    if !o.Exited? then ""
    else if o.traceback && o.stderr != [] then Detail(o.stderr[|o.stderr| - 1])
    else if o.stdout != [] then Detail(o.stdout[0])
    else if o.stderr != [] then Detail(o.stderr[0])
    else ""
  }

  function RunMember(m: MemberRun): Row {
    Row(m.name, RunStatus(m), RunDetail(m.outcome), NotApplicable)
  }

  /** The member ran and said clean or finding. */
  predicate ReachedVerdict(m: MemberRun) {
    m.outcome.Exited? && !m.outcome.traceback && (m.outcome.code == 0 || m.outcome.code in m.findingExits)
  }

  // ---- disposition ----

  function Fingerprint(env: Environment, member: string, text: string): string {
    env.hash(member + "\0" + Normalise(text))
  }

  function Classify(env: Environment, member: string, text: string, ledger: Ledger, today: int): Disposition {
    var fp := Fingerprint(env, member, text);
    if fp !in ledger || ledger[fp].NotAnObject? then New
    else
      var ack := ledger[fp];
      match env.ackExpiry(ack, member)
      case None => AckExpired
      case Some(expiry) =>
        if expiry <= today then AckExpired
        else if ack.numbersWhenAcked.Some? && ack.numbersWhenAcked.value != Numbers(text) then AckedButChanged
        else Acked
  }

  function Disposed(env: Environment, r: Row, ledger: Ledger, today: int): Row {
    if r.status != Findings then r
    else
      var d := Classify(env, r.member, r.detail, ledger, today);
      r.(disposition := d, status := if d == Acked then Info else Findings)
  }

  // ---- aggregation ----

  datatype Exit = ExitOk | ExitFindings | ExitHarness

  function Severity(e: Exit): nat {
    match e
    case ExitOk => 0
    case ExitFindings => 1
    case ExitHarness => 3
  }

  function StatusOf(r: Row): Status {
    r.status
  }

  function CountOf(rows: seq<Row>, s: Status): nat {
    Tally.CountOf(rows, StatusOf, s)
  }

  function Aggregate(rows: seq<Row>): Exit {
    if CountOf(rows, Crash) > 0 || CountOf(rows, Timeout) > 0 || CountOf(rows, Missing) > 0 || CountOf(rows, Unusable) > 0
    then ExitHarness
    else if CountOf(rows, Findings) > 0 then ExitFindings
    else ExitOk
  }

  function FinalRows(env: Environment, members: seq<MemberRun>, ledger: Ledger, today: int): (r: seq<Row>)
    ensures |r| == |members|
  {
    seq(|members|, i requires 0 <= i < |members| => Disposed(env, RunMember(members[i]), ledger, today))
  }

  function AuditExit(env: Environment, members: seq<MemberRun>, ledger: Ledger, today: int): Exit {
    Aggregate(FinalRows(env, members, ledger, today))
  }

  /** Result rows are dispositioned in place, then counted. */
  method RunAudit(env: Environment, members: seq<MemberRun>, ledger: Ledger, today: int)
    returns (rows: array<Row>, exit: Exit)
    ensures fresh(rows) && rows[..] == FinalRows(env, members, ledger, today)
    ensures exit == AuditExit(env, members, ledger, today)
  {
    hide Classify, RunDetail;
    rows := new Row[|members|](i requires 0 <= i < |members| => RunMember(members[i]));
    for i := 0 to rows.Length
      invariant forall j :: 0 <= j < i ==> rows[j] == Disposed(env, RunMember(members[j]), ledger, today)
      invariant forall j :: i <= j < rows.Length ==> rows[j] == RunMember(members[j])
    {
      var r := Dispose(env, rows[i], ledger, today);
      rows[i] := r;
    }
    assert rows[..] == FinalRows(env, members, ledger, today);
    var harness, findings := CountStatuses(rows[..]);
    exit := if harness > 0 then ExitHarness else if findings > 0 then ExitFindings else ExitOk;
  }

  /** The ledger holds an acknowledgement object under the fingerprint of the text. */
  predicate HasAck(env: Environment, member: string, text: string, ledger: Ledger) {
    var fp := Fingerprint(env, member, text);
    fp in ledger && ledger[fp].Ack?
  }

  /** That acknowledgement expires strictly after today. */
  predicate IsCurrent(env: Environment, member: string, text: string, ledger: Ledger, today: int)
    requires HasAck(env, member, text, ledger)
  {
    var expiry := env.ackExpiry(ledger[Fingerprint(env, member, text)], member);
    expiry.Some? && today < expiry.value
  }

  /** It recorded no numbers, or the very numbers of the text. */
  predicate IsUnchanged(env: Environment, member: string, text: string, ledger: Ledger)
    requires HasAck(env, member, text, ledger)
  {
    var seen := ledger[Fingerprint(env, member, text)].numbersWhenAcked;
    seen == None || seen == Some(Numbers(text))
  }

  /**
   * A row that is no finding is left alone. A finding is silenced exactly when a current
   * acknowledgement recorded its very numbers or none; otherwise it stays a finding and says why.
   */
  method Dispose(env: Environment, row: Row, ledger: Ledger, today: int) returns (r: Row)
    ensures r == Disposed(env, row, ledger, today)
    ensures r.member == row.member && r.detail == row.detail
    ensures row.status != Findings ==> r == row
    ensures row.status == Findings ==>
      var acked := HasAck(env, row.member, row.detail, ledger);
      var current := acked && IsCurrent(env, row.member, row.detail, ledger, today);
      var covered := IsCovered(env, row.member, row.detail, ledger, today);
      && r.status == (if covered then Info else Findings)
      && (r.disposition == New <==> !acked)
      && (r.disposition == AckExpired <==> acked && !current)
      && (r.disposition == AckedButChanged <==> current && !covered)
      && (r.disposition == Acked <==> covered)
  {
    r := row;
    if r.status != Findings {
      return;
    }
    var d := Classify(env, r.member, r.detail, ledger, today);
    r := r.(disposition := d);
    if d == Acked {
      r := r.(status := Info);
    }
  }

  method CountStatuses(rows: seq<Row>) returns (harness: nat, findings: nat)
    ensures harness == CountOf(rows, Crash) + CountOf(rows, Timeout) + CountOf(rows, Missing) + CountOf(rows, Unusable)
    ensures findings == CountOf(rows, Findings)
  {
    harness, findings := 0, 0;
    for i := 0 to |rows|
      invariant harness == CountOf(rows[..i], Crash) + CountOf(rows[..i], Timeout) + CountOf(rows[..i], Missing)
                         + CountOf(rows[..i], Unusable)
      invariant findings == CountOf(rows[..i], Findings)
    {
      assert rows[..i + 1][..i] == rows[..i];
      if rows[i].status in {Crash, Timeout, Missing, Unusable} {
        harness := harness + 1;
      } else if rows[i].status == Findings {
        findings := findings + 1;
      }
    }
    assert rows[..|rows|] == rows;
  }

  // ---- what the exit code means ----

  lemma CountPositive(rows: seq<Row>, s: Status)
    ensures CountOf(rows, s) > 0 <==> exists i :: 0 <= i < |rows| && rows[i].status == s
  {
    Tally.CountPositive(rows, StatusOf, s);
  }

  /** The exit is HARNESS exactly when some member reached no verdict, whatever the ledger and the date. */
  lemma HarnessMeansNoVerdict(env: Environment, members: seq<MemberRun>, ledger: Ledger, today: int)
    ensures AuditExit(env, members, ledger, today) == ExitHarness
       <==> exists i :: 0 <= i < |members| && !ReachedVerdict(members[i])
    ensures Severity(AuditExit(env, members, ledger, today)) == 3
       <==> exists i :: 0 <= i < |members| && !ReachedVerdict(members[i])
  {
    hide CountOf, Classify;
    var rows := FinalRows(env, members, ledger, today);
    CountPositive(rows, Crash);
    CountPositive(rows, Timeout);
    CountPositive(rows, Missing);
    CountPositive(rows, Unusable);
    forall i | 0 <= i < |members|
      ensures ReachedVerdict(members[i]) <==> rows[i].status !in {Crash, Timeout, Missing, Unusable}
    {
    }
  }

  /** A current acknowledgement of the text recorded its very numbers, or none. */
  predicate IsCovered(env: Environment, member: string, text: string, ledger: Ledger, today: int) {
    && HasAck(env, member, text, ledger)
    && IsCurrent(env, member, text, ledger, today)
    && IsUnchanged(env, member, text, ledger)
  }

  /** The member found something and no acknowledgement covers it as it stands. */
  predicate IsLoud(env: Environment, m: MemberRun, ledger: Ledger, today: int)
    requires ReachedVerdict(m)
  {
    m.outcome.code != 0 && !IsCovered(env, m.name, RunDetail(m.outcome), ledger, today)
  }

  lemma AckedMeansCovered(env: Environment, member: string, text: string, ledger: Ledger, today: int)
    ensures Classify(env, member, text, ledger, today) == Acked <==> IsCovered(env, member, text, ledger, today)
  {
    hide Fingerprint, Numbers;
  }

  /** The line a member is judged by: the last error line of a crash, otherwise its first line. */
  predicate IsJudgedBy(o: Outcome, line: string) {
    && o.Exited?
    && if o.traceback && o.stderr != [] then line == o.stderr[|o.stderr| - 1]
       else (o.stdout != [] && line == o.stdout[0]) || (o.stdout == [] && o.stderr != [] && line == o.stderr[0])
  }

  /**
   * Each row reports its own member: why it gave no verdict, or what it said, in the first 200
   * characters of the line it is judged by; only a finding can be acknowledged, and then it is INFO.
   */
  lemma RowsReportMembers(env: Environment, members: seq<MemberRun>, ledger: Ledger, today: int, i: nat)
    requires i < |members|
    ensures var m, r := members[i], FinalRows(env, members, ledger, today)[i];
      var finished := m.outcome.Exited? && !m.outcome.traceback;
      var found := finished && m.outcome.code != 0 && m.outcome.code in m.findingExits;
      && r.member == m.name
      && (r.status == Missing <==> m.outcome == NotPresent)
      && (r.status == Timeout <==> m.outcome == TimedOut)
      && (r.status == Crash <==> m.outcome == Raised || (m.outcome.Exited? && m.outcome.traceback))
      && (r.status == Unusable <==> finished && m.outcome.code != 0 && m.outcome.code !in m.findingExits)
      && (r.status == StatusOk <==> finished && m.outcome.code == 0)
      && (r.status == Info <==> found && IsCovered(env, m.name, r.detail, ledger, today))
      && (r.status == Findings <==> found && !IsCovered(env, m.name, r.detail, ledger, today))
      && (r.disposition == NotApplicable <==> !found)
      && (forall line :: IsJudgedBy(m.outcome, line) ==> r.detail <= line && |r.detail| == if |line| < 200 then |line| else 200)
  {
    hide Classify, IsCovered;
    var m := members[i];
    AckedMeansCovered(env, m.name, RunDetail(m.outcome), ledger, today);
    FindingsAreClassified(env, m.name, RunDetail(m.outcome), ledger, today);
  }

  lemma FindingsAreClassified(env: Environment, member: string, text: string, ledger: Ledger, today: int)
    ensures Classify(env, member, text, ledger, today) != NotApplicable
  {
    hide Fingerprint, Numbers;
  }

  /** Behind a hash without collisions, a fingerprint stands for one member and one normal form. */
  lemma FingerprintIsOfMemberAndForm(env: Environment, a: string, x: string, b: string, y: string)
    requires forall s, t :: env.hash(s) == env.hash(t) ==> s == t
    requires '\0' !in a && '\0' !in b
    ensures Fingerprint(env, a, x) == Fingerprint(env, b, y) <==> a == b && Normalise(x) == Normalise(y)
  {
    hide Normalise;
    if Fingerprint(env, a, x) == Fingerprint(env, b, y) {
      SameUpToNul(a, Normalise(x), b, Normalise(y));
    }
  }

  lemma SameUpToNul(a: string, x: string, b: string, y: string)
    requires '\0' !in a && '\0' !in b && a + "\0" + x == b + "\0" + y
    ensures a == b && x == y
  {
    var s, t := a + "\0" + x, b + "\0" + y;
    assert s[|a|] == '\0' && t[|b|] == '\0';
    assert forall i :: 0 <= i < |a| ==> s[i] == a[i];
    assert forall i :: 0 <= i < |b| ==> t[i] == b[i];
    assert a == s[..|a|] && b == t[..|b|] && x == s[|a| + 1..] && y == t[|b| + 1..];
  }

  /** Otherwise it is quiet exactly when every finding is acknowledged, unexpired and unchanged. */
  lemma QuietMeansAllAcked(env: Environment, members: seq<MemberRun>, ledger: Ledger, today: int)
    requires forall i :: 0 <= i < |members| ==> ReachedVerdict(members[i])
    ensures AuditExit(env, members, ledger, today) == ExitOk
       <==> forall i :: 0 <= i < |members| ==> !IsLoud(env, members[i], ledger, today)
    ensures Severity(AuditExit(env, members, ledger, today)) == 0 || Severity(AuditExit(env, members, ledger, today)) == 1
  {
    hide CountOf, Classify, RunDetail, IsCovered;
    var rows := FinalRows(env, members, ledger, today);
    HarnessMeansNoVerdict(env, members, ledger, today);
    CountPositive(rows, Findings);
    forall i | 0 <= i < |members|
      ensures rows[i].status == Findings <==> IsLoud(env, members[i], ledger, today)
    {
      AckedMeansCovered(env, members[i].name, RunDetail(members[i].outcome), ledger, today);
    }
  }

  /** Adding ledger keys never raises the exit. */
  lemma MoreAcksNeverRaise(env: Environment, members: seq<MemberRun>, ledger: Ledger, larger: Ledger, today: int)
    requires forall k :: k in ledger ==> k in larger && larger[k] == ledger[k]
    ensures Severity(AuditExit(env, members, larger, today)) <= Severity(AuditExit(env, members, ledger, today))
  {
    hide CountOf, Fingerprint;
    var before, after := FinalRows(env, members, ledger, today), FinalRows(env, members, larger, today);
    HarnessMeansNoVerdict(env, members, ledger, today);
    HarnessMeansNoVerdict(env, members, larger, today);
    CountPositive(before, Findings);
    CountPositive(after, Findings);
    forall i | 0 <= i < |members| && after[i].status == Findings ensures before[i].status == Findings {
    }
  }

  /** Time only ends acknowledgements: a finding that is loud today is loud on every later day. */
  lemma LaterIsNeverQuieter(env: Environment, members: seq<MemberRun>, ledger: Ledger, today: int, later: int)
    requires today <= later
    ensures forall i :: 0 <= i < |members| && FinalRows(env, members, ledger, today)[i].status == Findings ==>
      FinalRows(env, members, ledger, later)[i].status == Findings
    ensures Severity(AuditExit(env, members, ledger, today)) <= Severity(AuditExit(env, members, ledger, later))
  {
    hide CountOf, Fingerprint;
    var before, after := FinalRows(env, members, ledger, today), FinalRows(env, members, ledger, later);
    HarnessMeansNoVerdict(env, members, ledger, today);
    HarnessMeansNoVerdict(env, members, ledger, later);
    CountPositive(before, Findings);
    CountPositive(after, Findings);
    forall i | 0 <= i < |members| && before[i].status == Findings ensures after[i].status == Findings {
    }
  }

  lemma NoCounts()
    ensures forall s :: CountOf([], s) == 0
  {
  }

  lemma CountStep(rows: seq<Row>)
    requires rows != []
    ensures forall s :: CountOf(rows, s) == CountOf(rows[..|rows| - 1], s) + if rows[|rows| - 1].status == s then 1 else 0
  {
    Tally.CountStep(rows, StatusOf);
  }

  /** Every member is counted under exactly one status. */
  lemma {:induction false} CountsSumToMembers(rows: seq<Row>)
    ensures CountOf(rows, StatusOk) + CountOf(rows, Findings) + CountOf(rows, Info) + CountOf(rows, Crash)
          + CountOf(rows, Timeout) + CountOf(rows, Missing) + CountOf(rows, Unusable) == |rows|
  {
    hide CountOf;
    if rows == [] {
      NoCounts();
    } else {
      CountsSumToMembers(rows[..|rows| - 1]);
      CountStep(rows);
    }
  }

  /**
   * Two parity findings of one member whose lines fit the detail limit and carry different digests
   * are never hashed from the same text: no acknowledgement of one state covers the other.
   */
  lemma AckCoversOneState(member: string, p: string, g: string, q: string, h: string)
    requires HexString(g) && HexString(h) && |g| == |h| && g != h
    requires |Summary(p, g)| <= DETAIL_LIMIT && |Summary(q, h)| <= DETAIL_LIMIT
    ensures member + "\0" + Normalise(Detail(Summary(p, g))) != member + "\0" + Normalise(Detail(Summary(q, h)))
  {
    hide Normalise, Summary, Detail;
    DifferentDigestsDiffer(p, g, q, h);
    SamePrefix(member + "\0", Normalise(Detail(Summary(p, g))), Normalise(Detail(Summary(q, h))));
  }

  lemma SamePrefix(head: string, x: string, y: string)
    ensures head + x == head + y ==> x == y
  {
    assert x == (head + x)[|head|..] && y == (head + y)[|head|..];
  }

  /**
   * An acknowledgement that recorded the numbers of one legible text silences, among the legible
   * texts of the same normal form, only those that are the same outside dates and home directories.
   */
  lemma AckCoversOneMagnitude(env: Environment, member: string, acked: string, text: string, ledger: Ledger, today: int)
    requires IsLegible(acked) && IsLegible(text) && Normalise(acked) == Normalise(text)
    requires HasAck(env, member, acked, ledger)
    requires ledger[Fingerprint(env, member, acked)].numbersWhenAcked == Some(Numbers(acked))
    ensures Classify(env, member, text, ledger, today) == Acked
       <==> IsCurrent(env, member, acked, ledger, today) && Masked(text) == Masked(acked)
  {
    hide Normalise, Masked, Numbers, IsLegible;
    NumbersPinMagnitudes(acked, text);
  }

  /** The promise fails for a number behind a date: whatever it becomes, the disposition is the same. */
  lemma AckMissesNumberAfterDate(env: Environment, member: string, date: string, m: string, n: string, tail: string,
                                 ledger: Ledger, today: int)
    requires |date| == 10 && IsDate(date) && AllDigits(m) && AllDigits(n) && (tail == "" || !IsTimeChar(tail[0]))
    ensures Classify(env, member, date + " " + m + tail, ledger, today)
         == Classify(env, member, date + " " + n + tail, ledger, today)
  {
    hide Normalise, Numbers, IsDate;
    NumberAfterDateIsUnseen(date, m, n, tail);
  }
}
