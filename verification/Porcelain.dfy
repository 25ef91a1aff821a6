/**
 * The NUL-framed parser of `git status --porcelain=v2 -z` (git-status(1), "Porcelain Format Version
 * 2"). Decoded bytes are characters. A rename or copy record spans two NUL-terminated tokens.
 */
module Porcelain {
  import opened Prelude

  const NUL: char := '\0'
  const SPACE: char := ' '

  datatype Kind = OrdinaryEntry | RenameCopyEntry | UnmergedEntry | UntrackedEntry | IgnoredEntry

  datatype Entry = Entry(kind: Kind, xy: string, path: string, orig: Option<string>)

  /** A record with every printed field; `meta` holds submodule state, modes, hashes and score. */
  datatype Record =
    | Ordinary(xy: string, meta: seq<string>, path: string)
    | RenameCopy(xy: string, meta: seq<string>, path: string, orig: string)
    | Unmerged(xy: string, meta: seq<string>, path: string)
    | Untracked(path: string)
    | Ignored(path: string)

  datatype ParseError = MalformedOrdinary | MalformedRename | MissingOrigPath | MalformedUnmerged | UnknownRecord

  // ---- splitting ----

  /** `bytes.split(sep)`: one more piece than there are separators. */
  function SplitAll(s: string, sep: char): (r: seq<string>)
    ensures r != []
  {
    if s == "" then [""]
    else
      var rest := SplitAll(s[1..], sep);
      if s[0] == sep then [""] + rest else [[s[0]] + rest[0]] + rest[1..]
  }

  /** `str.split(" ", k)`: at most k splits, the remainder kept whole. */
  function SplitSome(s: string, k: nat): (r: seq<string>)
    ensures r != [] && |r| <= k + 1
    decreases |s|, k
  {
    if k == 0 || s == "" then [s]
    else if s[0] == SPACE then [""] + SplitSome(s[1..], k - 1)
    else
      var rest := SplitSome(s[1..], k);
      [[s[0]] + rest[0]] + rest[1..]
  }

  function JoinFields(fields: seq<string>): string
    requires fields != []
  {
    if |fields| == 1 then fields[0] else fields[0] + " " + JoinFields(fields[1..])
  }

  predicate Free(s: string, c: char) {
    c !in s
  }

  /** A field that contains no space splits off whole. */
  lemma {:induction false} SplitOneField(field: string, rest: string, k: nat)
    requires Free(field, SPACE) && k > 0
    ensures SplitSome(field + " " + rest, k) == [field] + SplitSome(rest, k - 1)
  {
    var s := field + " " + rest;
    if field == "" {
      assert s[0] == SPACE && s[1..] == rest;
    } else {
      SplitOneField(field[1..], rest, k);
      assert s[0] == field[0] && s[1..] == field[1..] + " " + rest;
      assert [field[0]] + field[1..] == field;
    }
  }

  /** Splitting undoes joining when only the last field may contain spaces. */
  lemma {:induction false} SplitUndoesJoin(fields: seq<string>)
    requires fields != [] && forall i :: 0 <= i < |fields| - 1 ==> Free(fields[i], SPACE)
    ensures SplitSome(JoinFields(fields), |fields| - 1) == fields
  {
    if |fields| > 1 {
      SplitOneField(fields[0], JoinFields(fields[1..]), |fields| - 1);
      SplitUndoesJoin(fields[1..]);
    }
  }

  /** Joining undoes splitting, and every field but the last is free of spaces. */
  lemma {:induction false} JoinUndoesSplit(s: string, k: nat)
    ensures var fields := SplitSome(s, k);
      && JoinFields(fields) == s
      && (forall i :: 0 <= i < |fields| - 1 ==> Free(fields[i], SPACE))
    decreases |s|, k
  {
    if k == 0 || s == "" {
    } else if s[0] == SPACE {
      JoinUndoesSplit(s[1..], k - 1);
      var rest := SplitSome(s[1..], k - 1);
      assert SplitSome(s, k)[1..] == rest;
      assert s == "" + " " + s[1..];
    } else {
      JoinUndoesSplit(s[1..], k);
      var rest := SplitSome(s[1..], k);
      var fields := SplitSome(s, k);
      assert fields[1..] == rest[1..];
      assert s == [s[0]] + s[1..];
      if |rest| > 1 {
        assert JoinFields(fields) == ([s[0]] + rest[0]) + " " + JoinFields(rest[1..]);
        assert [s[0]] + (rest[0] + " " + JoinFields(rest[1..])) == ([s[0]] + rest[0]) + " " + JoinFields(rest[1..]);
      }
    }
  }

  // ---- printing ----

  predicate ValidFields(xy: string, meta: seq<string>, n: nat) {
    Free(xy, SPACE) && Free(xy, NUL) && |meta| == n
    && forall i :: 0 <= i < |meta| ==> Free(meta[i], SPACE) && Free(meta[i], NUL)
  }

  /** Any NUL-free path is allowed: spaces, tabs, newlines, or text that looks like a record. */
  predicate ValidRecord(r: Record) {
    match r
    case Ordinary(xy, meta, path) => ValidFields(xy, meta, 6) && Free(path, NUL)
    case RenameCopy(xy, meta, path, orig) => ValidFields(xy, meta, 7) && Free(path, NUL) && Free(orig, NUL)
    case Unmerged(xy, meta, path) => ValidFields(xy, meta, 8) && Free(path, NUL)
    case Untracked(path) => Free(path, NUL)
    case Ignored(path) => Free(path, NUL)
  }

  function PrintRecord(r: Record): (tokens: seq<string>)
    ensures |tokens| == if r.RenameCopy? then 2 else 1
  {
    match r
    case Ordinary(xy, meta, path) => [JoinFields(["1", xy] + meta + [path])]
    case RenameCopy(xy, meta, path, orig) => [JoinFields(["2", xy] + meta + [path]), orig]
    case Unmerged(xy, meta, path) => [JoinFields(["u", xy] + meta + [path])]
    case Untracked(path) => ["? " + path]
    case Ignored(path) => ["! " + path]
  }

  function PrintTokens(records: seq<Record>): seq<string> {
    if records == [] then [] else PrintRecord(records[0]) + PrintTokens(records[1..])
  }

  /** Every token is terminated by NUL. */
  function Terminate(tokens: seq<string>): string {
    if tokens == [] then "" else tokens[0] + [NUL] + Terminate(tokens[1..])
  }

  function Print(records: seq<Record>): string {
    Terminate(PrintTokens(records))
  }

  // ---- parsing ----

  predicate StartsWith(s: string, prefix: string) {
    prefix <= s
  }

  /** The tokens of a stream, without the empty piece after the final NUL. */
  function Tokens(stream: string): seq<string> {
    var pieces := SplitAll(stream, NUL);
    if pieces[|pieces| - 1] == "" then pieces[..|pieces| - 1] else pieces
  }

  function Prepend(r: Record, rest: Result<seq<Record>, ParseError>): Result<seq<Record>, ParseError> {
    match rest
    case Ok(records) => Ok([r] + records)
    case Err(e) => Err(e)
  }

  function Parse(tokens: seq<string>): Result<seq<Record>, ParseError> {
    if tokens == [] then Ok([])
    else
      var raw := tokens[0];
      if StartsWith(raw, "1 ") then
        var f := SplitSome(raw, 8);
        if |f| != 9 then Err(MalformedOrdinary) else Prepend(Ordinary(f[1], f[2..8], f[8]), Parse(tokens[1..]))
      else if StartsWith(raw, "2 ") then
        var f := SplitSome(raw, 9);
        if |f| != 10 then Err(MalformedRename)
        else if |tokens| == 1 then Err(MissingOrigPath)
        else Prepend(RenameCopy(f[1], f[2..9], f[9], tokens[1]), Parse(tokens[2..]))
      else if StartsWith(raw, "u ") then
        var f := SplitSome(raw, 10);
        if |f| != 11 then Err(MalformedUnmerged) else Prepend(Unmerged(f[1], f[2..10], f[10]), Parse(tokens[1..]))
      else if StartsWith(raw, "? ") then Prepend(Untracked(raw[2..]), Parse(tokens[1..]))
      else if StartsWith(raw, "! ") then Prepend(Ignored(raw[2..]), Parse(tokens[1..]))
      else if raw == "" then Parse(tokens[1..])
      else Err(UnknownRecord)
  }

  function EntryOf(r: Record): Entry {
    match r
    case Ordinary(xy, _, path) => Entry(OrdinaryEntry, xy, path, None)
    case RenameCopy(xy, _, path, orig) => Entry(RenameCopyEntry, xy, path, Some(orig))
    case Unmerged(xy, _, path) => Entry(UnmergedEntry, xy, path, None)
    case Untracked(path) => Entry(UntrackedEntry, "??", path, None)
    case Ignored(path) => Entry(IgnoredEntry, "!!", path, None)
  }

  function EntriesOf(records: seq<Record>): (r: seq<Entry>)
    ensures |r| == |records|
  {
    seq(|records|, i requires 0 <= i < |records| => EntryOf(records[i]))
  }

  /** Entries read so far, followed by what the rest of the tokens gives. */
  function Combine(sofar: seq<Entry>, rest: Result<seq<Record>, ParseError>): Result<seq<Entry>, ParseError> {
    match rest
    case Ok(records) => Ok(sofar + EntriesOf(records))
    case Err(e) => Err(e)
  }

  method RunParser(stream: string) returns (r: Result<seq<Entry>, ParseError>)
    ensures r == Combine([], Parse(Tokens(stream)))
  {
    hide SplitSome, SplitAll, Combine, EntriesOf;
    var tokens := SplitAll(stream, NUL);
    if tokens[|tokens| - 1] == "" {
      tokens := tokens[..|tokens| - 1];
    }
    var entries: seq<Entry> := [];
    var i, n := 0, |tokens|;
    assert tokens[0..] == tokens;
    while i < n
      invariant 0 <= i <= n == |tokens|
      invariant Combine(entries, Parse(tokens[i..])) == Combine([], Parse(tokens))
    {
      var raw := tokens[i];
      assert tokens[i..][1..] == tokens[i + 1..];
      ghost var rest := Parse(tokens[i + 1..]);
      if StartsWith(raw, "1 ") {
        var fields := SplitSome(raw, 8);
        if |fields| != 9 {
          CombineEnds(entries, MalformedOrdinary);
          return Err(MalformedOrdinary);
        }
        CombineStep(entries, Ordinary(fields[1], fields[2..8], fields[8]), rest);
        entries := entries + [Entry(OrdinaryEntry, fields[1], fields[8], None)];
        i := i + 1;
      } else if StartsWith(raw, "2 ") {
        var fields := SplitSome(raw, 9);
        if |fields| != 10 {
          CombineEnds(entries, MalformedRename);
          return Err(MalformedRename);
        }
        if i + 1 >= n {
          CombineEnds(entries, MissingOrigPath);
          return Err(MissingOrigPath);
        }
        var origPath := tokens[i + 1];
        assert tokens[i..][2..] == tokens[i + 2..];
        CombineStep(entries, RenameCopy(fields[1], fields[2..9], fields[9], origPath), Parse(tokens[i + 2..]));
        entries := entries + [Entry(RenameCopyEntry, fields[1], fields[9], Some(origPath))];
        i := i + 2;
      } else if StartsWith(raw, "u ") {
        var fields := SplitSome(raw, 10);
        if |fields| != 11 {
          CombineEnds(entries, MalformedUnmerged);
          return Err(MalformedUnmerged);
        }
        CombineStep(entries, Unmerged(fields[1], fields[2..10], fields[10]), rest);
        entries := entries + [Entry(UnmergedEntry, fields[1], fields[10], None)];
        i := i + 1;
      } else if StartsWith(raw, "? ") {
        CombineStep(entries, Untracked(raw[2..]), rest);
        entries := entries + [Entry(UntrackedEntry, "??", raw[2..], None)];
        i := i + 1;
      } else if StartsWith(raw, "! ") {
        CombineStep(entries, Ignored(raw[2..]), rest);
        entries := entries + [Entry(IgnoredEntry, "!!", raw[2..], None)];
        i := i + 1;
      } else if raw == "" {
        i := i + 1;
      } else {
        CombineEnds(entries, UnknownRecord);
        return Err(UnknownRecord);
      }
    }
    assert tokens[n..] == [];
    CombineEnds(entries, UnknownRecord);
    return Ok(entries);
  }

  lemma CombineEnds(sofar: seq<Entry>, e: ParseError)
    ensures Combine(sofar, Ok([])) == Ok(sofar)
    ensures Combine(sofar, Err(e)) == Err(e)
  {
    assert sofar + EntriesOf([]) == sofar;
  }

  lemma CombineStep(sofar: seq<Entry>, r: Record, rest: Result<seq<Record>, ParseError>)
    ensures Combine(sofar, Prepend(r, rest)) == Combine(sofar + [EntryOf(r)], rest)
  {
    if rest.Ok? {
      assert EntriesOf([r] + rest.value) == [EntryOf(r)] + EntriesOf(rest.value);
      assert sofar + EntriesOf([r] + rest.value) == (sofar + [EntryOf(r)]) + EntriesOf(rest.value);
    }
  }

  // ---- round trips ----

  lemma {:induction false} SplitOneToken(token: string, rest: string)
    requires Free(token, NUL)
    ensures SplitAll(token + [NUL] + rest, NUL) == [token] + SplitAll(rest, NUL)
  {
    var s := token + [NUL] + rest;
    if token == "" {
      assert s[1..] == rest;
    } else {
      SplitOneToken(token[1..], rest);
      assert s[0] == token[0] && s[1..] == token[1..] + [NUL] + rest;
      assert [token[0]] + token[1..] == token;
    }
  }

  lemma SplitNothing()
    ensures SplitAll("", NUL) == [""]
  {
  }

  lemma {:induction false} SplitTerminated(tokens: seq<string>)
    requires forall i :: 0 <= i < |tokens| ==> Free(tokens[i], NUL)
    ensures SplitAll(Terminate(tokens), NUL) == tokens + [""]
  {
    if tokens == [] {
      SplitNothing();
    } else {
      hide SplitAll;
      SplitOneToken(tokens[0], Terminate(tokens[1..]));
      SplitTerminated(tokens[1..]);
      assert tokens == [tokens[0]] + tokens[1..];
    }
  }

  lemma {:induction false} JoinFree(fields: seq<string>, c: char)
    requires fields != [] && c != SPACE && forall i :: 0 <= i < |fields| ==> Free(fields[i], c)
    ensures Free(JoinFields(fields), c)
  {
    if |fields| > 1 {
      JoinFree(fields[1..], c);
    }
  }

  lemma RecordTokensFree(r: Record)
    requires ValidRecord(r)
    ensures forall i :: 0 <= i < |PrintRecord(r)| ==> Free(PrintRecord(r)[i], NUL)
  {
    match r
    case Ordinary(xy, meta, path) => JoinFree(["1", xy] + meta + [path], NUL);
    case RenameCopy(xy, meta, path, _) => JoinFree(["2", xy] + meta + [path], NUL);
    case Unmerged(xy, meta, path) => JoinFree(["u", xy] + meta + [path], NUL);
    case _ =>
  }

  lemma {:induction false} PrintedTokensFree(records: seq<Record>)
    requires forall i :: 0 <= i < |records| ==> ValidRecord(records[i])
    ensures forall i :: 0 <= i < |PrintTokens(records)| ==> Free(PrintTokens(records)[i], NUL)
  {
    hide PrintRecord, ValidRecord;
    if records != [] {
      RecordTokensFree(records[0]);
      PrintedTokensFree(records[1..]);
    }
  }

  /** The first printed record is read back and exactly its tokens are consumed. */
  lemma ParseFirst(r: Record, rest: seq<string>)
    requires ValidRecord(r)
    ensures Parse(PrintRecord(r) + rest) == Prepend(r, Parse(rest))
  {
    var tokens := PrintRecord(r) + rest;
    match r
    case Ordinary(xy, meta, path) =>
      FieldsBack("1", xy, meta, path);
      assert tokens[1..] == rest;
    case RenameCopy(xy, meta, path, orig) =>
      FieldsBack("2", xy, meta, path);
      assert tokens[2..] == rest;
    case Unmerged(xy, meta, path) =>
      FieldsBack("u", xy, meta, path);
      assert tokens[1..] == rest;
    case Untracked(path) =>
      assert tokens[1..] == rest && tokens[0][2..] == path;
    case Ignored(path) =>
      assert tokens[1..] == rest && tokens[0][2..] == path;
  }

  lemma FieldsBack(tag: string, xy: string, meta: seq<string>, path: string)
    requires |tag| == 1 && Free(tag, SPACE) && ValidFields(xy, meta, |meta|)
    ensures var raw := JoinFields([tag, xy] + meta + [path]);
      var f := SplitSome(raw, |meta| + 2);
      && StartsWith(raw, tag + " ") && raw[0] == tag[0]
      && |f| == |meta| + 3 && f[1] == xy && f[2..|meta| + 2] == meta && f[|meta| + 2] == path
  {
    var fields := [tag, xy] + meta + [path];
    SplitUndoesJoin(fields);
    assert fields[2..|meta| + 2] == meta;
  }

  lemma {:induction false} ParseUndoesPrintTokens(records: seq<Record>)
    requires forall i :: 0 <= i < |records| ==> ValidRecord(records[i])
    ensures Parse(PrintTokens(records)) == Ok(records)
  {
    hide Parse, PrintRecord, ValidRecord;
    if records == [] {
      ParseNothing();
    } else {
      ParseFirst(records[0], PrintTokens(records[1..]));
      ParseUndoesPrintTokens(records[1..]);
      assert [records[0]] + records[1..] == records;
    }
  }

  lemma ParseNothing()
    ensures Parse([]) == Ok([])
  {
  }

  /** What the caller is told of a record, over the text git prints for it. */
  predicate Reports(e: Entry, r: Record) {
    match r
    case Ordinary(xy, _, path) => e == Entry(OrdinaryEntry, xy, path, None)
    case RenameCopy(xy, _, path, orig) =>
      e.kind == RenameCopyEntry && e.xy == xy && e.path == path && e.orig == Some(orig)
    case Unmerged(xy, _, path) => e == Entry(UnmergedEntry, xy, path, None)
    case Untracked(path) => e == Entry(UntrackedEntry, "??", path, None)
    case Ignored(path) => e == Entry(IgnoredEntry, "!!", path, None)
  }

  /** The printed form: tag, status, other fields and path; the original path of a rename is a token of its own. */
  lemma PrintedForm(xy: string, meta: seq<string>, path: string, orig: string)
    ensures var fields := xy + " " + JoinFields(meta + [path]);
      && PrintRecord(Ordinary(xy, meta, path)) == ["1 " + fields]
      && PrintRecord(RenameCopy(xy, meta, path, orig)) == ["2 " + fields, orig]
      && PrintRecord(Unmerged(xy, meta, path)) == ["u " + fields]
      && PrintRecord(Untracked(path)) == ["? " + path]
      && PrintRecord(Ignored(path)) == ["! " + path]
  {
    hide JoinFields;
    var fields := xy + " " + JoinFields(meta + [path]);
    JoinTagged("1", "1 ", xy, meta, path, fields);
    JoinTagged("2", "2 ", xy, meta, path, fields);
    JoinTagged("u", "u ", xy, meta, path, fields);
  }

  lemma JoinTagged(tag: string, start: string, xy: string, meta: seq<string>, path: string, rest: string)
    requires start == tag + " " && rest == xy + " " + JoinFields(meta + [path])
    ensures JoinFields([tag, xy] + meta + [path]) == start + rest
  {
    var fields := [tag, xy] + meta + [path];
    assert fields[1..] == [xy] + meta + [path] && fields[1..][1..] == meta + [path];
    assert JoinFields(fields[1..]) == xy + " " + JoinFields(fields[1..][1..]);
  }

  /**
   * The parser inverts the printer for every list of records with NUL-free paths, whatever else the
   * paths contain, including an origPath that is empty or looks like a record header.
   */
  lemma ParserInvertsPrinter(records: seq<Record>)
    requires forall i :: 0 <= i < |records| ==> ValidRecord(records[i])
    ensures Parse(Tokens(Print(records))) == Ok(records)
    ensures var r := Combine([], Parse(Tokens(Print(records))));
      r.Ok? && |r.value| == |records| && forall i :: 0 <= i < |records| ==> Reports(r.value[i], records[i])
  {
    hide Parse, PrintRecord, ValidRecord, PrintTokens, SplitAll, Combine, Reports;
    var tokens := PrintTokens(records);
    PrintedTokensFree(records);
    SplitTerminated(tokens);
    assert (tokens + [""])[..|tokens|] == tokens;
    ParseUndoesPrintTokens(records);
    CombineReports(records);
  }

  lemma CombineReports(records: seq<Record>)
    ensures var r := Combine([], Ok(records));
      r.Ok? && |r.value| == |records| && forall i :: 0 <= i < |records| ==> Reports(r.value[i], records[i])
  {
    hide Reports, EntryOf;
    assert [] + EntriesOf(records) == EntriesOf(records);
    forall i | 0 <= i < |records| ensures Reports(EntryOf(records[i]), records[i]) {
      EntryReports(records[i]);
    }
  }

  lemma EntryReports(r: Record)
    ensures Reports(EntryOf(r), r)
  {
  }

  function Spaces(s: string): nat {
    if s == "" then 0 else Spaces(s[1..]) + if s[0] == ' ' then 1 else 0
  }

  lemma {:induction false} PiecesCount(s: string, k: nat)
    ensures |SplitSome(s, k)| == 1 + if Spaces(s) < k then Spaces(s) else k
    decreases |s|, k
  {
    if k != 0 && s != "" {
      PiecesCount(s[1..], if s[0] == SPACE then k - 1 else k);
    }
  }

  /** Why a token that follows whole records is no record; `last` if the stream ends with it. */
  function Refusal(raw: string, last: bool): Option<ParseError> {
    if raw == "" then None
    else if |raw| < 2 || raw[1] != ' ' then Some(UnknownRecord)
    else if raw[0] == '1' then if Spaces(raw) < 8 then Some(MalformedOrdinary) else None
    else if raw[0] == '2' then
      if Spaces(raw) < 9 then Some(MalformedRename) else if last then Some(MissingOrigPath) else None
    else if raw[0] == 'u' then if Spaces(raw) < 10 then Some(MalformedUnmerged) else None
    else if raw[0] == '?' || raw[0] == '!' then None
    else Some(UnknownRecord)
  }

  /** The first token that is no record decides the error, whatever follows it. */
  lemma {:induction false} RefusesFirstBadToken(records: seq<Record>, raw: string, rest: seq<string>)
    requires forall i :: 0 <= i < |records| ==> ValidRecord(records[i])
    requires Refusal(raw, rest == []).Some?
    ensures Parse(PrintTokens(records) + [raw] + rest) == Err(Refusal(raw, rest == []).value)
  {
    hide PrintRecord, ValidRecord, Parse, Refusal;
    if records == [] {
      assert PrintTokens(records) + [raw] + rest == [raw] + rest;
      RefusesToken(raw, rest);
    } else {
      var first, more := PrintRecord(records[0]), PrintTokens(records[1..]);
      RefusesFirstBadToken(records[1..], raw, rest);
      assert (first + more) + [raw] + rest == first + (more + [raw] + rest);
      ParseFirst(records[0], more + [raw] + rest);
    }
  }

  lemma RefusesToken(raw: string, rest: seq<string>)
    requires Refusal(raw, rest == []).Some?
    ensures Parse([raw] + rest) == Err(Refusal(raw, rest == []).value)
  {
    hide SplitSome, Spaces;
    PiecesCount(raw, 8);
    PiecesCount(raw, 9);
    PiecesCount(raw, 10);
  }

  /** The fields of a token split at its tag give a valid, printable record. */
  lemma FieldsForward(raw: string, tag: string, n: nat)
    requires |tag| == 1 && tag[0] != SPACE && StartsWith(raw, tag + " ") && Free(raw, NUL)
    ensures var f := SplitSome(raw, n + 2);
      |f| == n + 3 ==>
        && ValidFields(f[1], f[2..n + 2], n) && Free(f[n + 2], NUL)
        && JoinFields([tag, f[1]] + f[2..n + 2] + [f[n + 2]]) == raw
  {
    hide SplitSome, JoinFields, Free;
    var f := SplitSome(raw, n + 2);
    JoinUndoesSplit(raw, n + 2);
    if |f| == n + 3 {
      TagIsField(raw, tag);
      SplitOneField(tag, raw[2..], n + 2);
      assert f == [tag, f[1]] + f[2..n + 2] + [f[n + 2]];
      PiecesFree(raw, n + 2);
    }
  }

  lemma TagIsField(raw: string, tag: string)
    requires |tag| == 1 && tag[0] != SPACE && StartsWith(raw, tag + " ")
    ensures raw == tag + " " + raw[2..] && Free(tag, SPACE)
  {
  }

  lemma {:induction false} PiecesFree(s: string, k: nat)
    requires Free(s, NUL)
    ensures forall i :: 0 <= i < |SplitSome(s, k)| ==> Free(SplitSome(s, k)[i], NUL)
    decreases |s|, k
  {
    if k == 0 || s == "" {
    } else if s[0] == SPACE {
      PiecesFree(s[1..], k - 1);
    } else {
      PiecesFree(s[1..], k);
      assert Free(SplitSome(s[1..], k)[0], NUL);
    }
  }

  /** The tokens that are not stray empties between records, as the parser meets them. */
  function WithoutStrays(tokens: seq<string>): seq<string> {
    if tokens == [] then []
    else if tokens[0] == "" then WithoutStrays(tokens[1..])
    else if StartsWith(tokens[0], "2 ") && |tokens| > 1 then tokens[..2] + WithoutStrays(tokens[2..])
    else [tokens[0]] + WithoutStrays(tokens[1..])
  }

  /** Stray empty tokens change nothing, neither a result nor an error. */
  lemma {:induction false} StraysDoNotMatter(tokens: seq<string>)
    ensures Parse(WithoutStrays(tokens)) == Parse(tokens)
    decreases |tokens|
  {
    hide SplitSome;
    if tokens != [] {
      StraysDoNotMatter(tokens[1..]);
      if tokens[0] != "" && StartsWith(tokens[0], "2 ") && |tokens| > 1 {
        StraysDoNotMatter(tokens[2..]);
        var rest := WithoutStrays(tokens[2..]);
        assert (tokens[..2] + rest)[2..] == rest;
      }
    }
  }

  /** A parsed stream that does not start with a stray token starts with the tokens of one valid record. */
  lemma HeadRecord(tokens: seq<string>) returns (r: Record, rest: seq<string>)
    requires tokens != [] && tokens[0] != "" && Parse(tokens).Ok?
    requires forall i :: 0 <= i < |tokens| ==> Free(tokens[i], NUL)
    ensures ValidRecord(r) && tokens == PrintRecord(r) + rest
    ensures Parse(tokens) == Prepend(r, Parse(rest))
    ensures WithoutStrays(tokens) == PrintRecord(r) + WithoutStrays(rest)
  {
    hide SplitSome, JoinFields, Free;
    var raw := tokens[0];
    rest := tokens[1..];
    if StartsWith(raw, "1 ") {
      var f := SplitSome(raw, 8);
      FieldsForward(raw, "1", 6);
      r := Ordinary(f[1], f[2..8], f[8]);
    } else if StartsWith(raw, "2 ") {
      var f := SplitSome(raw, 9);
      FieldsForward(raw, "2", 7);
      r := RenameCopy(f[1], f[2..9], f[9], tokens[1]);
      rest := tokens[2..];
      assert tokens[..2] == [raw, tokens[1]];
    } else if StartsWith(raw, "u ") {
      var f := SplitSome(raw, 10);
      FieldsForward(raw, "u", 8);
      r := Unmerged(f[1], f[2..10], f[10]);
    } else if StartsWith(raw, "? ") {
      r := Untracked(raw[2..]);
      AfterTag(raw, "? ");
    } else {
      r := Ignored(raw[2..]);
      AfterTag(raw, "! ");
    }
    assert forall tag :: |tag| == 2 && StartsWith(raw, tag) ==> raw[0] == tag[0];
    assert r.RenameCopy? <==> StartsWith(raw, "2 ");
    assert PrintRecord(r) == if r.RenameCopy? then tokens[..2] else [raw];
  }

  lemma AfterTag(raw: string, tag: string)
    requires StartsWith(raw, tag) && Free(raw, NUL)
    ensures raw == tag + raw[|tag|..] && Free(raw[|tag|..], NUL)
  {
  }

  /**
   * The printer inverts the parser: whatever parses consists of valid records, and printing them
   * gives back every token exactly once, in order, stray empty tokens aside.
   */
  lemma {:induction false} PrinterInvertsParser(tokens: seq<string>)
    requires Parse(tokens).Ok? && forall i :: 0 <= i < |tokens| ==> Free(tokens[i], NUL)
    ensures var records := Parse(tokens).value;
      && PrintTokens(records) == WithoutStrays(tokens)
      && forall i :: 0 <= i < |records| ==> ValidRecord(records[i])
    decreases |tokens|
  {
    if tokens != [] {
      if tokens[0] == "" {
        PrinterInvertsParser(tokens[1..]);
      } else {
        var r, rest := HeadRecord(tokens);
        NextRecords(tokens, r, rest);
      }
    }
  }

  lemma {:induction false} NextRecords(tokens: seq<string>, r: Record, rest: seq<string>)
    requires Parse(tokens).Ok? && forall i :: 0 <= i < |tokens| ==> Free(tokens[i], NUL)
    requires ValidRecord(r) && tokens == PrintRecord(r) + rest
    requires Parse(tokens) == Prepend(r, Parse(rest))
    requires WithoutStrays(tokens) == PrintRecord(r) + WithoutStrays(rest)
    ensures var records := Parse(tokens).value;
      && PrintTokens(records) == WithoutStrays(tokens)
      && forall i :: 0 <= i < |records| ==> ValidRecord(records[i])
    decreases |tokens|, 0
  {
    hide Parse, PrintRecord, ValidRecord, WithoutStrays, Free;
    assert forall i :: 0 <= i < |rest| ==> rest[i] == tokens[|PrintRecord(r)| + i];
    PrinterInvertsParser(rest);
    var records := Parse(tokens).value;
    assert records == [r] + Parse(rest).value && records[1..] == Parse(rest).value;
  }
}
