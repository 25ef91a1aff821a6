/**
 * From a parity summary line to an audit fingerprint: the digest is spelled in letters so that it
 * survives the normalisation that replaces dates, home directories and digits, and the digits thrown
 * away are kept beside it. Digits and white space are the ASCII ones; the hash is not modelled.
 */
module Digest {

  const DETAIL_LIMIT: nat := 200
  const DIGEST_LENGTH: nat := 16

  // ---- character classes ----

  predicate IsDigit(c: char) {
    '0' <= c <= '9'
  }

  predicate IsSpace(c: char) {
    c == ' ' || '\t' <= c <= '\r'
  }

  predicate IsTimeChar(c: char) {
    IsDigit(c) || c == ':' || c == '.' || c == '+'
  }

  predicate IsPathChar(c: char) {
    c != '/' && !IsSpace(c)
  }

  // ---- the three patterns, as the length matched at the start of a string ----

  /** Length of the longest run of characters accepted by `p`. */
  function Run(s: string, p: char -> bool): (n: nat)
    ensures n <= |s|
    ensures forall i :: 0 <= i < n ==> p(s[i])
  {
    if s == "" || !p(s[0]) then 0 else 1 + Run(s[1..], p)
  }

  predicate IsDate(s: string) {
    && |s| >= 10
    && IsDigit(s[0]) && IsDigit(s[1]) && IsDigit(s[2]) && IsDigit(s[3]) && s[4] == '-'
    && IsDigit(s[5]) && IsDigit(s[6]) && s[7] == '-'
    && IsDigit(s[8]) && IsDigit(s[9])
  }

  /** A date, optionally a `T` or a space, and any run of digits, colons, dots and plus signs. */
  function MatchIso(s: string): nat {
    if !IsDate(s) then 0
    else
      var n := if |s| > 10 && (s[10] == 'T' || s[10] == ' ') then 11 else 10;
      n + Run(s[n..], IsTimeChar)
  }

  const HOME_PREFIX := "/Users/"

  function MatchHome(s: string): nat {
    if !(HOME_PREFIX <= s) then 0
    else
      var n := Run(s[|HOME_PREFIX|..], IsPathChar);
      if n == 0 then 0 else |HOME_PREFIX| + n
  }

  function MatchDigits(s: string): nat {
    Run(s, IsDigit)
  }

  datatype Pattern = Iso | Home | Digits

  function Matched(p: Pattern, s: string): (n: nat)
    ensures n <= |s|
  {
    match p
    case Iso => MatchIso(s)
    case Home => MatchHome(s)
    case Digits => MatchDigits(s)
  }

  /** `re.sub`: leftmost, non-overlapping. */
  function Substitute(p: Pattern, replacement: string, s: string): string
    decreases |s|
  {
    if s == "" then ""
    else if Matched(p, s) > 0 then replacement + Substitute(p, replacement, s[Matched(p, s)..])
    else [s[0]] + Substitute(p, replacement, s[1..])
  }

  function Normalise(text: string): string {
    Substitute(Digits, "<N>", Substitute(Home, "<HOME>", Substitute(Iso, "<DATE>", text)))
  }

  /** `re.findall` for digits. */
  function FindDigits(s: string): seq<string>
    decreases |s|
  {
    if s == "" then []
    else if MatchDigits(s) > 0 then [s[..MatchDigits(s)]] + FindDigits(s[MatchDigits(s)..])
    else FindDigits(s[1..])
  }

  /** The digits outside dates and home directories. */
  function Numbers(text: string): seq<string> {
    FindDigits(Substitute(Home, "", Substitute(Iso, "", text)))
  }

  // ---- what substitution cannot touch ----

  /** No match of the pattern reaches over the character. */
  predicate Stops(p: Pattern, c: char) {
    match p
    case Iso => c == ']'
    case Home => c == ' '
    case Digits => c == ' '
  }

  lemma MatchStops(p: Pattern, z: string, y: string)
    requires y != "" && Stops(p, y[0])
    ensures Matched(p, z + y) <= |z|
  {
    var s := z + y;
    assert s[|z|] == y[0];
    match p
    case Iso =>
      if Matched(p, s) > |z| {
        IsoWithin(s, |z|);
      }
    case Home =>
      if Matched(p, s) > |z| {
        HomeWithin(s, |z|);
      }
    case Digits =>
  }

  lemma IsoWithin(s: string, i: nat)
    requires i < MatchIso(s)
    ensures IsDigit(s[i]) || s[i] == '-' || s[i] == 'T' || s[i] == ' ' || IsTimeChar(s[i])
  {
    var n := if |s| > 10 && (s[10] == 'T' || s[10] == ' ') then 11 else 10;
    if i >= n {
      assert s[i] == s[n..][i - n];
    }
  }

  lemma HomeWithin(s: string, i: nat)
    requires i < MatchHome(s)
    ensures i < |HOME_PREFIX| ==> s[i] == HOME_PREFIX[i]
    ensures i >= |HOME_PREFIX| ==> IsPathChar(s[i])
  {
    if i >= |HOME_PREFIX| {
      assert s[i] == s[|HOME_PREFIX|..][i - |HOME_PREFIX|];
    }
  }

  /** A character at which the pattern cannot begin. */
  predicate CannotStart(p: Pattern, c: char) {
    match p
    case Iso => !IsDigit(c)
    case Home => c != '/'
    case Digits => !IsDigit(c)
  }

  lemma {:induction false} Untouched(p: Pattern, replacement: string, y: string)
    requires forall i :: 0 <= i < |y| ==> CannotStart(p, y[i])
    ensures Substitute(p, replacement, y) == y
  {
    if y != "" {
      assert Matched(p, y) == 0 by {
        assert CannotStart(p, y[0]);
        if p == Home {
          assert HOME_PREFIX[0] == '/';
        }
      }
      Untouched(p, replacement, y[1..]);
    }
  }

  /** A suffix that starts with a stopping character and offers no match comes through whole. */
  lemma {:induction false} SuffixSurvives(p: Pattern, replacement: string, x: string, y: string) returns (w: string)
    requires y != "" && Stops(p, y[0])
    requires forall i :: 0 <= i < |y| ==> CannotStart(p, y[i])
    ensures Substitute(p, replacement, x + y) == w + y
    decreases |x|
  {
    hide Matched;
    if x == "" {
      Untouched(p, replacement, y);
      assert x + y == y;
      w := "";
    } else {
      var s := x + y;
      MatchStops(p, x, y);
      var n := Matched(p, s);
      if n > 0 {
        var rest := SuffixSurvives(p, replacement, x[n..], y);
        assert s[n..] == x[n..] + y;
        w := replacement + rest;
        assert replacement + (rest + y) == w + y;
      } else {
        var rest := SuffixSurvives(p, replacement, x[1..], y);
        assert s[1..] == x[1..] + y;
        w := [s[0]] + rest;
        assert [s[0]] + (rest + y) == w + y;
      }
    }
  }

  // ---- the letter digest ----

  predicate IsHex(c: char) {
    IsDigit(c) || 'a' <= c <= 'f'
  }

  predicate IsDigestLetter(c: char) {
    'a' <= c <= 'p'
  }

  /** Digits become g .. p, letters stay. */
  function Letter(c: char): (r: char)
    requires IsHex(c)
    ensures IsDigestLetter(r)
  {
    if IsDigit(c) then 'g' + (c - '0') else c
  }

  ghost predicate HexString(h: string) {
    forall i :: 0 <= i < |h| ==> IsHex(h[i])
  }

  function Letters(h: string): (r: string)
    requires forall i :: 0 <= i < |h| ==> IsHex(h[i])
    ensures |r| == |h| && forall i :: 0 <= i < |r| ==> IsDigestLetter(r[i])
  {
    seq(|h|, i requires 0 <= i < |h| => Letter(h[i]))
  }

  /** The alphabet, spelled out: a hex digit becomes the letter at its place. */
  lemma LettersByTable(h: string, i: nat, k: nat)
    requires HexString(h) && i < |h| && k < 16
    ensures IsHex("0123456789abcdef"[k])
    ensures Letters(h)[i] == "ghijklmnopabcdef"[k] <==> h[i] == "0123456789abcdef"[k]
  {
    var hex, letters := "0123456789abcdef", "ghijklmnopabcdef";
    assert hex[k] == if k < 10 then '0' + k as char else 'a' + (k - 10) as char;
    assert letters[k] == if k < 10 then 'g' + k as char else 'a' + (k - 10) as char;
  }

  lemma LettersInjective(g: string, h: string)
    requires HexString(g) && HexString(h) && Letters(g) == Letters(h)
    ensures g == h
  {
    forall i | 0 <= i < |g| ensures |h| == |g| && g[i] == h[i] {
      assert |Letters(g)| == |g| && |Letters(h)| == |h|;
      assert Letters(g)[i] == Letter(g[i]) && Letters(h)[i] == Letter(h[i]);
    }
    assert |g| == |Letters(g)| == |Letters(h)| == |h|;
  }

  /** The summary line: a free-form preview, then the digest of the complete state. */
  function Summary(preview: string, hex: string): string
    requires HexString(hex)
  {
    preview + "] id=" + Letters(hex)
  }

  /** The part of a line the aggregator keeps. */
  function Detail(line: string): string {
    if |line| <= DETAIL_LIMIT then line else line[..DETAIL_LIMIT]
  }

  /** After all three substitutions the line still ends with its digest. */
  lemma DigestSurvives(preview: string, hex: string) returns (w: string)
    requires HexString(hex)
    ensures Normalise(Summary(preview, hex)) == w + " id=" + Letters(hex)
  {
    hide Substitute, Letters;
    var l := Letters(hex);
    var y1, y2 := "] id=" + l, " id=" + l;
    assert Summary(preview, hex) == preview + y1;
    var a := SuffixSurvives(Iso, "<DATE>", preview, y1);
    assert a + y1 == (a + "]") + y2;
    var b := SuffixSurvives(Home, "<HOME>", a + "]", y2);
    w := SuffixSurvives(Digits, "<N>", b, y2);
    assert w + y2 == w + " id=" + l;
  }

  /** Two lines within the detail limit that carry different digests never normalise alike, whatever their previews. */
  lemma DifferentDigestsDiffer(p: string, g: string, q: string, h: string)
    requires HexString(g) && HexString(h) && |g| == |h| && g != h
    requires |Summary(p, g)| <= DETAIL_LIMIT && |Summary(q, h)| <= DETAIL_LIMIT
    ensures Normalise(Detail(Summary(p, g))) != Normalise(Detail(Summary(q, h)))
  {
    hide Normalise;
    var v := DigestSurvives(p, g);
    var w := DigestSurvives(q, h);
    var x, y := v + " id=" + Letters(g), w + " id=" + Letters(h);
    if x == y {
      assert x[|x| - |g|..] == Letters(g) && y[|y| - |h|..] == Letters(h);
      LettersInjective(g, h);
    }
  }

  /**
   * Beyond the limit the guarantee is lost: for every preview whose line is too long there are two
   * different digests that leave the same detail, so one acknowledgement would cover both.
   */
  lemma LongLinesCollide(preview: string) returns (g: string, h: string)
    requires |preview| + 5 + DIGEST_LENGTH > DETAIL_LIMIT
    ensures HexString(g) && HexString(h) && |g| == |h| == DIGEST_LENGTH && g != h
    ensures Detail(Summary(preview, g)) == Detail(Summary(preview, h))
  {
    g := "0000000000000000";
    h := "0000000000000001";
    assert g[15] != h[15];
    var x, y := Letters(g), Letters(h);
    assert forall i :: 0 <= i < 15 ==> g[i] == h[i];
    assert x[..15] == y[..15];
    var n := |preview| + 5;
    assert Summary(preview, g) == (preview + "] id=") + x && Summary(preview, h) == (preview + "] id=") + y;
    forall i | 0 <= i < DETAIL_LIMIT ensures Summary(preview, g)[i] == Summary(preview, h)[i] {
      if i >= n {
        assert x[..15][i - n] == y[..15][i - n];
      }
    }
  }

  ghost predicate IsDigest(h: string) {
    HexString(h) && |h| == DIGEST_LENGTH
  }

  /** Any two different digests behind this preview leave different normalised details. */
  ghost predicate Distinguishes(preview: string) {
    forall g, h :: IsDigest(g) && IsDigest(h) && g != h ==>
      Normalise(Detail(Summary(preview, g))) != Normalise(Detail(Summary(preview, h)))
  }

  /** A line tells its states apart if and only if it fits the detail limit. */
  lemma DistinguishesExactlyWithinTheLimit(preview: string)
    ensures Distinguishes(preview) <==> |preview| + |"] id="| + 16 <= 200
  {
    hide Normalise;
    if |preview| + 5 + DIGEST_LENGTH <= DETAIL_LIMIT {
      forall g, h | IsDigest(g) && IsDigest(h) && g != h
        ensures Normalise(Detail(Summary(preview, g))) != Normalise(Detail(Summary(preview, h)))
      {
        DifferentDigestsDiffer(preview, g, preview, h);
      }
    } else {
      var g, h := LongLinesCollide(preview);
      assert IsDigest(g) && IsDigest(h);
    }
  }

  // ---- what is masked ----

  lemma {:induction false} CleanPrefix(p: Pattern, replacement: string, x: string, y: string)
    requires forall i :: 0 <= i < |x| ==> CannotStart(p, x[i])
    ensures Substitute(p, replacement, x + y) == x + Substitute(p, replacement, y)
  {
    hide Matched;
    if x == "" {
      assert x + y == y;
    } else {
      var s := x + y;
      CleanStep(p, replacement, s);
      assert s[1..] == x[1..] + y;
      CleanPrefix(p, replacement, x[1..], y);
      assert [x[0]] + (x[1..] + Substitute(p, replacement, y)) == x + Substitute(p, replacement, y);
    }
  }

  lemma CleanStep(p: Pattern, replacement: string, s: string)
    requires s != "" && CannotStart(p, s[0])
    ensures Substitute(p, replacement, s) == [s[0]] + Substitute(p, replacement, s[1..])
  {
    assert HOME_PREFIX[0] == '/';
  }

  lemma MatchedStep(p: Pattern, replacement: string, x: string, y: string)
    requires x != "" && Matched(p, x + y) == |x|
    ensures Substitute(p, replacement, x + y) == replacement + Substitute(p, replacement, y)
  {
    hide Matched;
    assert (x + y)[|x|..] == y;
  }

  /** Text without digits and slashes is kept as it is and holds no number. */
  lemma PlainPrefixIsKept(x: string, y: string)
    requires forall i :: 0 <= i < |x| ==> !('0' <= x[i] <= '9') && x[i] != '/'
    ensures Normalise(x + y) == x + Normalise(y) && Numbers(x + y) == Numbers(y)
  {
    hide Substitute, FindDigits;
    var masked := Substitute(Iso, "<DATE>", y);
    var erased := Substitute(Iso, "", y);
    CleanPrefix(Iso, "<DATE>", x, y);
    CleanPrefix(Iso, "", x, y);
    CleanPrefix(Home, "<HOME>", x, masked);
    CleanPrefix(Home, "", x, erased);
    CleanPrefix(Digits, "<N>", x, Substitute(Home, "<HOME>", masked));
    NoDigitsHere(x, Substitute(Home, "", erased));
  }

  lemma {:induction false} NoDigitsHere(x: string, y: string)
    requires forall i :: 0 <= i < |x| ==> !IsDigit(x[i])
    ensures FindDigits(x + y) == FindDigits(y)
  {
    if x == "" {
      assert x + y == y;
    } else {
      assert (x + y)[1..] == x[1..] + y;
      NoDigitsHere(x[1..], y);
    }
  }

  /** A date with its time of day. */
  predicate IsStamp(s: string) {
    && IsDate(s)
    && (|s| > 10 ==> s[10] == 'T' || s[10] == ' ' || IsTimeChar(s[10]))
    && forall i :: 11 <= i < |s| ==> IsTimeChar(s[i])
  }

  /** What follows is no part of the stamp. */
  predicate EndsStamp(s: string, y: string) {
    y == "" || (!IsTimeChar(y[0]) && (|s| == 10 ==> y[0] != 'T' && y[0] != ' '))
  }

  /** A whole stamp becomes one mark, and none of its digits is a number. */
  lemma StampIsMasked(s: string, y: string)
    requires IsStamp(s) && EndsStamp(s, y)
    ensures Normalise(s + y) == "<DATE>" + Normalise(y) && Numbers(s + y) == Numbers(y)
  {
    hide Substitute, FindDigits, Matched;
    StampMatches(s, y);
    MatchedStep(Iso, "<DATE>", s, y);
    MatchedStep(Iso, "", s, y);
    CleanPrefix(Home, "<HOME>", "<DATE>", Substitute(Iso, "<DATE>", y));
    CleanPrefix(Digits, "<N>", "<DATE>", Substitute(Home, "<HOME>", Substitute(Iso, "<DATE>", y)));
    assert "" + Substitute(Iso, "", y) == Substitute(Iso, "", y);
  }

  lemma StampMatches(s: string, y: string)
    requires IsStamp(s) && EndsStamp(s, y)
    ensures Matched(Iso, s + y) == |s|
  {
    var n := if |s| > 10 && (s[10] == 'T' || s[10] == ' ') then 11 else 10;
    var t := s + y;
    assert forall i :: 0 <= i < 10 ==> t[i] == s[i];
    assert t[n..] == s[n..] + y;
    RunOver(s[n..], y, IsTimeChar);
  }

  lemma {:induction false} RunOver(s: string, tail: string, p: char -> bool)
    requires forall i :: 0 <= i < |s| ==> p(s[i])
    requires tail == "" || !p(tail[0])
    ensures Run(s + tail, p) == |s|
  {
    if s == "" {
      assert s + tail == tail;
    } else {
      assert (s + tail)[1..] == s[1..] + tail;
      RunOver(s[1..], tail, p);
    }
  }

  /** A home directory becomes one mark, up to the next slash or space. */
  lemma HomeIsMasked(name: string, y: string)
    requires name != "" && forall i :: 0 <= i < |name| ==> IsPathChar(name[i]) && !IsDigit(name[i])
    requires y == "" || y[0] == '/' || IsSpace(y[0])
    ensures Normalise("/Users/" + name + y) == "<HOME>" + Normalise(y) && Numbers("/Users/" + name + y) == Numbers(y)
  {
    hide Substitute, FindDigits;
    HomeAfterDates("<DATE>", "<HOME>", name, y);
    HomeAfterDates("", "", name, y);
    CleanPrefix(Digits, "<N>", "<HOME>", Substitute(Home, "<HOME>", Substitute(Iso, "<DATE>", y)));
    var erased := Substitute(Home, "", Substitute(Iso, "", y));
    assert "" + erased == erased;
  }

  lemma HomeAfterDates(date: string, mark: string, name: string, y: string)
    requires name != "" && forall i :: 0 <= i < |name| ==> IsPathChar(name[i]) && !IsDigit(name[i])
    requires y == "" || y[0] == '/' || IsSpace(y[0])
    ensures Substitute(Home, mark, Substitute(Iso, date, "/Users/" + name + y))
         == mark + Substitute(Home, mark, Substitute(Iso, date, y))
  {
    hide Substitute, Matched;
    var home, rest := "/Users/" + name, Substitute(Iso, date, y);
    CleanPrefix(Iso, date, home, y);
    HeadIsKept(Iso, date, y);
    HomeMatches(name, rest);
    MatchedStep(Home, mark, home, rest);
  }

  lemma HeadIsKept(p: Pattern, replacement: string, y: string)
    requires y == "" || CannotStart(p, y[0])
    ensures var r := Substitute(p, replacement, y); if y == "" then r == "" else r != "" && r[0] == y[0]
  {
    if y != "" {
      CleanStep(p, replacement, y);
    }
  }

  lemma HomeMatches(name: string, y: string)
    requires name != "" && forall i :: 0 <= i < |name| ==> IsPathChar(name[i])
    requires y == "" || y[0] == '/' || IsSpace(y[0])
    ensures Matched(Home, "/Users/" + name + y) == |"/Users/" + name|
  {
    var s := "/Users/" + name + y;
    assert s[|HOME_PREFIX|..] == name + y;
    RunOver(name, y, IsPathChar);
  }

  /** A number becomes one mark and is kept beside it. */
  lemma NumberIsMasked(n: string, y: string)
    requires n != "" && AllDigits(n) && (y == "" || (!IsDigit(y[0]) && y[0] != '-' && y[0] != '/'))
    ensures Normalise(n + y) == "<N>" + Normalise(y) && Numbers(n + y) == [n] + Numbers(y)
  {
    hide Substitute, FindDigits, Matched;
    var masked, erased := Substitute(Iso, "<DATE>", y), Substitute(Iso, "", y);
    NoDateInNumber("<DATE>", n, y);
    NoDateInNumber("", n, y);
    HeadIsKept(Iso, "<DATE>", y);
    HeadIsKept(Iso, "", y);
    CleanPrefix(Home, "<HOME>", n, masked);
    CleanPrefix(Home, "", n, erased);
    HeadIsKept(Home, "<HOME>", masked);
    HeadIsKept(Home, "", erased);
    DigitsMatch(n, Substitute(Home, "<HOME>", masked));
    MatchedStep(Digits, "<N>", n, Substitute(Home, "<HOME>", masked));
    DigitsMatch(n, Substitute(Home, "", erased));
    FindFirst(n, Substitute(Home, "", erased));
  }

  lemma DigitsMatch(n: string, y: string)
    requires AllDigits(n) && (y == "" || !IsDigit(y[0]))
    ensures Matched(Digits, n + y) == |n|
  {
    RunOver(n, y, IsDigit);
  }

  lemma FindFirst(n: string, y: string)
    requires n != "" && Matched(Digits, n + y) == |n|
    ensures FindDigits(n + y) == [n] + FindDigits(y)
  {
    hide MatchDigits;
    assert (n + y)[..|n|] == n && (n + y)[|n|..] == y;
  }

  lemma {:induction false} NoDateInNumber(replacement: string, n: string, y: string)
    requires AllDigits(n) && (y == "" || (!IsDigit(y[0]) && y[0] != '-'))
    ensures Substitute(Iso, replacement, n + y) == n + Substitute(Iso, replacement, y)
  {
    if n == "" {
      assert n + y == y;
    } else {
      var s := n + y;
      NotADate(n, y);
      assert s[1..] == n[1..] + y;
      NoDateInNumber(replacement, n[1..], y);
      var rest := Substitute(Iso, replacement, y);
      assert [n[0]] + (n[1..] + rest) == n + rest;
    }
  }

  lemma NotADate(n: string, y: string)
    requires n != "" && AllDigits(n) && (y == "" || (!IsDigit(y[0]) && y[0] != '-'))
    ensures !IsDate(n + y)
  {
    var s := n + y;
    assert forall i :: 0 <= i < |n| ==> s[i] == n[i];
    if y != "" {
      assert s[|n|] == y[0];
    }
  }

  // ---- magnitudes ----

  /** The text with its dates and home directories masked: what a situation and its magnitudes are. */
  function Masked(text: string): string {
    Substitute(Home, "<HOME>", Substitute(Iso, "<DATE>", text))
  }

  const DIGITS_MARK := "<N>"

  /** The text does not spell the mark that stands for digits. */
  ghost predicate NoMark(s: string) {
    forall i :: 0 <= i <= |s| ==> !(DIGITS_MARK <= s[i..])
  }

  lemma NoMarkInTail(s: string, n: nat)
    requires NoMark(s) && n <= |s|
    ensures NoMark(s[n..])
  {
    forall i | 0 <= i <= |s[n..]| ensures !(DIGITS_MARK <= s[n..][i..]) {
      assert s[n..][i..] == s[n + i..];
    }
  }

  lemma DigitsStep(s: string)
    requires s != ""
    ensures var n := MatchDigits(s);
      n <= |s|
      && if n > 0 then
        && Substitute(Digits, DIGITS_MARK, s) == DIGITS_MARK + Substitute(Digits, DIGITS_MARK, s[n..])
        && FindDigits(s) == [s[..n]] + FindDigits(s[n..])
      else
        && Substitute(Digits, DIGITS_MARK, s) == [s[0]] + Substitute(Digits, DIGITS_MARK, s[1..])
        && FindDigits(s) == FindDigits(s[1..])
  {
  }

  /** Where one text has digits, a text of the same template without the mark has digits too. */
  lemma DigitsLineUp(a: string, b: string)
    requires NoMark(b) && a != "" && MatchDigits(a) > 0
    requires Substitute(Digits, DIGITS_MARK, a) == Substitute(Digits, DIGITS_MARK, b)
    ensures b != "" && MatchDigits(b) > 0
  {
    hide Substitute, MatchDigits, FindDigits;
    DigitsStep(a);
    EmptyTemplate(b);
    assert b[0..] == b;
    if MatchDigits(b) == 0 {
      MarkIsLiteral(b);
    }
  }

  /** A template that starts with the mark, but not for digits, spells it. */
  lemma MarkIsLiteral(b: string)
    requires b != "" && MatchDigits(b) == 0 && DIGITS_MARK <= Substitute(Digits, DIGITS_MARK, b)
    ensures DIGITS_MARK <= b
  {
    hide Substitute, MatchDigits, FindDigits;
    var sub := Substitute(Digits, DIGITS_MARK, b);
    DigitsStep(b);
    assert sub[0] == '<' && sub[1] == 'N' && sub[2] == '>';
    assert b[0] == '<' && sub[1..] == Substitute(Digits, DIGITS_MARK, b[1..]);
    LiteralHead(b[1..], 'N');
    assert b[1..][1..] == b[2..] && sub[1..][1..] == sub[2..];
    LiteralHead(b[2..], '>');
    assert b[1] == b[1..][0] && b[2] == b[2..][0];
  }

  lemma EmptyTemplate(b: string)
    ensures Substitute(Digits, DIGITS_MARK, b) == "" <==> b == ""
  {
  }

  /** A template that starts with another character than the mark's first comes from that character. */
  lemma LiteralHead(b: string, c: char)
    requires Substitute(Digits, DIGITS_MARK, b) != "" && Substitute(Digits, DIGITS_MARK, b)[0] == c != '<'
    ensures b != "" && b[0] == c && MatchDigits(b) == 0
    ensures Substitute(Digits, DIGITS_MARK, b)[1..] == Substitute(Digits, DIGITS_MARK, b[1..])
  {
    hide Substitute, MatchDigits, FindDigits;
    EmptyTemplate(b);
    DigitsStep(b);
  }

  /** A text without the mark is determined by its template and its digits. */
  lemma {:induction false} TemplateAndDigitsDetermine(a: string, b: string)
    requires NoMark(a) && NoMark(b)
    requires Substitute(Digits, DIGITS_MARK, a) == Substitute(Digits, DIGITS_MARK, b) && FindDigits(a) == FindDigits(b)
    ensures a == b
    decreases |a|
  {
    hide Substitute, MatchDigits, FindDigits, NoMark;
    EmptyTemplate(a);
    EmptyTemplate(b);
    if a != "" {
      DigitsStep(a);
      DigitsStep(b);
      var m, n := MatchDigits(a), MatchDigits(b);
      if m > 0 {
        DigitsLineUp(a, b);
        NoMarkInTail(a, m);
        NoMarkInTail(b, n);
        assert a == a[..m] + a[m..] && b == b[..n] + b[n..];
        assert FindDigits(a)[0] == a[..m] && FindDigits(b)[0] == b[..n];
        assert FindDigits(a)[1..] == FindDigits(a[m..]) && FindDigits(b)[1..] == FindDigits(b[n..]);
        var x, y := Substitute(Digits, DIGITS_MARK, a[m..]), Substitute(Digits, DIGITS_MARK, b[n..]);
        assert x == (DIGITS_MARK + x)[3..] && y == (DIGITS_MARK + y)[3..];
        TemplateAndDigitsDetermine(a[m..], b[n..]);
      } else {
        if n > 0 {
          DigitsLineUp(b, a);
        }
        NoMarkInTail(a, 1);
        NoMarkInTail(b, 1);
        var x, y := Substitute(Digits, DIGITS_MARK, a[1..]), Substitute(Digits, DIGITS_MARK, b[1..]);
        assert ([a[0]] + x)[0] == a[0] && ([b[0]] + y)[0] == b[0];
        assert x == ([a[0]] + x)[1..] && y == ([b[0]] + y)[1..];
        TemplateAndDigitsDetermine(a[1..], b[1..]);
        assert a == [a[0]] + a[1..] && b == [b[0]] + b[1..];
      }
    }
  }

  /** The recorded numbers are those of the masked text, and the masked text does not spell the mark. */
  ghost predicate IsLegible(text: string) {
    NoMark(Masked(text)) && Numbers(text) == FindDigits(Masked(text))
  }

  /**
   * Legible texts with one normal form and the same numbers are the same outside dates and home
   * directories: an acknowledgement covers no other magnitude.
   */
  lemma NumbersPinMagnitudes(x: string, y: string)
    requires IsLegible(x) && IsLegible(y)
    ensures Normalise(x) == Normalise(y) && Numbers(x) == Numbers(y) <==> Masked(x) == Masked(y)
  {
    hide Substitute, FindDigits, NoMark;
    if Normalise(x) == Normalise(y) && Numbers(x) == Numbers(y) {
      TemplateAndDigitsDetermine(Masked(x), Masked(y));
    }
  }

  lemma {:induction false} NothingToSubstitute(p: Pattern, replacement: string, s: string)
    requires forall i :: 0 <= i <= |s| ==> Matched(p, s[i..]) == 0
    ensures Substitute(p, replacement, s) == s
  {
    hide Matched;
    if s != "" {
      assert s[0..] == s;
      assert forall i :: 0 <= i <= |s[1..]| ==> s[1..][i..] == s[i + 1..];
      NothingToSubstitute(p, replacement, s[1..]);
    }
  }

  /** A text with no date, no home directory and no mark is legible as it stands. */
  lemma PlainTextIsLegible(text: string)
    requires NoMark(text)
    requires forall i :: 0 <= i <= |text| ==> Matched(Iso, text[i..]) == 0 && Matched(Home, text[i..]) == 0
    ensures IsLegible(text) && Masked(text) == text && Numbers(text) == FindDigits(text)
  {
    hide Substitute, Matched, FindDigits, NoMark;
    NothingToSubstitute(Iso, "<DATE>", text);
    NothingToSubstitute(Home, "<HOME>", text);
    NothingToSubstitute(Iso, "", text);
    NothingToSubstitute(Home, "", text);
  }

  ghost predicate AllDigits(s: string) {
    forall i :: 0 <= i < |s| ==> '0' <= s[i] <= '9'
  }

  lemma NumberInStamp(date: string, n: string)
    requires |date| == 10 && IsDate(date) && AllDigits(n)
    ensures IsStamp(date + " " + n)
  {
    var s := date + " " + n;
    assert forall i :: 0 <= i < 10 ==> s[i] == date[i];
    assert forall i :: 11 <= i < |s| ==> s[i] == n[i - 11];
  }

  /**
   * The failing family: a number that follows a date and a space is neither in the normal form nor
   * among the numbers, so it may move to any other number unseen.
   */
  lemma NumberAfterDateIsUnseen(date: string, m: string, n: string, tail: string)
    requires |date| == 10 && IsDate(date) && AllDigits(m) && AllDigits(n) && (tail == "" || !IsTimeChar(tail[0]))
    ensures var x, y := date + " " + m + tail, date + " " + n + tail;
      && Normalise(x) == Normalise(y) && Numbers(x) == Numbers(y)
      && (m != n ==> x != y)
  {
    hide Normalise, Numbers, IsDate;
    NumberInStamp(date, m);
    NumberInStamp(date, n);
    StampIsMasked(date + " " + m, tail);
    StampIsMasked(date + " " + n, tail);
    var x, y := date + " " + m + tail, date + " " + n + tail;
    if x == y {
      assert |m| == |n|;
      assert m == x[11..11 + |m|] && n == y[11..11 + |n|];
    }
  }
}
