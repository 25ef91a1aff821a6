/** Strings as Python orders and prints them: code-point order, sorted sets, decimal numerals. */
module Text {

  /** Lexicographic order on code points. */
  predicate Le(a: string, b: string) {
    a == "" || (b != "" && (a[0] < b[0] || (a[0] == b[0] && Le(a[1..], b[1..]))))
  }

  lemma {:induction false} LeTotal(a: string, b: string)
    ensures Le(a, b) || Le(b, a)
    ensures Le(a, b) && Le(b, a) ==> a == b
  {
    if a != "" && b != "" {
      LeTotal(a[1..], b[1..]);
      assert a == [a[0]] + a[1..] && b == [b[0]] + b[1..];
    }
  }

  lemma {:induction false} LeTransitive(a: string, b: string, c: string)
    requires Le(a, b) && Le(b, c)
    ensures Le(a, c)
  {
    if a != "" && b != "" && c != "" {
      if a[0] == b[0] && b[0] == c[0] {
        LeTransitive(a[1..], b[1..], c[1..]);
      }
    }
  }

  /** The strings agree below i, and there the first has a smaller character. */
  ghost predicate DiffersAt(a: string, b: string, i: nat) {
    i < |a| && i < |b| && a[..i] == b[..i] && a[i] < b[i]
  }

  /** The order is that of a dictionary: a prefix comes first, otherwise the first difference decides. */
  lemma {:induction false} LeIsLexicographic(a: string, b: string)
    ensures Le(a, b) <==> a <= b || exists i: nat :: DiffersAt(a, b, i)
  {
    if a != "" && b != "" {
      LeIsLexicographic(a[1..], b[1..]);
      assert a == [a[0]] + a[1..] && b == [b[0]] + b[1..];
      if Le(a, b) && a[0] == b[0] && !(a[1..] <= b[1..]) {
        var i: nat :| DiffersAt(a[1..], b[1..], i);
        assert a[..i + 1] == [a[0]] + a[1..][..i] && b[..i + 1] == [b[0]] + b[1..][..i];
        assert DiffersAt(a, b, i + 1);
      } else if a[0] < b[0] {
        assert DiffersAt(a, b, 0);
      }
      if i: nat :| DiffersAt(a, b, i) && i > 0 {
        assert a[0] == a[..i][0] == b[..i][0] == b[0];
        assert a[1..][..i - 1] == a[..i][1..] && b[1..][..i - 1] == b[..i][1..];
        assert DiffersAt(a[1..], b[1..], i - 1);
      }
    }
  }

  ghost predicate Ascending(s: seq<string>) {
    forall i, j :: 0 <= i < j < |s| ==> Le(s[i], s[j]) && s[i] != s[j]
  }

  ghost predicate IsLeast(k: string, s: set<string>) {
    k in s && forall x :: x in s ==> Le(k, x)
  }

  lemma {:induction false} LeastExists(s: set<string>)
    requires s != {}
    ensures exists k :: IsLeast(k, s)
  {
    var y :| y in s;
    LeTotal(y, y);
    if s == {y} {
      assert IsLeast(y, s);
    } else {
      LeastExists(s - {y});
      var least :| IsLeast(least, s - {y});
      LeTotal(y, least);
      LeTotal(least, least);
      if Le(y, least) {
        forall x | x in s ensures Le(y, x) {
          if x != y {
            LeTransitive(y, least, x);
          }
        }
        assert IsLeast(y, s);
      } else {
        assert IsLeast(least, s);
      }
    }
  }

  /** Python's `sorted(set)`. */
  ghost function SortedSet(s: set<string>): (r: seq<string>)
    ensures forall k :: k in r <==> k in s
    ensures Ascending(r)
  {
    if s == {} then []
    else
      LeastExists(s);
      var k :| IsLeast(k, s);
      var rest := SortedSet(s - {k});
      assert forall i :: 0 <= i < |rest| ==> rest[i] in rest;
      [k] + rest
  }

  lemma HasMember(s: seq<string>)
    ensures s != [] ==> exists k :: k in s
  {
    if s != [] {
      assert s[0] in s;
    }
  }

  lemma {:induction false} AscendingIsUnique(a: seq<string>, b: seq<string>)
    requires Ascending(a) && Ascending(b)
    requires forall k :: k in a <==> k in b
    ensures a == b
  {
    HasMember(a);
    HasMember(b);
    if a != [] {
      assert a[0] in b && b != [];
      assert b[0] in a;
      LeTotal(a[0], b[0]);
      assert a[0] == b[0];
      forall k ensures k in a[1..] <==> k in b[1..] {
        if k in a[1..] {
          assert k in a && k != a[0];
          assert k in b;
        }
        if k in b[1..] {
          assert k in b && k != b[0];
          assert k in a;
        }
      }
      AscendingIsUnique(a[1..], b[1..]);
    }
  }

  /** Selection of the least remaining key. */
  method SortKeys(s: set<string>) returns (r: seq<string>)
    ensures r == SortedSet(s)
  {
    r := [];
    var left := s;
    while left != {}
      invariant left <= s
      invariant Ascending(r)
      invariant forall k :: k in r <==> k in s && k !in left
      invariant forall k, x :: k in r && x in left ==> Le(k, x)
      decreases |left|
    {
      var k := Least(left);
      assert forall i :: 0 <= i < |r| ==> r[i] in r;
      r := r + [k];
      left := left - {k};
    }
    AscendingIsUnique(r, SortedSet(s));
  }

  method Least(s: set<string>) returns (k: string)
    requires s != {}
    ensures IsLeast(k, s)
  {
    k :| k in s;
    var seen := {k};
    LeTotal(k, k);
    while seen != s
      invariant k in seen && seen <= s && forall x :: x in seen ==> Le(k, x)
      decreases |s - seen|
    {
      var x :| x in s - seen;
      LeTotal(x, k);
      LeTotal(x, x);
      if Le(x, k) {
        forall y | y in seen ensures Le(x, y) {
          LeTransitive(x, k, y);
        }
        k := x;
      }
      assert s - (seen + {x}) < s - seen;
      seen := seen + {x};
    }
  }

  /** `str(n)` for a nonnegative integer. */
  function Decimal(n: nat): (r: string)
    ensures r != "" && forall c :: c in r ==> '0' <= c <= '9'
  {
    var digit := ['0' + (n % 10) as char];
    if n < 10 then digit else Decimal(n / 10) + digit
  }

  /** The number a numeral stands for. */
  function ReadDecimal(s: string): int {
    if s == "" then 0 else ReadDecimal(s[..|s| - 1]) * 10 + (s[|s| - 1] as int - '0' as int)
  }

  lemma {:induction false} DecimalReadsBack(n: nat)
    ensures ReadDecimal(Decimal(n)) == n
  {
    if n >= 10 {
      DecimalReadsBack(n / 10);
      assert Decimal(n)[..|Decimal(n)| - 1] == Decimal(n / 10);
    } else {
      assert Decimal(n)[..0] == "";
    }
  }

  lemma {:induction false} DecimalInjective(m: nat, n: nat)
    requires Decimal(m) == Decimal(n)
    ensures m == n
  {
    var dm, dn := Decimal(m), Decimal(n);
    assert dm[|dm| - 1] == '0' + (m % 10) as char && dn[|dn| - 1] == '0' + (n % 10) as char;
    assert m % 10 == n % 10;
    assert m >= 10 ==> |dm| > 1 && Decimal(m / 10) == dm[..|dm| - 1];
    assert n >= 10 ==> |dn| > 1 && Decimal(n / 10) == dn[..|dn| - 1];
    if m >= 10 && n >= 10 {
      DecimalInjective(m / 10, n / 10);
    }
  }
}
