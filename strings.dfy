/**
 * The string operations the pages use, with JavaScript's meaning:
 * `toLowerCase`, `includes`, `startsWith`, `join`, `split` on one
 * character, `replace` of the first occurrence, `padStart(2, "0")`,
 * `Number` on digit text and the default (code-unit) string order of
 * `Array.prototype.sort`.
 */
module Strings {
  import opened Wrappers
  import Lists

  // ---------------------------------------------------------------- truthiness

  /** `(x || "")` for a string field that may be null. */
  function Text(x: Option<string>): string {
    x.GetOr("")
  }

  /** A string field is truthy when it is present and not empty. */
  predicate Truthy(x: Option<string>) {
    x.Some? && x.value != ""
  }

  /** `x || null`: the empty string becomes null. */
  function NullIfEmpty(s: string): (r: Option<string>)
    ensures r.None? <==> s == ""
    ensures r.Some? ==> r.value == s
  {
    if s == "" then None else Some(s)
  }

  /** `xs.filter(Boolean)` on nullable strings: the present, non-empty values, in order. */
  function PresentValues(xs: seq<Option<string>>): (r: seq<string>)
    ensures |r| <= |xs|
    decreases |xs|
  {
    if |xs| == 0 then []
    else (if Truthy(xs[0]) then [xs[0].value] else []) + PresentValues(xs[1..])
  }

  lemma {:induction false} PresentValuesMembership(xs: seq<Option<string>>, s: string)
    ensures s in PresentValues(xs) <==> s != "" && Some(s) in xs
    decreases |xs|
  {
    if |xs| > 0 {
      PresentValuesMembership(xs[1..], s);
      assert xs == [xs[0]] + xs[1..];
    }
  }

  /**
   * Dropping the missing and empty values keeps the order of first
   * occurrence: a value whose first place among the present values comes
   * earlier also comes earlier in the column itself.
   */
  lemma {:induction false} PresentValuesOrder(xs: seq<Option<string>>, s: string, t: string)
    requires s in PresentValues(xs) && t in PresentValues(xs)
    requires Lists.FirstIndex(PresentValues(xs), s) < Lists.FirstIndex(PresentValues(xs), t)
    ensures Some(s) in xs && Some(t) in xs
    ensures Lists.FirstIndex(xs, Some(s)) < Lists.FirstIndex(xs, Some(t))
    decreases |xs|
  {
    PresentValuesMembership(xs, s);
    PresentValuesMembership(xs, t);
    var rest := xs[1..];
    var p := PresentValues(xs);
    var p' := PresentValues(rest);
    if Truthy(xs[0]) && xs[0].value == s {
      assert Lists.FirstIndex(p, s) == 0;
      assert s != t;
      assert Lists.FirstIndex(xs, Some(s)) == 0;
    } else {
      assert xs[0] != Some(s) && xs[0] != Some(t) by {
        if Truthy(xs[0]) {
          assert p[0] == xs[0].value;
          assert Lists.FirstIndex(p, t) != 0;
        }
      }
      if Truthy(xs[0]) {
        assert p == [xs[0].value] + p';
        assert Lists.FirstIndex(p, s) == Lists.FirstIndex(p', s) + 1;
        assert Lists.FirstIndex(p, t) == Lists.FirstIndex(p', t) + 1;
      } else {
        assert p == p';
      }
      PresentValuesOrder(rest, s, t);
      assert Lists.FirstIndex(xs, Some(s)) == Lists.FirstIndex(rest, Some(s)) + 1;
      assert Lists.FirstIndex(xs, Some(t)) == Lists.FirstIndex(rest, Some(t)) + 1;
    }
  }

  /** `xs.map((x) => x[key])`. */
  function Column<T>(xs: seq<T>, key: T -> Option<string>): (c: seq<Option<string>>)
    ensures |c| == |xs| && forall i :: 0 <= i < |xs| ==> c[i] == key(xs[i])
  {
    seq(|xs|, i requires 0 <= i < |xs| => key(xs[i]))
  }

  /** `[...new Set(xs.map((x) => x[key]).filter(Boolean))]`: the choices of a drop-down. */
  function UniqueOf<T>(xs: seq<T>, key: T -> Option<string>): seq<string> {
    Lists.Distinct(PresentValues(Column(xs, key)))
  }

  /**
   * Every present, non-empty value of the column is offered exactly once,
   * nothing else is, and the choices come in the order in which the values
   * first appear in the column.
   */
  lemma UniqueOfSpec<T>(xs: seq<T>, key: T -> Option<string>)
    ensures Lists.NoDuplicates(UniqueOf(xs, key))
    ensures forall s :: s in UniqueOf(xs, key) <==> s != "" && exists i :: 0 <= i < |xs| && key(xs[i]) == Some(s)
    ensures forall a, b :: 0 <= a < b < |UniqueOf(xs, key)| ==>
      && Some(UniqueOf(xs, key)[a]) in Column(xs, key)
      && Some(UniqueOf(xs, key)[b]) in Column(xs, key)
      && Lists.FirstIndex(Column(xs, key), Some(UniqueOf(xs, key)[a])) < Lists.FirstIndex(Column(xs, key), Some(UniqueOf(xs, key)[b]))
  {
    var column := Column(xs, key);
    var u := UniqueOf(xs, key);
    Lists.DistinctSpec(PresentValues(column));
    forall s ensures s in PresentValues(column) <==> s != "" && exists i :: 0 <= i < |xs| && key(xs[i]) == Some(s) {
      PresentValuesMembership(column, s);
      if exists i :: 0 <= i < |xs| && key(xs[i]) == Some(s) {
        var i :| 0 <= i < |xs| && key(xs[i]) == Some(s);
        assert column[i] == Some(s);
      }
    }
    forall a, b | 0 <= a < b < |u|
      ensures Some(u[a]) in column && Some(u[b]) in column
      ensures Lists.FirstIndex(column, Some(u[a])) < Lists.FirstIndex(column, Some(u[b]))
    {
      PresentValuesOrder(column, u[a], u[b]);
    }
  }

  // ---------------------------------------------------------------- case

  /** `toLowerCase` on one character (ASCII letters only). */
  function LowerChar(c: char): char {
    if 'A' <= c <= 'Z' then (c as int + 32) as char else c
  }

  function Lower(s: string): string {
    seq(|s|, i requires 0 <= i < |s| => LowerChar(s[i]))
  }

  // ---------------------------------------------------------------- search

  predicate StartsWith(s: string, prefix: string) {
    |prefix| <= |s| && s[..|prefix|] == prefix
  }

  /** `s.includes(sub)`. */
  predicate Contains(s: string, sub: string)
    decreases |s|
  {
    StartsWith(s, sub) || (|s| > 0 && Contains(s[1..], sub))
  }

  predicate OccursAt(s: string, sub: string, k: int) {
    0 <= k <= |s| - |sub| && s[k..k + |sub|] == sub
  }

  /** `includes` finds `sub` at some position. */
  lemma {:induction false} ContainsAt(s: string, sub: string)
    ensures Contains(s, sub) <==> exists k :: OccursAt(s, sub, k)
    decreases |s|
  {
    if |s| > 0 {
      ContainsAt(s[1..], sub);
      if k :| OccursAt(s, sub, k) {
        if k > 0 {
          assert OccursAt(s[1..], sub, k - 1);
        }
      }
      if StartsWith(s, sub) {
        assert OccursAt(s, sub, 0);
      } else if Contains(s[1..], sub) {
        var k :| OccursAt(s[1..], sub, k);
        assert OccursAt(s, sub, k + 1);
      }
    } else {
      if Contains(s, sub) {
        assert OccursAt(s, sub, 0);
      }
      if k :| OccursAt(s, sub, k) {
        assert s[..|sub|] == sub;
      }
    }
  }

  /** Text containing `x + y` contains `x` and contains `y`. */
  lemma ContainsParts(s: string, x: string, y: string)
    requires Contains(s, x + y)
    ensures Contains(s, x) && Contains(s, y)
  {
    ContainsAt(s, x + y);
    ContainsAt(s, x);
    ContainsAt(s, y);
    var k :| OccursAt(s, x + y, k);
    var n := |x| + |y|;
    var w := s[k..k + n];
    assert w == x + y;
    assert s[k..k + |x|] == w[..|x|] == x;
    assert s[k + |x|..k + n] == w[|x|..] == y;
    assert OccursAt(s, x, k);
    assert OccursAt(s, y, k + |x|);
  }

  /** Text containing `sub` holds every character of `sub`. */
  lemma ContainsChar(s: string, sub: string, j: nat)
    requires Contains(s, sub) && j < |sub|
    ensures sub[j] in s
  {
    ContainsAt(s, sub);
    var k :| OccursAt(s, sub, k);
    assert s[k..k + |sub|][j] == sub[j];
  }

  /** Text missing one character of `sub` does not contain `sub`. */
  lemma MissingChar(s: string, sub: string, j: nat)
    requires j < |sub| && sub[j] !in s
    ensures !Contains(s, sub)
  {
    if Contains(s, sub) {
      ContainsChar(s, sub, j);
    }
  }

  /** Case-insensitive `includes`, as every search box on the pages does it. */
  predicate ContainsIgnoringCase(s: string, term: string) {
    Contains(Lower(s), Lower(term))
  }

  /** Index of the first occurrence of `c`. */
  function IndexOfChar(s: string, c: char): (i: nat)
    requires c in s
    ensures i < |s| && s[i] == c
    ensures c !in s[..i]
  {
    if s[0] == c then 0
    else
      var k := IndexOfChar(s[1..], c);
      assert s[..k + 1] == [s[0]] + s[1..][..k];
      k + 1
  }

  /** In `a + [c] + b` with no `c` in `a`, the first `c` is the one after `a`. */
  lemma IndexOfCharAfter(a: string, c: char, b: string)
    requires c !in a
    ensures c in a + [c] + b && IndexOfChar(a + [c] + b, c) == |a|
  {
    var s := a + [c] + b;
    assert s[|a|] == c;
    var i := IndexOfChar(s, c);
    assert forall k :: 0 <= k < |a| ==> s[k] == a[k];
    assert forall k :: 0 <= k < i ==> s[k] == s[..i][k];
  }

  // ---------------------------------------------------------------- join / split

  /** `parts.join(sep)`. */
  function Join(parts: seq<string>, sep: string): string
    decreases |parts|
  {
    if |parts| == 0 then ""
    else if |parts| == 1 then parts[0]
    else parts[0] + sep + Join(parts[1..], sep)
  }

  /** `s.split(c)` for a one-character separator: never empty. */
  function Split(s: string, c: char): (r: seq<string>)
    ensures |r| >= 1
    decreases |s|
  {
    if c in s then
      var i := IndexOfChar(s, c);
      [s[..i]] + Split(s[i + 1..], c)
    else [s]
  }

  /** Splitting on a separator that occurs in none of the parts undoes `join`. */
  lemma {:induction false} SplitJoin(parts: seq<string>, c: char)
    requires |parts| >= 1
    requires forall k :: 0 <= k < |parts| ==> c !in parts[k]
    ensures Split(Join(parts, [c]), c) == parts
    decreases |parts|
  {
    if |parts| == 1 {
      assert Join(parts, [c]) == parts[0];
    } else {
      var rest := Join(parts[1..], [c]);
      var s := parts[0] + [c] + rest;
      assert Join(parts, [c]) == s;
      assert s[|parts[0]|] == c;
      assert s[..|parts[0]|] == parts[0];
      assert c in s;
      var i := IndexOfChar(s, c);
      assert i == |parts[0]|;
      assert s[i + 1..] == rest;
      SplitJoin(parts[1..], c);
    }
  }

  /** Joining one more part adds the separator and that part. */
  lemma {:induction false} JoinSnoc(parts: seq<string>, x: string, sep: string)
    requires |parts| >= 1
    ensures Join(parts + [x], sep) == Join(parts, sep) + sep + x
    decreases |parts|
  {
    if |parts| == 1 {
      assert (parts + [x])[1..] == [x];
    } else {
      assert (parts + [x])[1..] == parts[1..] + [x];
      JoinSnoc(parts[1..], x, sep);
    }
  }

  /** The part before the first `c`: `s.split(c)[0]`. */
  function BeforeFirst(s: string, c: char): (r: string)
    ensures c !in r
    ensures StartsWith(s, r)
    ensures c !in s ==> r == s
  {
    Split(s, c)[0]
  }

  /** `s.replace(c, d)` with a one-character string pattern: first occurrence only. */
  function ReplaceFirst(s: string, c: char, d: char): (r: string)
    ensures |r| == |s|
    ensures c !in s ==> r == s
    ensures c in s ==> var i := IndexOfChar(s, c);
                       r[..i] == s[..i] && r[i] == d && r[i + 1..] == s[i + 1..]
  {
    if c in s then
      var i := IndexOfChar(s, c);
      s[..i] + [d] + s[i + 1..]
    else s
  }

  // ---------------------------------------------------------------- numbers

  function DigitChar(d: nat): char
    requires d < 10
  {
    ('0' as int + d) as char
  }

  predicate IsDigit(c: char) {
    '0' <= c <= '9'
  }

  /** `n.toString()` for a natural number. */
  function NatToString(n: nat): (r: string)
    ensures |r| >= 1
    ensures forall k :: 0 <= k < |r| ==> IsDigit(r[k])
  {
    if n < 10 then [DigitChar(n)] else NatToString(n / 10) + [DigitChar(n % 10)]
  }

  /** `n.toString().padStart(2, "0")`. */
  function Pad2(n: nat): string {
    if n < 10 then "0" + NatToString(n) else NatToString(n)
  }

  predicate AllDigits(s: string) {
    forall k :: 0 <= k < |s| ==> IsDigit(s[k])
  }

  function DigitsValue(s: string): nat
    requires AllDigits(s)
  {
    if |s| == 0 then 0
    else DigitsValue(s[..|s| - 1]) * 10 + (s[|s| - 1] as int - '0' as int)
  }

  /**
   * `Number(s)` on text: a string of decimal digits denotes its value (the
   * empty string denotes 0, as in JavaScript); anything else is NaN (None).
   */
  function ParseNumber(s: string): Option<int> {
    if AllDigits(s) then Some(DigitsValue(s)) else None
  }

  /** Rendering a natural number and reading it back gives the number. */
  lemma {:induction false} NatToStringRoundTrip(n: nat)
    ensures ParseNumber(NatToString(n)) == Some(n)
  {
    var s := NatToString(n);
    assert AllDigits(s);
    if n >= 10 {
      NatToStringRoundTrip(n / 10);
      assert s[..|s| - 1] == NatToString(n / 10);
      assert DigitsValue(s) == DigitsValue(NatToString(n / 10)) * 10 + n % 10;
    } else {
      assert s[..|s| - 1] == [];
      assert DigitsValue(s) == n;
    }
  }

  /** A leading zero does not change the value. */
  lemma LeadingZero(s: string)
    requires AllDigits(s)
    ensures AllDigits("0" + s) && DigitsValue("0" + s) == DigitsValue(s)
    decreases |s|
  {
    if |s| > 0 {
      assert ("0" + s)[..|s|] == "0" + s[..|s| - 1];
      LeadingZero(s[..|s| - 1]);
    }
  }

  lemma Pad2RoundTrip(n: nat)
    requires n < 100
    ensures |Pad2(n)| == 2
    ensures ParseNumber(Pad2(n)) == Some(n)
  {
    NatToStringRoundTrip(n);
    if n < 10 {
      LeadingZero(NatToString(n));
    } else {
      assert NatToString(n) == NatToString(n / 10) + [DigitChar(n % 10)];
    }
  }

  // ---------------------------------------------------------------- order

  /** The default order of `Array.prototype.sort` on strings: lexicographic by character. */
  predicate LexLe(a: string, b: string)
    decreases |a|
  {
    |a| == 0 || (|b| > 0 && (a[0] < b[0] || (a[0] == b[0] && LexLe(a[1..], b[1..]))))
  }

  predicate LexLess(a: string, b: string) {
    LexLe(a, b) && a != b
  }

  lemma {:induction false} LexLeTotal(a: string, b: string)
    ensures LexLe(a, b) || LexLe(b, a)
    decreases |a|
  {
    if |a| > 0 && |b| > 0 && a[0] == b[0] {
      LexLeTotal(a[1..], b[1..]);
    }
  }

  lemma {:induction false} LexLeTransitive(a: string, b: string, c: string)
    requires LexLe(a, b) && LexLe(b, c)
    ensures LexLe(a, c)
    decreases |a|
  {
    if |a| > 0 && a[0] == b[0] && b[0] == c[0] {
      LexLeTransitive(a[1..], b[1..], c[1..]);
    }
  }

  lemma {:induction false} LexLeAntisymmetric(a: string, b: string)
    requires LexLe(a, b) && LexLe(b, a)
    ensures a == b
    decreases |a|
  {
    if |a| > 0 {
      LexLeAntisymmetric(a[1..], b[1..]);
      assert a == [a[0]] + a[1..] && b == [b[0]] + b[1..];
    }
  }

  /** The default order of `Array.prototype.sort`: by text. */
  function ByText(): (string, string) -> bool {
    (a: string, b: string) => LexLe(a, b)
  }

  /** `xs.sort().reverse()`: greatest text first. */
  function SortedDescending(ids: seq<string>): seq<string> {
    Lists.Reverse(Lists.SortBy(ids, ByText()))
  }

  /** Code-point order is total and transitive, so sorting by it orders the list. */
  lemma ByTextSorts(ids: seq<string>)
    ensures Lists.SortedBy(Lists.SortBy(ids, ByText()), ByText())
  {
    var le := ByText();
    forall a, b ensures le(a, b) || le(b, a) {
      LexLeTotal(a, b);
    }
    forall a, b, c | le(a, b) && le(b, c) ensures le(a, c) {
      LexLeTransitive(a, b, c);
    }
    Lists.SortBySorted(ids, le);
  }

  /** Each string of the sorted list is at least as great as the ones after it. */
  lemma SortedDescendingOrdered(ids: seq<string>)
    ensures |SortedDescending(ids)| == |ids|
    ensures forall i, j :: 0 <= i < j < |ids| ==> LexLe(SortedDescending(ids)[j], SortedDescending(ids)[i])
  {
    var le := ByText();
    var sorted := Lists.SortBy(ids, le);
    assert |multiset(sorted)| == |ids|;
    ByTextSorts(ids);
    var r := SortedDescending(ids);
    forall i, j | 0 <= i < j < |ids| ensures LexLe(r[j], r[i]) {
      assert le(sorted[|ids| - 1 - j], sorted[|ids| - 1 - i]);
    }
  }

  /**
   * The sorted list holds the same strings, each at least as great as the
   * ones after it, so its head is the greatest.
   */
  lemma SortedDescendingSpec(ids: seq<string>)
    ensures multiset(SortedDescending(ids)) == multiset(ids)
    ensures |SortedDescending(ids)| == |ids|
    ensures forall i, j :: 0 <= i < j < |ids| ==> LexLe(SortedDescending(ids)[j], SortedDescending(ids)[i])
    ensures |ids| > 0 ==> forall x :: x in ids ==> LexLe(x, SortedDescending(ids)[0])
  {
    Lists.ReverseMultiset(Lists.SortBy(ids, ByText()));
    SortedDescendingOrdered(ids);
    var r := SortedDescending(ids);
    forall x | x in ids ensures LexLe(x, r[0]) {
      assert x in multiset(r);
      var k :| 0 <= k < |r| && r[k] == x;
      LexLeTotal(x, x);
    }
  }
}
