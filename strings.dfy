/** Python string operations the exam calendar relies on: `str.strip()` on form
    fields, and the code-point order that both Python's `<` on `str` and SQLite's
    BINARY collation use for the `date` column. */
module PyStrings {

  /** Python's `str.isspace()` for a single character. */
  predicate IsSpace(c: char) {
    || c == ' '
    || ('\t' <= c <= '\r')
    || ('\U{1c}' <= c <= '\U{1f}')
    || c == '\U{85}' || c == '\U{a0}' || c == '\U{1680}'
    || ('\U{2000}' <= c <= '\U{200a}')
    || c == '\U{2028}' || c == '\U{2029}' || c == '\U{202f}' || c == '\U{205f}'
    || c == '\U{3000}'
  }

  predicate AllSpace(s: string) {
    forall k :: 0 <= k < |s| ==> IsSpace(s[k])
  }

  /** Where `strip()` starts: the first non-space position at or after `i`. */
  function StripStart(s: string, i: nat): (n: nat)
    requires i <= |s|
    ensures i <= n <= |s|
    ensures forall k :: i <= k < n ==> IsSpace(s[k])
    ensures n < |s| ==> !IsSpace(s[n])
    decreases |s| - i
  {
    if i < |s| && IsSpace(s[i]) then StripStart(s, i + 1) else i
  }

  /** Where `strip()` ends: just after the last non-space position before `j`,
      looking no further left than `lo`. */
  function StripEnd(s: string, lo: nat, j: nat): (n: nat)
    requires lo <= j <= |s|
    ensures lo <= n <= j
    ensures forall k :: n <= k < j ==> IsSpace(s[k])
    ensures n > lo ==> !IsSpace(s[n - 1])
  {
    if j > lo && IsSpace(s[j - 1]) then StripEnd(s, lo, j - 1) else j
  }

  /** `s.strip()`: what is left once leading and trailing whitespace is removed. */
  function Strip(s: string): (r: string)
    ensures |r| <= |s|
    ensures r != [] ==> !IsSpace(r[0]) && !IsSpace(r[|r| - 1])
  {
    var i := StripStart(s, 0);
    s[i..StripEnd(s, i, |s|)]
  }

  /** `strip()` keeps one contiguous piece of its input and removes only
      whitespace on either side of it. */
  lemma StripShape(s: string)
    ensures var i := StripStart(s, 0); var r := Strip(s);
      i + |r| <= |s| && r == s[i..i + |r|] && AllSpace(s[..i]) && AllSpace(s[i + |r|..])
  {
    var i := StripStart(s, 0);
    var j := StripEnd(s, i, |s|);
    assert AllSpace(s[..i]) by {
      forall k | 0 <= k < i ensures IsSpace(s[..i][k]) { assert s[..i][k] == s[k]; }
    }
    assert AllSpace(s[j..]) by {
      forall k | 0 <= k < |s| - j ensures IsSpace(s[j..][k]) { assert s[j..][k] == s[j + k]; }
    }
  }

  /** A form field is blank after `strip()` exactly when it holds only whitespace. */
  lemma StripBlank(s: string)
    ensures Strip(s) == [] <==> AllSpace(s)
  {
    var i := StripStart(s, 0);
    var j := StripEnd(s, i, |s|);
    if Strip(s) == [] {
      assert i == j;
    } else {
      assert i < |s| && !IsSpace(s[i]);
    }
  }

  /** Stripping twice is stripping once. */
  lemma StripIdempotent(s: string)
    ensures Strip(Strip(s)) == Strip(s)
  {
    var r := Strip(s);
    if r != [] {
      assert StripStart(r, 0) == 0;
      assert StripEnd(r, 0, |r|) == |r|;
      assert r[0..|r|] == r;
    }
  }

  // ---------------------------------------------------------------------
  // Lexicographic order by code point: Python `a < b` on `str`, SQLite
  // `a < b` on TEXT under the BINARY collation.

  /** A proper prefix comes first, and no string is smaller than itself. */
  predicate LexLess(a: string, b: string)
    ensures |a| < |b| && a == b[..|a|] ==> LexLess(a, b)
    ensures LexLess(a, b) ==> a != b
  {
    if b == [] then false
    else if a == [] then true
    else if a[0] != b[0] then a[0] < b[0]
    else LexLess(a[1..], b[1..])
  }

  /** Python `a <= b`, SQLite `a <= b`. */
  predicate LexLe(a: string, b: string) {
    a == b || LexLess(a, b)
  }

  lemma {:induction false} LexLessIrreflexive(a: string)
    ensures !LexLess(a, a)
  {
    if a != [] { LexLessIrreflexive(a[1..]); }
  }

  /** Any two strings compare one way, the other way, or are equal, and only one of these. */
  lemma {:induction false} LexTrichotomy(a: string, b: string)
    ensures a == b || LexLess(a, b) || LexLess(b, a)
    ensures !(LexLess(a, b) && LexLess(b, a))
    ensures LexLess(a, b) ==> a != b
  {
    if a != [] && b != [] && a[0] == b[0] {
      LexTrichotomy(a[1..], b[1..]);
      if a[1..] == b[1..] { assert a == [a[0]] + a[1..] && b == [b[0]] + b[1..]; }
    }
    if a == b { LexLessIrreflexive(a); }
  }

  lemma {:induction false} LexLessTransitive(a: string, b: string, c: string)
    requires LexLess(a, b) && LexLess(b, c)
    ensures LexLess(a, c)
  {
    if a != [] && a[0] == b[0] && b[0] == c[0] {
      LexLessTransitive(a[1..], b[1..], c[1..]);
    }
  }

  lemma LexLeTransitive(a: string, b: string, c: string)
    requires LexLe(a, b) && LexLe(b, c)
    ensures LexLe(a, c)
  {
    if a != b && b != c { LexLessTransitive(a, b, c); }
  }

  /** `!(a <= b)` is `b < a`. */
  lemma LexNotLe(a: string, b: string)
    ensures !LexLe(a, b) <==> LexLess(b, a)
  {
    LexTrichotomy(a, b);
  }

  /** Comparing two concatenations whose first parts have the same length
      compares the first parts, then the second parts. */
  lemma {:induction false} LexLessConcat(a: string, b: string, c: string, d: string)
    requires |a| == |c|
    ensures LexLess(a + b, c + d) <==> LexLess(a, c) || (a == c && LexLess(b, d))
  {
    if a == [] {
      assert a + b == b && c + d == d;
    } else {
      assert (a + b)[0] == a[0] && (c + d)[0] == c[0];
      assert (a + b)[1..] == a[1..] + b && (c + d)[1..] == c[1..] + d;
      LexLessConcat(a[1..], b, c[1..], d);
      if a[0] == c[0] && a[1..] == c[1..] {
        assert a == [a[0]] + a[1..] && c == [c[0]] + c[1..];
      }
    }
  }
}
