/** Decimal digit strings: reading them (`int(s)`), writing a number with a fixed
    number of zero-padded digits (`%04d`, `%02d`), and Python's `str(n)`. */
module Decimal {
  import opened PyStrings

  predicate IsDigit(c: char) {
    '0' <= c <= '9'
  }

  predicate AllDigits(s: string) {
    forall k :: 0 <= k < |s| ==> IsDigit(s[k])
  }

  function DigitValue(c: char): nat
    requires IsDigit(c)
  {
    c as int - '0' as int
  }

  function DigitChar(n: nat): (c: char)
    requires n <= 9
    ensures IsDigit(c) && DigitValue(c) == n
  {
    ('0' as int + n) as char
  }

  function Pow10(w: nat): nat {
    if w == 0 then 1 else 10 * Pow10(w - 1)
  }

  /** The value of a string of decimal digits. */
  function DigitsValue(s: string): nat
    requires AllDigits(s)
  {
    if s == [] then 0 else DigitsValue(s[..|s| - 1]) * 10 + DigitValue(s[|s| - 1])
  }

  /** `x` written with exactly `w` digits, zero-padded on the left. */
  function Pad(x: nat, w: nat): (s: string)
    requires x < Pow10(w)
    ensures |s| == w && AllDigits(s)
  {
    if w == 0 then [] else Pad(x / 10, w - 1) + [DigitChar(x % 10)]
  }

  /** Reading back a padded number gives the number. */
  lemma {:induction false} PadValue(x: nat, w: nat)
    requires x < Pow10(w)
    ensures DigitsValue(Pad(x, w)) == x
  {
    if w > 0 {
      var p := Pad(x, w);
      assert p[..|p| - 1] == Pad(x / 10, w - 1);
      PadValue(x / 10, w - 1);
    }
  }

  /** Padding the value of a digit string to its own length gives the string back. */
  lemma {:induction false} ValuePad(s: string)
    requires AllDigits(s)
    ensures DigitsValue(s) < Pow10(|s|) && Pad(DigitsValue(s), |s|) == s
  {
    if s != [] {
      var init := s[..|s| - 1];
      ValuePad(init);
      var v := DigitsValue(s);
      assert v / 10 == DigitsValue(init) && v % 10 == DigitValue(s[|s| - 1]);
      assert DigitChar(v % 10) == s[|s| - 1];
      assert s == init + [s[|s| - 1]];
    }
  }

  lemma PadInjective(x: nat, y: nat, w: nat)
    requires x < Pow10(w) && y < Pow10(w)
    ensures Pad(x, w) == Pad(y, w) <==> x == y
  {
    PadValue(x, w);
    PadValue(y, w);
  }

  /** Padded numbers of one width compare as strings the way they compare as numbers. */
  lemma {:induction false} PadOrder(x: nat, y: nat, w: nat)
    requires x < Pow10(w) && y < Pow10(w)
    ensures LexLess(Pad(x, w), Pad(y, w)) <==> x < y
  {
    if w == 0 {
    } else {
      var a, b := Pad(x / 10, w - 1), Pad(y / 10, w - 1);
      var ca, cb := DigitChar(x % 10), DigitChar(y % 10);
      LexLessConcat(a, [ca], b, [cb]);
      PadOrder(x / 10, y / 10, w - 1);
      PadInjective(x / 10, y / 10, w - 1);
      assert LexLess([ca], [cb]) <==> ca < cb;
    }
  }

  lemma Pad2Chars(x: nat)
    requires x < 100
    ensures Pad(x, 2) == [DigitChar(x / 10), DigitChar(x % 10)]
  {
    assert Pow10(2) == 100 && Pow10(1) == 10;
    var hi := x / 10;
    assert hi / 10 == 0 && hi % 10 == hi;
    assert Pad(hi, 1) == Pad(0, 0) + [DigitChar(hi)];
  }

  /** `str(n)` for a natural number: its digits with no leading zero. */
  function Show(n: nat): (s: string)
    ensures s != [] && AllDigits(s)
  {
    if n < 10 then [DigitChar(n)] else Show(n / 10) + [DigitChar(n % 10)]
  }

  /** Reading `str(n)` back gives `n`. */
  lemma {:induction false} ShowValue(n: nat)
    ensures DigitsValue(Show(n)) == n
  {
    var s := Show(n);
    if n >= 10 {
      assert s[..|s| - 1] == Show(n / 10);
      ShowValue(n / 10);
    } else {
      assert s[..|s| - 1] == [];
    }
  }
}
