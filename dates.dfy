/** Calendar days as Python's `datetime.date` sees them: the proleptic Gregorian
    calendar for years 1 to 9999, the parser behind `datetime.strptime(s, '%Y-%m-%d')`,
    the renderings `strftime('%Y-%m-%d')` and `strftime('%d.%m.%Y')`, and adding
    `timedelta(days=1)`. */
module Dates {
  import opened Wrappers
  import opened PyStrings
  import opened Decimal

  datatype Date = Date(year: int, month: int, day: int)

  /** `datetime.MINYEAR` and `datetime.MAXYEAR`. */
  const MinYear: int := 1
  const MaxYear: int := 9999

  predicate IsLeapYear(y: int) {
    y % 4 == 0 && (y % 100 != 0 || y % 400 == 0)
  }

  function DaysInMonth(y: int, m: int): int
    requires 1 <= m <= 12
  {
    if m == 2 then (if IsLeapYear(y) then 29 else 28)
    else if m == 4 || m == 6 || m == 9 || m == 11 then 30
    else 31
  }

  function DaysInYear(y: int): int {
    if IsLeapYear(y) then 366 else 365
  }

  /** The dates `datetime.date` can represent. */
  predicate ValidDate(d: Date) {
    MinYear <= d.year <= MaxYear && 1 <= d.month <= 12 && 1 <= d.day <= DaysInMonth(d.year, d.month)
  }

  /** Chronological order. */
  predicate Before(a: Date, b: Date) {
    || a.year < b.year
    || (a.year == b.year && a.month < b.month)
    || (a.year == b.year && a.month == b.month && a.day < b.day)
  }

  // ---------------------------------------------------------------------
  // Day numbers, as `date.toordinal()`: 0001-01-01 is day 1.

  function DaysBeforeYear(y: int): nat
    requires y >= 1
  {
    if y == 1 then 0 else DaysBeforeYear(y - 1) + DaysInYear(y - 1)
  }

  function DaysBeforeMonth(y: int, m: int): nat
    requires 1 <= m <= 12
  {
    if m == 1 then 0 else DaysBeforeMonth(y, m - 1) + DaysInMonth(y, m - 1)
  }

  /** `d.toordinal()`: the day falls inside its own year, after every day of the
      years before it. */
  function Ordinal(d: Date): (n: nat)
    requires ValidDate(d)
    ensures DaysBeforeYear(d.year) < n <= DaysBeforeYear(d.year) + DaysInYear(d.year)
    ensures d == Date(MinYear, 1, 1) ==> n == 1
  {
    MonthFitsInYear(d.year, d.month);
    DaysBeforeYear(d.year) + DaysBeforeMonth(d.year, d.month) + d.day
  }

  /** The twelve months fill the year exactly. */
  lemma MonthsFillYear(y: int)
    ensures DaysBeforeMonth(y, 12) + DaysInMonth(y, 12) == DaysInYear(y)
  {
    var feb := DaysInMonth(y, 2);
    assert DaysBeforeMonth(y, 2) == 31;
    assert DaysBeforeMonth(y, 3) == 31 + feb;
    assert DaysBeforeMonth(y, 4) == 62 + feb;
    assert DaysBeforeMonth(y, 5) == 92 + feb;
    assert DaysBeforeMonth(y, 6) == 123 + feb;
    assert DaysBeforeMonth(y, 7) == 153 + feb;
    assert DaysBeforeMonth(y, 8) == 184 + feb;
    assert DaysBeforeMonth(y, 9) == 215 + feb;
    assert DaysBeforeMonth(y, 10) == 245 + feb;
    assert DaysBeforeMonth(y, 11) == 276 + feb;
    assert DaysBeforeMonth(y, 12) == 306 + feb;
  }

  lemma {:induction false} DaysBeforeMonthMonotone(y: int, m: int, n: int)
    requires 1 <= m <= n <= 12
    ensures m < n ==> DaysBeforeMonth(y, m) + DaysInMonth(y, m) <= DaysBeforeMonth(y, n)
    ensures DaysBeforeMonth(y, m) <= DaysBeforeMonth(y, n)
  {
    if m < n { DaysBeforeMonthMonotone(y, m, n - 1); }
  }

  lemma MonthFitsInYear(y: int, m: int)
    requires 1 <= m <= 12
    ensures DaysBeforeMonth(y, m) + DaysInMonth(y, m) <= DaysInYear(y)
  {
    MonthsFillYear(y);
    DaysBeforeMonthMonotone(y, m, 12);
  }

  lemma {:induction false} DaysBeforeYearMonotone(y: int, z: int)
    requires 1 <= y < z
    ensures DaysBeforeYear(y) + DaysInYear(y) <= DaysBeforeYear(z)
  {
    if y < z - 1 { DaysBeforeYearMonotone(y, z - 1); }
  }

  lemma BeforeHasSmallerOrdinal(a: Date, b: Date)
    requires ValidDate(a) && ValidDate(b) && Before(a, b)
    ensures Ordinal(a) < Ordinal(b)
  {
    if a.year < b.year {
      MonthFitsInYear(a.year, a.month);
      DaysBeforeYearMonotone(a.year, b.year);
    } else if a.month < b.month {
      DaysBeforeMonthMonotone(a.year, a.month, b.month);
    }
  }

  /** Chronological order and day-number order agree. */
  lemma OrdinalOrder(a: Date, b: Date)
    requires ValidDate(a) && ValidDate(b)
    ensures Before(a, b) <==> Ordinal(a) < Ordinal(b)
  {
    if Before(a, b) {
      BeforeHasSmallerOrdinal(a, b);
    } else if Before(b, a) {
      BeforeHasSmallerOrdinal(b, a);
    } else {
      assert a == b;
    }
  }

  // ---------------------------------------------------------------------
  // `date + timedelta(days=1)`

  /** The next calendar day; None where Python raises OverflowError, after 9999-12-31. */
  function NextDay(d: Date): (r: Option<Date>)
    requires ValidDate(d)
    ensures r.None? <==> d == Date(MaxYear, 12, 31)
    ensures r.Some? ==> ValidDate(r.value) && Ordinal(r.value) == Ordinal(d) + 1
  {
    if d.day < DaysInMonth(d.year, d.month) then
      Some(Date(d.year, d.month, d.day + 1))
    else if d.month < 12 then
      Some(Date(d.year, d.month + 1, 1))
    else if d.year < MaxYear then
      MonthsFillYear(d.year);
      Some(Date(d.year + 1, 1, 1))
    else
      None
  }

  /** The next day comes after the day, and no valid date lies strictly between them. */
  lemma NextDayIsSuccessor(d: Date, c: Date)
    requires ValidDate(d) && ValidDate(c) && NextDay(d).Some?
    ensures Before(d, NextDay(d).value)
    ensures Before(d, c) ==> !Before(c, NextDay(d).value)
  {
    var n := NextDay(d).value;
    OrdinalOrder(d, n);
    OrdinalOrder(d, c);
    OrdinalOrder(c, n);
  }

  // ---------------------------------------------------------------------
  // `strftime('%Y-%m-%d')` and `strftime('%d.%m.%Y')`

  function FormatIso(d: Date): (s: string)
    requires ValidDate(d)
    ensures |s| == 10
  {
    assert Pow10(4) == 10000;
    Pad(d.year, 4) + "-" + Pad(d.month, 2) + "-" + Pad(d.day, 2)
  }

  function FormatDisplay(d: Date): (s: string)
    requires ValidDate(d)
    ensures |s| == 10
  {
    assert Pow10(4) == 10000;
    Pad(d.day, 2) + "." + Pad(d.month, 2) + "." + Pad(d.year, 4)
  }

  /** Zero-padded `YYYY-MM-DD` strings sort chronologically. */
  lemma FormatIsoOrder(a: Date, b: Date)
    requires ValidDate(a) && ValidDate(b)
    ensures LexLess(FormatIso(a), FormatIso(b)) <==> Before(a, b)
  {
    assert Pow10(4) == 10000 && Pow10(2) == 100;
    var ya, yb := Pad(a.year, 4), Pad(b.year, 4);
    var ma, mb := Pad(a.month, 2), Pad(b.month, 2);
    var da, db := Pad(a.day, 2), Pad(b.day, 2);
    var xa, xb := ya + "-", yb + "-";
    var za, zb := xa + ma + "-", xb + mb + "-";
    LexLessConcat(za, da, zb, db);
    LexLessConcat(xa + ma, "-", xb + mb, "-");
    LexLessConcat(xa, ma, xb, mb);
    LexLessConcat(ya, "-", yb, "-");
    PadOrder(a.year, b.year, 4);
    PadOrder(a.month, b.month, 2);
    PadOrder(a.day, b.day, 2);
    PadInjective(a.year, b.year, 4);
    PadInjective(a.month, b.month, 2);
    LexLessIrreflexive("-");
    if za == zb {
      assert za[..4] == ya && zb[..4] == yb;
      assert za[5..7] == ma && zb[5..7] == mb;
    }
    if xa + ma == xb + mb {
      assert (xa + ma)[..4] == ya && (xb + mb)[..4] == yb;
    }
    if xa == xb {
      assert xa[..4] == ya && xb[..4] == yb;
    }
  }

  // ---------------------------------------------------------------------
  // `datetime.strptime(s, '%Y-%m-%d')`. CPython turns the format into the
  // regular expression `(\d\d\d\d)-(1[0-2]|0[1-9]|[1-9])-(3[01]|[12]\d|0[1-9]|[1-9]| [1-9])`,
  // matches it at the start of `s` trying alternatives left to right, raises
  // ValueError when characters are left over, and then validates the date.

  /** A directive's match: its numeric value and how many characters it took. */
  datatype Field = Field(value: int, width: nat)

  /** `%m`: `1[0-2]`, else `0[1-9]`, else `[1-9]`. */
  function MonthField(t: string): (r: Option<Field>)
    ensures r.Some? ==> 1 <= r.value.value <= 12 && 1 <= r.value.width <= 2 && r.value.width <= |t|
  {
    if |t| >= 2 && t[0] == '1' && '0' <= t[1] <= '2' then Some(Field(10 + DigitValue(t[1]), 2))
    else if |t| >= 2 && t[0] == '0' && '1' <= t[1] <= '9' then Some(Field(DigitValue(t[1]), 2))
    else if |t| >= 1 && '1' <= t[0] <= '9' then Some(Field(DigitValue(t[0]), 1))
    else None
  }

  /** `%d`: `3[01]`, else `[12]\d`, else `0[1-9]`, else `[1-9]`, else ` [1-9]`. */
  function DayField(t: string): (r: Option<Field>)
    ensures r.Some? ==> 1 <= r.value.value <= 31 && 1 <= r.value.width <= 2 && r.value.width <= |t|
  {
    if |t| >= 2 && t[0] == '3' && '0' <= t[1] <= '1' then Some(Field(30 + DigitValue(t[1]), 2))
    else if |t| >= 2 && '1' <= t[0] <= '2' && IsDigit(t[1]) then Some(Field(10 * DigitValue(t[0]) + DigitValue(t[1]), 2))
    else if |t| >= 2 && t[0] == '0' && '1' <= t[1] <= '9' then Some(Field(DigitValue(t[1]), 2))
    else if |t| >= 1 && '1' <= t[0] <= '9' then Some(Field(DigitValue(t[0]), 1))
    else if |t| >= 2 && t[0] == ' ' && '1' <= t[1] <= '9' then Some(Field(DigitValue(t[1]), 2))
    else None
  }

  /** The date `strptime(s, '%Y-%m-%d')` returns, or None where it raises ValueError. */
  function ParseIso(s: string): (r: Option<Date>)
    ensures r.Some? ==> ValidDate(r.value)
  {
    if |s| < 5 || !AllDigits(s[..4]) || s[4] != '-' then None
    else match MonthField(s[5..])
      case None => None
      case Some(m) =>
        var rest := s[5 + m.width..];
        if rest == [] || rest[0] != '-' then None
        else match DayField(rest[1..])
          case None => None
          case Some(d) =>
            var y := DigitsValue(s[..4]);
            ValuePad(s[..4]);
            assert Pow10(4) == 10000;
            if 1 + d.width != |rest| then None
            else if MinYear <= y && d.value <= DaysInMonth(y, m.value) then Some(Date(y, m.value, d.value))
            else None
  }

  lemma MonthFieldOfPad(m: int, tail: string)
    requires 1 <= m <= 12
    ensures MonthField(Pad(m, 2) + tail) == Some(Field(m, 2))
  {
    Pad2Chars(m);
  }

  lemma DayFieldOfPad(d: int, tail: string)
    requires 1 <= d <= 31
    ensures DayField(Pad(d, 2) + tail) == Some(Field(d, 2))
  {
    Pad2Chars(d);
  }

  /** Parsing what `strftime('%Y-%m-%d')` wrote gives the date back. */
  lemma ParseFormatIso(d: Date)
    requires ValidDate(d)
    ensures ParseIso(FormatIso(d)) == Some(d)
  {
    assert Pow10(4) == 10000;
    var s := FormatIso(d);
    var y, m, dd := Pad(d.year, 4), Pad(d.month, 2), Pad(d.day, 2);
    assert s[..4] == y;
    assert s[5..] == m + ("-" + dd);
    MonthFieldOfPad(d.month, "-" + dd);
    var rest := s[7..];
    assert rest == "-" + dd;
    assert rest[1..] == dd + "";
    DayFieldOfPad(d.day, "");
    PadValue(d.year, 4);
  }

  /** A two-character `%m` match is the zero-padded month. */
  lemma MonthFieldPad(t: string)
    requires MonthField(t).Some? && MonthField(t).value.width == 2
    ensures Pad(MonthField(t).value.value, 2) == t[..2]
  {
    Pad2Chars(MonthField(t).value.value);
  }

  /** A two-character `%d` match that does not start with a space is the
      zero-padded day. */
  lemma DayFieldPad(t: string)
    requires DayField(t).Some? && DayField(t).value.width == 2 && t[0] != ' '
    ensures Pad(DayField(t).value.value, 2) == t[..2]
  {
    Pad2Chars(DayField(t).value.value);
  }

  /** A string that parses is the rendering of its date exactly when it is ten
      characters long with no space before the day: the month and day took
      two digits each. */
  lemma FormatParseIso(s: string)
    requires ParseIso(s).Some? && |s| == 10 && s[8] != ' '
    ensures FormatIso(ParseIso(s).value) == s
  {
    var d := ParseIso(s).value;
    var m := MonthField(s[5..]).value;
    var rest := s[5 + m.width..];
    var t := rest[1..];
    var f := DayField(t).value;
    assert m.width == 2 && f.width == 2;
    assert t == s[8..];
    ValuePad(s[..4]);
    MonthFieldPad(s[5..]);
    DayFieldPad(t);
    assert s == s[..4] + "-" + s[5..][..2] + "-" + t[..2];
  }

  // ---------------------------------------------------------------------
  // Reading `DD.MM.YYYY` back, the partner of FormatDisplay.

  function ParseDisplay(t: string): (r: Option<Date>)
    ensures r.Some? ==> ValidDate(r.value)
  {
    if |t| == 10 && AllDigits(t[..2]) && t[2] == '.' && AllDigits(t[3..5]) && t[5] == '.' && AllDigits(t[6..]) then
      var d := Date(DigitsValue(t[6..]), DigitsValue(t[3..5]), DigitsValue(t[..2]));
      if ValidDate(d) then Some(d) else None
    else None
  }

  lemma ParseFormatDisplay(d: Date)
    requires ValidDate(d)
    ensures ParseDisplay(FormatDisplay(d)) == Some(d)
  {
    assert Pow10(4) == 10000 && Pow10(2) == 100;
    var t := FormatDisplay(d);
    assert t[..2] == Pad(d.day, 2);
    assert t[3..5] == Pad(d.month, 2);
    assert t[6..] == Pad(d.year, 4);
    PadValue(d.day, 2);
    PadValue(d.month, 2);
    PadValue(d.year, 4);
  }

  lemma FormatParseDisplay(t: string)
    requires ParseDisplay(t).Some?
    ensures FormatDisplay(ParseDisplay(t).value) == t
  {
    assert Pow10(4) == 10000;
    ValuePad(t[..2]);
    ValuePad(t[3..5]);
    ValuePad(t[6..]);
    assert t == t[..2] + "." + t[3..5] + "." + t[6..];
  }
}
