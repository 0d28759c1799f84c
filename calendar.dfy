/**
 * Calendar dates as the Python backend handles them with `datetime`: the
 * proleptic Gregorian calendar over years 1 to 9999, `replace(year=...)`,
 * adding one day, and the `%Y-%m-%d` text form written by `strftime` and read
 * back by `strptime`.
 */
module Calendar {
  import opened Wrappers
  import opened Text

  datatype Date = Date(year: int, month: int, day: int)

  /** `datetime.MINYEAR` and `datetime.MAXYEAR`. */
  const MinYear: int := 1
  const MaxYear: int := 9999

  /** How many years back the archive looks. */
  const YearsAgo: nat := 12

  predicate IsLeapYear(y: int) {
    y % 4 == 0 && (y % 100 != 0 || y % 400 == 0)
  }

  function DaysInMonth(y: int, m: int): (n: int)
    requires 1 <= m <= 12
    ensures 28 <= n <= 31
    ensures n == 29 <==> m == 2 && IsLeapYear(y)
  {
    if m == 2 then (if IsLeapYear(y) then 29 else 28)
    else if m == 4 || m == 6 || m == 9 || m == 11 then 30
    else 31
  }

  /** A date that `datetime` can represent. */
  predicate Valid(d: Date) {
    MinYear <= d.year <= MaxYear && 1 <= d.month <= 12 && 1 <= d.day <= DaysInMonth(d.year, d.month)
  }

  /** `a < b` on dates: earlier year, or same year and earlier month, or same month and earlier day. */
  predicate Precedes(a: Date, b: Date) {
    a.year < b.year || (a.year == b.year && (a.month < b.month || (a.month == b.month && a.day < b.day)))
  }

  /**
   * `d.replace(year=d.year - 12)`: the same month and day twelve years earlier.
   * Python raises ValueError (None here) when that year is out of range or the
   * day is 29 February and the earlier year is not a leap year.
   */
  function YearsAgoDate(d: Date): (r: Option<Date>)
    requires Valid(d)
    ensures r.Some? ==>
      Valid(r.value) && r.value.year == d.year - YearsAgo && r.value.month == d.month && r.value.day == d.day
    ensures r.None? <==> d.year - YearsAgo < MinYear || (d.month == 2 && d.day == 29 && !IsLeapYear(d.year - YearsAgo))
  {
    var past := Date(d.year - YearsAgo, d.month, d.day);
    if Valid(past) then Some(past) else None
  }

  /**
   * `d + timedelta(days=1)`: the calendar day after `d`, rolling over months and
   * years; Python raises OverflowError (None here) after 31 December 9999.
   */
  function NextDay(d: Date): (r: Option<Date>)
    requires Valid(d)
    ensures r.None? <==> d == Date(MaxYear, 12, 31)
    ensures r.Some? ==> Valid(r.value) && Precedes(d, r.value)
    ensures r.Some? ==> forall x :: Valid(x) && Precedes(d, x) ==> !Precedes(x, r.value)
  {
    if d.day < DaysInMonth(d.year, d.month) then Some(Date(d.year, d.month, d.day + 1))
    else if d.month < 12 then Some(Date(d.year, d.month + 1, 1))
    else if d.year < MaxYear then Some(Date(d.year + 1, 1, 1))
    else None
  }

  function Pow10(n: nat): (r: nat)
    ensures r >= 1
  {
    if n == 0 then 1 else 10 * Pow10(n - 1)
  }

  predicate IsDigit(c: char) {
    '0' <= c <= '9'
  }

  predicate AllDigits(s: string) {
    forall i :: 0 <= i < |s| ==> IsDigit(s[i])
  }

  /** `n` written with exactly `width` decimal digits, zero-padded on the left. */
  function Digits(n: nat, width: nat): (s: string)
    requires n < Pow10(width)
    ensures |s| == width && AllDigits(s)
  {
    if width == 0 then ""
    else
      assert n / 10 < Pow10(width - 1);
      Digits(n / 10, width - 1) + [('0' as int + n % 10) as char]
  }

  /** The number a string of decimal digits denotes. */
  function DigitsValue(s: string): (n: nat)
    requires AllDigits(s)
    ensures n < Pow10(|s|)
  {
    if s == [] then 0
    else
      assert AllDigits(s[..|s| - 1]);
      10 * DigitsValue(s[..|s| - 1]) + (s[|s| - 1] as int - '0' as int)
  }

  /** Reading back the digits of `n` gives `n`. */
  lemma {:induction false} DigitsValueOfDigits(n: nat, width: nat)
    requires n < Pow10(width)
    ensures DigitsValue(Digits(n, width)) == n
  {
    if width > 0 {
      DigitsValueOfDigits(n / 10, width - 1);
      var s := Digits(n, width);
      assert s[..|s| - 1] == Digits(n / 10, width - 1);
    }
  }

  /** Writing the value of a digit string with as many digits gives the string back. */
  lemma {:induction false} DigitsOfDigitsValue(s: string)
    requires AllDigits(s)
    ensures DigitsValue(s) < Pow10(|s|) && Digits(DigitsValue(s), |s|) == s
  {
    if s != [] {
      var init := s[..|s| - 1];
      DigitsOfDigitsValue(init);
      var n := DigitsValue(s);
      assert n / 10 == DigitsValue(init) && n % 10 == s[|s| - 1] as int - '0' as int;
      assert s == init + [s[|s| - 1]];
    }
  }

  /** Different numbers of the same width are written differently. */
  lemma DigitsInjective(a: nat, b: nat, width: nat)
    requires a < Pow10(width) && b < Pow10(width)
    ensures Digits(a, width) == Digits(b, width) <==> a == b
  {
    DigitsValueOfDigits(a, width);
    DigitsValueOfDigits(b, width);
  }

  /** Same-width digit strings compare as strings exactly as their numbers compare. */
  lemma {:induction false} DigitsOrder(a: nat, b: nat, width: nat)
    requires a < Pow10(width) && b < Pow10(width)
    ensures StrLess(Digits(a, width), Digits(b, width)) <==> a < b
  {
    if width == 0 {
      assert a == 0 && b == 0;
    } else {
      var ha, hb := Digits(a / 10, width - 1), Digits(b / 10, width - 1);
      var ca, cb := ('0' as int + a % 10) as char, ('0' as int + b % 10) as char;
      DigitsOrder(a / 10, b / 10, width - 1);
      DigitsInjective(a / 10, b / 10, width - 1);
      StrLessConcat(ha, hb, [ca], [cb]);
      assert StrLess([ca], [cb]) <==> a % 10 < b % 10 by {
        assert [ca][1..] == [] && [cb][1..] == [];
        StrLessIrreflexive([]);
      }
    }
  }

  /** `strftime('%Y-%m-%d')`: four-digit year, two-digit month and day, joined by dashes. */
  function FormatDate(d: Date): (s: string)
    requires Valid(d)
    ensures |s| == 10 && s[4] == '-' && s[7] == '-'
  {
    assert Pow10(4) == 10000 && Pow10(2) == 100;
    Digits(d.year, 4) + ("-" + (Digits(d.month, 2) + ("-" + Digits(d.day, 2))))
  }

  /**
   * `strptime(s, '%Y-%m-%d')` on the ten-character form: digits with dashes at
   * positions 4 and 7 that make a valid date; anything else is a ValueError (None).
   */
  function ParseDate(s: string): (r: Option<Date>)
    ensures r.Some? ==> Valid(r.value) && FormatDate(r.value) == s
  {
    if |s| == 10 && s[4] == '-' && s[7] == '-' && AllDigits(s[..4]) && AllDigits(s[5..7]) && AllDigits(s[8..]) then
      var d := Date(DigitsValue(s[..4]), DigitsValue(s[5..7]), DigitsValue(s[8..]));
      if Valid(d) then
        DigitsOfDigitsValue(s[..4]);
        DigitsOfDigitsValue(s[5..7]);
        DigitsOfDigitsValue(s[8..]);
        assert s == s[..4] + ("-" + (s[5..7] + ("-" + s[8..])));
        Some(d)
      else None
    else None
  }

  /** Reading back a written date gives the date. */
  lemma ParseFormatRoundTrip(d: Date)
    requires Valid(d)
    ensures ParseDate(FormatDate(d)) == Some(d)
  {
    var s := FormatDate(d);
    assert Pow10(4) == 10000 && Pow10(2) == 100;
    assert s[..4] == Digits(d.year, 4);
    assert s[5..7] == Digits(d.month, 2);
    assert s[8..] == Digits(d.day, 2);
    DigitsValueOfDigits(d.year, 4);
    DigitsValueOfDigits(d.month, 2);
    DigitsValueOfDigits(d.day, 2);
  }

  /** Putting the same separator in front of two strings does not change how they compare. */
  lemma DashPrefixOrder(x: string, y: string)
    ensures StrLess("-" + x, "-" + y) <==> StrLess(x, y)
  {
    StrLessConcat("-", "-", x, y);
    StrLessIrreflexive("-");
  }

  /** Written dates compare as strings exactly as the dates compare in time. */
  lemma FormatOrder(a: Date, b: Date)
    requires Valid(a) && Valid(b)
    ensures StrLess(FormatDate(a), FormatDate(b)) <==> Precedes(a, b)
  {
    assert Pow10(4) == 10000 && Pow10(2) == 100;
    var ya, yb := Digits(a.year, 4), Digits(b.year, 4);
    var ma, mb := Digits(a.month, 2), Digits(b.month, 2);
    var da, db := Digits(a.day, 2), Digits(b.day, 2);
    DigitsOrder(a.year, b.year, 4);
    DigitsOrder(a.month, b.month, 2);
    DigitsOrder(a.day, b.day, 2);
    DigitsInjective(a.year, b.year, 4);
    DigitsInjective(a.month, b.month, 2);
    StrLessConcat(ya, yb, "-" + (ma + ("-" + da)), "-" + (mb + ("-" + db)));
    DashPrefixOrder(ma + ("-" + da), mb + ("-" + db));
    StrLessConcat(ma, mb, "-" + da, "-" + db);
    DashPrefixOrder(da, db);
  }
}
