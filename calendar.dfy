/** A proleptic Gregorian calendar, standing in for chrono's `NaiveDate`:
    validity, leap years, the successor day, the days of a year, and the
    `%Y-%m-%d` text form with its parser. */
module Calendar {
  import opened Results
  import opened Text

  /** A calendar date. The analyzer only ever reads dates written
      `YYYY-MM-DD`, so valid years are 0000 to 9999. */
  datatype Date = Date(year: nat, month: nat, day: nat)

  const LastYear: nat := 9999

  predicate IsLeapYear(y: nat) {
    y % 4 == 0 && (y % 100 != 0 || y % 400 == 0)
  }

  function DaysInMonth(y: nat, m: nat): nat {
    if m == 2 then (if IsLeapYear(y) then 29 else 28)
    else if m == 4 || m == 6 || m == 9 || m == 11 then 30
    else 31
  }

  function DaysInYear(y: nat): nat {
    if IsLeapYear(y) then 366 else 365
  }

  predicate IsValid(d: Date) {
    d.year <= LastYear && 1 <= d.month <= 12 && 1 <= d.day <= DaysInMonth(d.year, d.month)
  }

  /** Chronological order: by year, then month, then day. */
  predicate Before(a: Date, b: Date) {
    || a.year < b.year
    || (a.year == b.year && (a.month < b.month || (a.month == b.month && a.day < b.day)))
  }

  function FirstDay(y: nat): Date {
    Date(y, 1, 1)
  }

  function LastDay(y: nat): Date {
    Date(y, 12, 31)
  }

  /** The following calendar day (`NaiveDate::succ`). It stays in the same
      year except after December 31, where it is January 1 of the next. */
  function NextDay(d: Date): (r: Date)
    requires IsValid(d)
    ensures Before(d, r)
    ensures d != LastDay(d.year) ==> IsValid(r) && r.year == d.year
    ensures d == LastDay(d.year) ==> r == FirstDay(d.year + 1)
  {
    if d.day < DaysInMonth(d.year, d.month) then Date(d.year, d.month, d.day + 1)
    else if d.month < 12 then Date(d.year, d.month + 1, 1)
    else Date(d.year + 1, 1, 1)
  }

  /** No valid date lies strictly between a day and the next. */
  lemma NextDayIsSuccessor(d: Date, e: Date)
    requires IsValid(d) && IsValid(e)
    ensures Before(e, NextDay(d)) <==> Before(e, d) || e == d
  {
  }

  // ---- the days of one year ----

  /** The days of month `m` of year `y`, in order. */
  function MonthDates(y: nat, m: nat): (r: seq<Date>)
    ensures |r| == DaysInMonth(y, m)
    ensures forall i :: 0 <= i < |r| ==> r[i] == Date(y, m, i + 1)
  {
    seq(DaysInMonth(y, m), (i: nat) => Date(y, m, i + 1))
  }

  /** The days of months `m` to 12 of year `y`, in order. */
  function MonthsFrom(y: nat, m: nat): seq<Date>
    requires 1 <= m
    decreases 13 - m
  {
    if m > 12 then [] else MonthDates(y, m) + MonthsFrom(y, m + 1)
  }

  /** January 1 to December 31 of year `y`, in order. */
  function YearDates(y: nat): seq<Date> {
    MonthsFrom(y, 1)
  }

  /** Strictly increasing in calendar order, hence without repetition. */
  predicate Increasing(s: seq<Date>) {
    forall i, j :: 0 <= i < j < |s| ==> Before(s[i], s[j])
  }

  lemma {:induction false} MonthsFromExactly(y: nat, m: nat, d: Date)
    requires 1 <= m && y <= LastYear
    ensures d in MonthsFrom(y, m) <==> IsValid(d) && d.year == y && m <= d.month
    decreases 13 - m
  {
    if m <= 12 {
      MonthsFromExactly(y, m + 1, d);
      if IsValid(d) && d.year == y && d.month == m {
        assert MonthDates(y, m)[d.day - 1] == d;
      }
    }
  }

  lemma {:induction false} MonthsFromIncreasing(y: nat, m: nat)
    requires 1 <= m
    ensures Increasing(MonthsFrom(y, m))
    ensures forall i :: 0 <= i < |MonthsFrom(y, m)| ==> MonthsFrom(y, m)[i].year == y && m <= MonthsFrom(y, m)[i].month
    decreases 13 - m
  {
    if m <= 12 {
      MonthsFromIncreasing(y, m + 1);
      var a, b := MonthDates(y, m), MonthsFrom(y, m + 1);
      var s := a + b;
      assert forall i :: |a| <= i < |s| ==> s[i] == b[i - |a|];
    }
  }

  /** A year's days are exactly its valid dates, each once, in order. */
  lemma YearDatesExactly(y: nat, d: Date)
    requires y <= LastYear
    ensures d in YearDates(y) <==> IsValid(d) && d.year == y
    ensures Increasing(YearDates(y))
  {
    MonthsFromExactly(y, 1, d);
    MonthsFromIncreasing(y, 1);
  }

  /** A year has 365 days, 366 in a leap year. */
  lemma YearDatesLength(y: nat)
    ensures |YearDates(y)| == DaysInYear(y)
  {
    var n := 0;
    for m := 1 to 13
      invariant n + |MonthsFrom(y, m)| == |YearDates(y)|
      invariant n == if m <= 2 then 31 * (m - 1) else 31 + DaysInMonth(y, 2) + (m - 3) * 31 - (if m > 4 then 1 else 0) - (if m > 6 then 1 else 0) - (if m > 9 then 1 else 0) - (if m > 11 then 1 else 0)
    {
      n := n + DaysInMonth(y, m);
    }
  }

  // ---- text form ----

  /** `date.format("%Y-%m-%d")`: four-digit year, two-digit month and day. */
  function Format(d: Date): (s: string)
    ensures |s| == 10 && s[4] == '-' && s[7] == '-'
  {
    Pad(d.year, 4) + "-" + Pad(d.month, 2) + "-" + Pad(d.day, 2)
  }

  lemma Pow10Widths()
    ensures Pow10(2) == 100 && Pow10(4) == 10000
  {
    assert Pow10(1) == 10;
    assert Pow10(3) == 1000;
  }

  /** Parses a `YYYY-MM-DD` date, ignoring surrounding whitespace. What it
      accepts is exactly the text form of a valid date. */
  function ParseDate(s: string): (r: Option<Date>)
    ensures r.Some? ==> IsValid(r.value) && Format(r.value) == Trim(s)
  {
    var t := Trim(s);
    if |t| == 10 && t[4] == '-' && t[7] == '-'
       && AllDigits(t[..4]) && AllDigits(t[5..7]) && AllDigits(t[8..]) then
      var d := Date(DigitsValue(t[..4]), DigitsValue(t[5..7]), DigitsValue(t[8..]));
      if IsValid(d) then
        FormatOfText(t);
        Some(d)
      else
        None
    else
      None
  }

  /** Ten characters shaped `DDDD-DD-DD` are the text form of the date
      their digits denote. */
  lemma FormatOfText(t: string)
    requires |t| == 10 && t[4] == '-' && t[7] == '-'
    requires AllDigits(t[..4]) && AllDigits(t[5..7]) && AllDigits(t[8..])
    ensures Format(Date(DigitsValue(t[..4]), DigitsValue(t[5..7]), DigitsValue(t[8..]))) == t
  {
    ValuePad(t[..4]);
    ValuePad(t[5..7]);
    ValuePad(t[8..]);
    assert t == t[..4] + "-" + t[5..7] + "-" + t[8..];
  }

  /** The text form of a valid date parses back to that date. */
  lemma ParseFormat(d: Date)
    requires IsValid(d)
    ensures ParseDate(Format(d)) == Some(d)
  {
    var s := Format(d);
    assert !IsWhitespace(s[0]) && !IsWhitespace(s[9]);
    assert Trim(s) == s;
    Pow10Widths();
    PadValue(d.year, 4);
    PadValue(d.month, 2);
    PadValue(d.day, 2);
    assert s[..4] == Pad(d.year, 4) && s[5..7] == Pad(d.month, 2) && s[8..] == Pad(d.day, 2);
  }

  /** A line parses to `d` exactly when, trimmed, it is the text form of `d`. */
  lemma ParseDateIff(s: string, d: Date)
    ensures ParseDate(s) == Some(d) <==> IsValid(d) && Trim(s) == Format(d)
  {
    if IsValid(d) && Trim(s) == Format(d) {
      ParseFormat(d);
      assert Trim(Format(d)) == Format(d);
    }
  }

  /** The text form is injective on valid dates. */
  lemma FormatInjective(a: Date, b: Date)
    requires IsValid(a) && IsValid(b) && Format(a) == Format(b)
    ensures a == b
  {
    ParseFormat(a);
    ParseFormat(b);
  }

  /** The part of the text form after the year: `-MM-DD`. */
  function MonthDayText(d: Date): string {
    "-" + Pad(d.month, 2) + "-" + Pad(d.day, 2)
  }

  lemma MonthDayOrder(a: Date, b: Date)
    requires IsValid(a) && IsValid(b)
    ensures StrLt(MonthDayText(a), MonthDayText(b)) <==> a.month < b.month || (a.month == b.month && a.day < b.day)
  {
    Pow10Widths();
    var ma, mb := Pad(a.month, 2), Pad(b.month, 2);
    var da, db := Pad(a.day, 2), Pad(b.day, 2);
    assert MonthDayText(a) == "-" + (ma + ("-" + da));
    assert MonthDayText(b) == "-" + (mb + ("-" + db));
    StrLtConcat("-", "-", ma + ("-" + da), mb + ("-" + db));
    StrLtConcat(ma, mb, "-" + da, "-" + db);
    PadOrder(a.month, b.month, 2);
    if ma == mb {
      PadValue(a.month, 2);
      PadValue(b.month, 2);
      StrLtConcat("-", "-", da, db);
      PadOrder(a.day, b.day, 2);
    }
  }

  /** For four-digit years, string order of the text forms is calendar order. */
  lemma FormatOrder(a: Date, b: Date)
    requires IsValid(a) && IsValid(b)
    ensures StrLt(Format(a), Format(b)) <==> Before(a, b)
  {
    Pow10Widths();
    var ya, yb := Pad(a.year, 4), Pad(b.year, 4);
    assert Format(a) == ya + MonthDayText(a) && Format(b) == yb + MonthDayText(b);
    StrLtConcat(ya, yb, MonthDayText(a), MonthDayText(b));
    PadOrder(a.year, b.year, 4);
    if ya == yb {
      PadValue(a.year, 4);
      PadValue(b.year, 4);
      MonthDayOrder(a, b);
    }
  }
}
