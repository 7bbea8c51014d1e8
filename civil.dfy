/** Proleptic Gregorian civil dates with integer arithmetic: what the app
    obtains from `Date` (`getDay`, `getDate`, `setDate(getDate() - 1)`,
    `new Date(y, m + 1, 0)`) in local time, without time zones. */
module Civil {
  import opened Seqs
  import opened Text

  /** A civil date; `month` is 1..12. */
  datatype Date = Date(year: int, month: int, day: int)

  predicate IsLeap(y: int)
  {
    y % 4 == 0 && (y % 100 != 0 || y % 400 == 0)
  }

  function DaysInMonth(y: int, m: int): (n: int)
    requires 1 <= m <= 12
    ensures 28 <= n <= 31
  {
    if m == 2 then (if IsLeap(y) then 29 else 28)
    else if m == 4 || m == 6 || m == 9 || m == 11 then 30
    else 31
  }

  predicate Valid(d: Date)
  {
    1 <= d.month <= 12 && 1 <= d.day <= DaysInMonth(d.year, d.month)
  }

  /** Days in the months of year `y` before month `m`. */
  function DaysBeforeMonth(y: int, m: int): int
    requires 1 <= m <= 12
  {
    [0, 31, 59, 90, 120, 151, 181, 212, 243, 273, 304, 334][m - 1] + (if m > 2 && IsLeap(y) then 1 else 0)
  }

  /** Leap years among 1..y (and its extension below year 1). */
  function LeapsThrough(y: int): int
  {
    y / 4 - y / 100 + y / 400
  }

  /** Days from 1970-01-01 (a Thursday) to `d`. */
  function DayNumber(d: Date): int
    requires 1 <= d.month <= 12
  {
    365 * (d.year - 1970) + (LeapsThrough(d.year - 1) - LeapsThrough(1969)) +
    DaysBeforeMonth(d.year, d.month) + d.day - 1
  }

  /** `Date.getDay`: 0 = Sunday .. 6 = Saturday. */
  function Weekday(d: Date): (w: int)
    requires 1 <= d.month <= 12
    ensures 0 <= w < 7
  {
    (DayNumber(d) + 4) % 7
  }

  /** The following calendar day. */
  function NextDay(d: Date): Date
    requires Valid(d)
  {
    if d.day < DaysInMonth(d.year, d.month) then Date(d.year, d.month, d.day + 1)
    else if d.month < 12 then Date(d.year, d.month + 1, 1)
    else Date(d.year + 1, 1, 1)
  }

  /** The preceding calendar day: `setDate(getDate() - 1)`. */
  function PrevDay(d: Date): Date
    requires Valid(d)
  {
    if d.day > 1 then Date(d.year, d.month, d.day - 1)
    else if d.month > 1 then Date(d.year, d.month - 1, DaysInMonth(d.year, d.month - 1))
    else Date(d.year - 1, 12, 31)
  }

  /** y/4, y/100 and y/400 each step down by one exactly at their multiples. */
  lemma DivSteps(y: int)
    ensures (y - 1) / 4 == y / 4 - (if y % 4 == 0 then 1 else 0)
    ensures (y - 1) / 100 == y / 100 - (if y % 100 == 0 then 1 else 0)
    ensures (y - 1) / 400 == y / 400 - (if y % 400 == 0 then 1 else 0)
  {
  }

  lemma LeapsStep(y: int)
    ensures LeapsThrough(y) - LeapsThrough(y - 1) == if IsLeap(y) then 1 else 0
  {
    DivSteps(y);
    var i4 := if y % 4 == 0 then 1 else 0;
    var i100 := if y % 100 == 0 then 1 else 0;
    var i400 := if y % 400 == 0 then 1 else 0;
    assert LeapsThrough(y) - LeapsThrough(y - 1) == i4 - i100 + i400;
    MultiplesNest(y);
  }

  /** A multiple of 400 is one of 100, and a multiple of 100 one of 4. */
  lemma MultiplesNest(y: int)
    ensures y % 400 == 0 ==> y % 100 == 0
    ensures y % 100 == 0 ==> y % 4 == 0
  {
    if y % 400 == 0 {
      Multiple400(y);
    }
    if y % 100 == 0 {
      Multiple100(y);
    }
  }

  lemma Multiple400(y: int)
    requires y % 400 == 0
    ensures y % 100 == 0
  {
    var q := 4 * (y / 400);
    assert y == 100 * q;
    assert y / 100 == q;
  }

  lemma Multiple100(y: int)
    requires y % 100 == 0
    ensures y % 4 == 0
  {
    var q := 25 * (y / 100);
    assert y == 4 * q;
    assert y / 4 == q;
  }

  lemma DaysInYear(y: int)
    ensures DaysBeforeMonth(y, 12) + DaysInMonth(y, 12) == if IsLeap(y) then 366 else 365
  {
  }

  /** Day numbers count days: the next day is one more. */
  lemma NextDayNumber(d: Date)
    requires Valid(d)
    ensures Valid(NextDay(d)) && DayNumber(NextDay(d)) == DayNumber(d) + 1
  {
    if d.day == DaysInMonth(d.year, d.month) && d.month == 12 {
      LeapsStep(d.year);
      DaysInYear(d.year);
    }
  }

  lemma PrevNextInverse(d: Date)
    requires Valid(d)
    ensures Valid(PrevDay(d)) && NextDay(PrevDay(d)) == d
    ensures Valid(NextDay(d)) && PrevDay(NextDay(d)) == d
  {
  }

  /** The weekday advances by one each day. */
  lemma WeekdayNext(d: Date)
    requires Valid(d)
    ensures Valid(NextDay(d)) && Weekday(NextDay(d)) == (Weekday(d) + 1) % 7
  {
    NextDayNumber(d);
    ModShift(DayNumber(d) + 4, 1);
  }

  lemma ModShift(n: int, k: int)
    ensures (n + k) % 7 == (n % 7 + k) % 7
  {
  }

  /** The weekday of the previous day is one less, modulo 7. */
  lemma WeekdayPrev(d: Date)
    requires Valid(d)
    ensures Valid(PrevDay(d)) && Weekday(PrevDay(d)) == (Weekday(d) + 6) % 7
  {
    var p := PrevDay(d);
    PrevNextInverse(d);
    NextDayNumber(p);
    var n := DayNumber(p);
    var x := (n + 4) % 7;
    assert Weekday(p) == x;
    ModShift(n + 4, 1);
    assert Weekday(d) == (x + 1) % 7;
    WeekdayBack(x);
  }

  /** Six days on from the day after x is x again. */
  lemma WeekdayBack(x: int)
    requires 0 <= x < 7
    ensures ((x + 1) % 7 + 6) % 7 == x
  {
    if x < 6 {
      assert (x + 1) % 7 == x + 1;
    }
  }

  /** Within one month the weekday moves with the day of the month. */
  lemma WeekdayInMonth(y: int, m: int, k: int)
    requires 1 <= m <= 12
    ensures Weekday(Date(y, m, k)) == (Weekday(Date(y, m, 1)) + k - 1) % 7
  {
    assert DayNumber(Date(y, m, k)) == DayNumber(Date(y, m, 1)) + k - 1;
    ModShift(DayNumber(Date(y, m, 1)) + 4, k - 1);
  }

  // ---------------------------------------------------------------------
  // "YYYY-MM-DD" text

  /** Reads "YYYY-MM-DD" as a valid date, as `new Date(s + 'T…')` does. */
  function ParseDate(s: string): Option<Date>
  {
    if |s| == 10 && s[4] == '-' && s[7] == '-' &&
       AllDigits(s[..4], 10) && AllDigits(s[5..7], 10) && AllDigits(s[8..], 10)
    then
      var d := Date(ValueOf(s[..4], 10), ValueOf(s[5..7], 10), ValueOf(s[8..], 10));
      if Valid(d) then Some(d) else None
    else None
  }

  /** The "YYYY-MM-DD" text of a date in years 0..9999 (`toISOString`). */
  function FormatDate(d: Date): string
    requires Valid(d) && 0 <= d.year <= 9999
  {
    Pad(d.year, 4) + "-" + Pad(d.month, 2) + "-" + Pad(d.day, 2)
  }

  lemma {:induction false} DigitsLength(n: nat, width: nat)
    requires n < Power10(width) && width >= 1
    ensures |Digits(n, 10)| <= width
  {
    if n >= 10 {
      DigitsLength(n / 10, width - 1);
    }
  }

  function Power10(k: nat): nat
  {
    if k == 0 then 1 else 10 * Power10(k - 1)
  }

  /** Formatting a date and reading it back gives the date. */
  lemma FormatParseRoundTrip(d: Date)
    requires Valid(d) && 0 <= d.year <= 9999
    ensures ParseDate(FormatDate(d)) == Some(d)
  {
    var y, m, dd := Pad(d.year, 4), Pad(d.month, 2), Pad(d.day, 2);
    PadWidths(d);
    PadRoundTrip(d.year, 4);
    PadRoundTrip(d.month, 2);
    PadRoundTrip(d.day, 2);
    DateFields(y, m, dd);
  }

  /** The three fields of FormatDate have their full widths. */
  lemma PadWidths(d: Date)
    requires Valid(d) && 0 <= d.year <= 9999
    ensures |Pad(d.year, 4)| == 4 && |Pad(d.month, 2)| == 2 && |Pad(d.day, 2)| == 2
  {
    assert Power10(4) == 10000 && Power10(2) == 100;
    DigitsLength(d.year, 4);
    DigitsLength(d.month, 2);
    DigitsLength(d.day, 2);
  }

  /** Where the fields of "YYYY-MM-DD" sit. */
  lemma DateFields(y: string, m: string, dd: string)
    requires |y| == 4 && |m| == 2 && |dd| == 2
    ensures var s := y + "-" + m + "-" + dd;
            |s| == 10 && s[4] == '-' && s[7] == '-' && s[..4] == y && s[5..7] == m && s[8..] == dd
  {
  }

}
