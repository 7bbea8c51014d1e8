/** utils.ts: the AC4 tariff engine and the small text helpers beside it.

    The engine walks a duty block one hour at a time with a JavaScript `Date`
    as its clock. The clock is modelled as a civil date and an hour of the
    day (minutes never change and never matter), or as an Invalid Date, whose
    `getHours` and `getDay` are NaN. Rates are integer cents. */
module Utils {
  import opened Seqs
  import opened Text
  import opened Civil
  import opened Constants

  /** A local time on the hour: the value of `currentDateTime`. */
  datatype Timestamp = Timestamp(date: Date, hour: int)

  /** A JavaScript Date: an Invalid Date or a local time. */
  datatype Clock = Invalid | At(t: Timestamp)

  predicate WellFormed(c: Clock)
  {
    c.Invalid? || (Valid(c.t.date) && 0 <= c.t.hour < 24)
  }

  // ---------------------------------------------------------------------
  // Reading the start of a block

  /** "HH:MM" or "HH:MM:SS" with HH in 00..23 and MM, SS in 00..59: the hour
      and the minute. */
  function ParseTime(s: string): Option<(int, int)>
  {
    if (|s| == 5 || (|s| == 8 && s[5] == ':' && AllDigits(s[6..8], 10) && ValueOf(s[6..8], 10) < 60)) &&
       s[2] == ':' && AllDigits(s[..2], 10) && AllDigits(s[3..5], 10) &&
       ValueOf(s[..2], 10) < 24 && ValueOf(s[3..5], 10) < 60
    then Some((ValueOf(s[..2], 10), ValueOf(s[3..5], 10)))
    else None
  }

  /** `new Date(dateStr + 'T' + timeStr)`. */
  function StartOf(dateStr: string, timeStr: string): (c: Clock)
    ensures WellFormed(c)
  {
    match (ParseDate(dateStr), ParseTime(timeStr))
    case (Some(d), Some((h, _))) => At(Timestamp(d, h))
    case _ => Invalid
  }

  function GetHours(c: Clock): JsNumber
  {
    match c
    case Invalid => NaN
    case At(t) => Num(t.hour)
  }

  function GetDay(c: Clock): JsNumber
    requires WellFormed(c)
  {
    match c
    case Invalid => NaN
    case At(t) => Num(Weekday(t.date))
  }

  /** `d.setDate(d.getDate() - 1)`: the same hour on the previous day. */
  function DayBefore(c: Clock): (r: Clock)
    requires WellFormed(c)
    ensures WellFormed(r)
  {
    match c
    case Invalid => Invalid
    case At(t) => PrevNextInverse(t.date); At(Timestamp(PrevDay(t.date), t.hour))
  }

  /** `d.setHours(d.getHours() + 1)`, rolling over midnight into the next day. */
  function Tick(c: Clock): (r: Clock)
    requires WellFormed(c)
    ensures WellFormed(r)
  {
    match c
    case Invalid => Invalid
    case At(t) =>
      if t.hour < 23 then At(Timestamp(t.date, t.hour + 1))
      else PrevNextInverse(t.date); At(Timestamp(NextDay(t.date), 0))
  }

  /** The clock after `k` steps. */
  function After(c: Clock, k: nat): (r: Clock)
    requires WellFormed(c)
    ensures WellFormed(r)
  {
    if k == 0 then c else Tick(After(c, k - 1))
  }

  // ---------------------------------------------------------------------
  // Classifying one hour

  /** NIGHT is 22:00-04:59; a NaN hour is never night. */
  predicate IsNight(hour: JsNumber)
  {
    hour.Num? && (hour.value >= 22 || hour.value <= 4)
  }

  /** The weekday whose scale prices this hour: hours 0-4 belong to the night
      that began on the previous day. */
  function OperationalDay(c: Clock): JsNumber
    requires WellFormed(c)
  {
    if IsNight(GetHours(c)) && GetHours(c).value <= 4 then GetDay(DayBefore(c)) else GetDay(c)
  }

  /** RED on Friday, Saturday and Sunday; NaN is not RED. */
  predicate IsRedScale(day: JsNumber)
  {
    day == Num(5) || day == Num(6) || day == Num(0)
  }

  /** The rate of the hour starting at `c`, in cents (the literals of the
      engine, not a lookup in AC4_RULES). */
  function HourRate(c: Clock): int
    requires WellFormed(c)
  {
    var night := IsNight(GetHours(c));
    if IsRedScale(OperationalDay(c)) then (if night then 4138 else 3641)
    else (if night then 2980 else 2647)
  }

  /** The itemized rates of an `n`-hour block starting at `c`. */
  function HourlyRates(c: Clock, n: nat): (r: seq<int>)
    requires WellFormed(c)
    ensures |r| == n
  {
    if n == 0 then [] else HourlyRates(c, n - 1) + [HourRate(After(c, n - 1))]
  }

  function Cents(x: int): int { x }

  /** The total of an `n`-hour block starting at `c`, in cents. */
  function AC4Total(c: Clock, n: nat): int
    requires WellFormed(c)
  {
    SumOf(HourlyRates(c, n), Cents)
  }

  /** One more hour adds that hour's rate. */
  lemma TotalStep(c: Clock, i: nat)
    requires WellFormed(c)
    ensures AC4Total(c, i + 1) == AC4Total(c, i) + HourRate(After(c, i))
  {
    SumOfAppend(HourlyRates(c, i), [HourRate(After(c, i))], Cents);
    assert [HourRate(After(c, i))][1..] == [];
  }

  /** calculateAC4Value: steps through the block one hour at a time. */
  method CalculateAC4Value(dateStr: string, startHourStr: string, duration: nat) returns (total: int)
    ensures total == AC4Total(StartOf(dateStr, startHourStr), duration)
  {
    total := 0;
    ghost var start := StartOf(dateStr, startHourStr);
    var currentDateTime := StartOf(dateStr, startHourStr);
    var i := 0;
    while i < duration
      invariant 0 <= i <= duration
      invariant WellFormed(currentDateTime) && currentDateTime == After(start, i)
      invariant total == AC4Total(start, i)
    {
      var hour := GetHours(currentDateTime);
      var dayOfWeek := GetDay(currentDateTime);
      var isNight := hour.Num? && (hour.value >= 22 || hour.value <= 4);
      var operationalDay;
      if isNight && hour.value <= 4 {
        var tempDate := DayBefore(currentDateTime);
        operationalDay := GetDay(tempDate);
      } else {
        operationalDay := dayOfWeek;
      }
      var isRedScale := operationalDay == Num(5) || operationalDay == Num(6) || operationalDay == Num(0);
      var rate := 0;
      if isRedScale {
        rate := if isNight then 4138 else 3641;
      } else {
        rate := if isNight then 2980 else 2647;
      }
      assert rate == HourRate(currentDateTime);
      TotalStep(start, i);
      total := total + rate;
      currentDateTime := Tick(currentDateTime);
      i := i + 1;
    }
  }

  // ---------------------------------------------------------------------
  // What the engine promises

  /** The scale of an operational weekday. */
  function ScaleOf(w: int): Scale
  {
    if w == 5 || w == 6 || w == 0 then Red else Blue
  }

  function PeriodOf(hour: int): Period
  {
    if hour >= 22 || hour <= 4 then Night else Day
  }

  /** The weekday an hour is priced under: the previous day's for 00-04,
      the day's own otherwise. */
  function OperationalWeekday(t: Timestamp): int
    requires 1 <= t.date.month <= 12
  {
    if 0 <= t.hour <= 4 then (Weekday(t.date) + 6) % 7 else Weekday(t.date)
  }

  /** Every valid hour is priced at AC4_RULES[scale][period], the period
      given by the hour of the day and the scale by the operational
      weekday. */
  lemma HourRateIsRule(t: Timestamp)
    requires WellFormed(At(t))
    ensures HourRate(At(t)) == AC4Rule(ScaleOf(OperationalWeekday(t)), PeriodOf(t.hour))
  {
    WeekdayPrev(t.date);
  }

  /** An Invalid Date prices every hour BLUE-DAY: NaN is neither night nor RED. */
  lemma InvalidHourRate()
    ensures HourRate(Invalid) == AC4Rule(Blue, Day)
  {
  }

  /** Every hour of a block is priced at one of the four rates. */
  lemma {:induction false} RatesAreRules(c: Clock, n: nat)
    requires WellFormed(c)
    ensures forall i :: 0 <= i < n ==>
              HourlyRates(c, n)[i] in {AC4Rule(Blue, Day), AC4Rule(Blue, Night), AC4Rule(Red, Day), AC4Rule(Red, Night)}
  {
    if n > 0 {
      RatesAreRules(c, n - 1);
      var r := HourlyRates(c, n);
      assert r[..n - 1] == HourlyRates(c, n - 1);
      match After(c, n - 1)
      case Invalid =>
      case At(t) => HourRateIsRule(t);
    }
  }

  /** The total of a block lies between n BLUE-DAY hours and n RED-NIGHT hours. */
  lemma TotalBounds(c: Clock, n: nat)
    requires WellFormed(c)
    ensures 2647 * n <= AC4Total(c, n) <= 4138 * n
  {
    RatesAreRules(c, n);
    SumOfBounds(HourlyRates(c, n), Cents, 2647, 4138);
  }

  /** A block starting from an unreadable date or time costs n BLUE-DAY hours. */
  lemma {:induction false} InvalidStartTotal(n: nat)
    ensures AC4Total(Invalid, n) == 2647 * n
  {
    if n > 0 {
      InvalidStartTotal(n - 1);
      SumOfAppend(HourlyRates(Invalid, n - 1), [HourRate(After(Invalid, n - 1))], Cents);
      assert After(Invalid, n - 1) == Invalid by { AfterInvalid(n - 1); }
    }
  }

  lemma {:induction false} AfterInvalid(k: nat)
    ensures After(Invalid, k) == Invalid
  {
    if k > 0 { AfterInvalid(k - 1); }
  }

  /** From 22:00 the clock reaches 23:00 and then 00:00-04:00 of the next day. */
  lemma {:induction false} AfterFromTen(d: Date, k: nat)
    requires Valid(d) && k < 7
    ensures After(At(Timestamp(d, 22)), k) ==
            if k < 2 then At(Timestamp(d, 22 + k)) else At(Timestamp(NextDay(d), k - 2))
  {
    if k > 0 { AfterFromTen(d, k - 1); }
  }

  /** A night block started at 22:00 is priced whole under the start day's
      scale, even after midnight: every one of its hours costs the same. */
  lemma NightBlockUniform(d: Date, n: nat)
    requires Valid(d) && n <= 7
    ensures forall i :: 0 <= i < n ==>
              HourlyRates(At(Timestamp(d, 22)), n)[i] == AC4Rule(ScaleOf(Weekday(d)), Night)
  {
    var c := At(Timestamp(d, 22));
    forall i | 0 <= i < n
      ensures HourlyRates(c, n)[i] == AC4Rule(ScaleOf(Weekday(d)), Night)
    {
      RateAt(c, n, i);
      AfterFromTen(d, i);
      if i < 2 {
        HourRateIsRule(Timestamp(d, 22 + i));
      } else {
        PrevNextInverse(d);
        WeekdayNext(d);
        HourRateIsRule(Timestamp(NextDay(d), i - 2));
      }
    }
  }

  /** The i-th itemized rate is the rate of the clock after i steps. */
  lemma {:induction false} RateAt(c: Clock, n: nat, i: nat)
    requires WellFormed(c) && i < n
    ensures HourlyRates(c, n)[i] == HourRate(After(c, i))
  {
    var front := HourlyRates(c, n - 1);
    assert HourlyRates(c, n) == front + [HourRate(After(c, n - 1))];
    if i < n - 1 {
      RateAt(c, n - 1, i);
      assert HourlyRates(c, n)[i] == front[i];
    }
  }

  /** A block of whole RED-NIGHT hours costs n times the RED-NIGHT rate. */
  lemma {:induction false} UniformTotal(c: Clock, n: nat, rate: int)
    requires WellFormed(c)
    requires forall i :: 0 <= i < n ==> HourlyRates(c, n)[i] == rate
    ensures AC4Total(c, n) == rate * n
  {
    if n > 0 {
      var r, front := HourlyRates(c, n), HourlyRates(c, n - 1);
      assert r == front + [HourRate(After(c, n - 1))];
      forall i | 0 <= i < n - 1 ensures front[i] == rate {
        assert front[i] == r[i];
      }
      UniformTotal(c, n - 1, rate);
      SumOfAppend(front, [r[n - 1]], Cents);
      assert [r[n - 1]][1..] == [];
      assert AC4Total(c, n) == AC4Total(c, n - 1) + rate;
      assert rate * n == rate * (n - 1) + rate;
    } else {
      assert HourlyRates(c, 0) == [];
    }
  }

  /** A block whose date and hour are written as the form writes them
      ("YYYY-MM-DD", "HH:00") starts at that date and hour. */
  lemma StartOfLabels(d: Date, h: nat)
    requires Valid(d) && 0 <= d.year <= 9999 && h < 24
    ensures StartOf(FormatDate(d), HourLabel(h)) == At(Timestamp(d, h))
  {
    FormatParseRoundTrip(d);
    HourLabelParses(h);
  }

  /** Friday 2024-01-05 22:00 for 7 hours: 7 x 41.38. */
  lemma FridayNightExample()
    ensures AC4Total(At(Timestamp(Date(2024, 1, 5), 22)), 7) == 28966
  {
    FridayNightRates();
    UniformTotal(At(Timestamp(Date(2024, 1, 5), 22)), 7, 4138);
  }

  /** Every hour of that block is a red-scale night hour. */
  lemma FridayNightRates()
    ensures forall i :: 0 <= i < 7 ==> HourlyRates(At(Timestamp(Date(2024, 1, 5), 22)), 7)[i] == 4138
  {
    var d := Date(2024, 1, 5);
    assert Valid(d);
    assert DayNumber(d) == 19727;
    assert Weekday(d) == 5;
    assert AC4Rule(ScaleOf(5), Night) == 4138;
    NightBlockUniform(d, 7);
  }

  /** Thursday 2024-01-04 21:00 for 2 hours: 26.47 + 29.80 = 56.27. */
  lemma ThursdayEveningExample()
    ensures AC4Total(At(Timestamp(Date(2024, 1, 4), 21)), 2) == 5627
  {
    var d := Date(2024, 1, 4);
    assert Weekday(d) == 4;
    var c := At(Timestamp(d, 21));
    assert After(c, 1) == At(Timestamp(d, 22));
    HourRateIsRule(Timestamp(d, 21));
    HourRateIsRule(Timestamp(d, 22));
    SumOfAppend(HourlyRates(c, 1), [HourRate(After(c, 1))], Cents);
  }

  /** Monday 2024-01-08 00:00 for 1 hour is priced as Sunday night: 41.38. */
  lemma MondayMidnightExample()
    ensures AC4Total(At(Timestamp(Date(2024, 1, 8), 0)), 1) == 4138
  {
    var d := Date(2024, 1, 8);
    assert Weekday(d) == 1;
    HourRateIsRule(Timestamp(d, 0));
  }

  // ---------------------------------------------------------------------
  // calculateEndHour, generateHoursOptions, getWeekdayName

  /** `String(n)` of a JavaScript number. */
  function NumberString(n: JsNumber): string
  {
    match n
    case Num(v) => IntToString(v, 10)
    case NaN => "NaN"
  }

  /** calculateEndHour: the start hour plus the duration, modulo 24, with the
      start's minutes kept; "--" when there is no start. */
  function CalculateEndHour(startHour: string, duration: nat): string
  {
    if startHour == "" then "--" else EndOfFields(Split(startHour, ':'), duration)
  }

  /** The end time from the ':'-separated fields of the start. */
  function EndOfFields(fields: seq<string>, duration: nat): string
    requires |fields| >= 1
  {
    EndText(ToNumber(fields[0]), if |fields| >= 2 then Some(ToNumber(fields[1])) else None, duration)
  }

  /** The end time from the start's hour and minute as read by `Number`: an
      unreadable hour prints as "NaN", a missing minute as "undefined". */
  function EndText(h: JsNumber, m: Option<JsNumber>, duration: nat): string
  {
    var endH := if h.Num? then Num((h.value + duration) % 24) else NaN;
    var mText := if m.Some? then NumberString(m.value) else "undefined";
    PadStart(NumberString(endH), 2) + ":" + PadStart(mText, 2)
  }

  /** "HH:MM" for an hour and a minute. */
  function TimeLabel(h: nat, m: nat): string
  {
    Pad(h, 2) + ":" + Pad(m, 2)
  }

  lemma NumberOfPad(n: nat)
    requires n < 100
    ensures ToNumber(Pad(n, 2)) == Num(n)
  {
    Pad2Digits(n);
    PadRoundTrip(n, 2);
    TrimOfTrimmed(Pad(n, 2));
  }

  lemma PadOfString(n: nat)
    requires n < 100
    ensures PadStart(NumberString(Num(n)), 2) == Pad(n, 2)
  {
  }

  /** For a well-formed "HH:MM" the end is (HH + duration) mod 24 with MM kept. */
  lemma EndHourOfTime(h: nat, m: nat, duration: nat)
    requires h < 24 && m < 60
    ensures CalculateEndHour(TimeLabel(h, m), duration) == TimeLabel((h + duration) % 24, m)
  {
    ReadTimeFields(h, m, duration);
    EndTextOfTime(h, m, duration);
  }

  /** calculateEndHour reads the hour and the minute of "HH:MM" back. */
  lemma ReadTimeFields(h: nat, m: nat, duration: nat)
    requires h < 24 && m < 60
    ensures CalculateEndHour(TimeLabel(h, m), duration) == EndText(Num(h), Some(Num(m)), duration)
  {
    var s := TimeLabel(h, m);
    Pad2Digits(h);
    assert s != "";
    var f := Split(s, ':');
    SplitTime(h, m);
    NumberOfPad(h);
    NumberOfPad(m);
    assert ToNumber(f[0]) == Num(h) && ToNumber(f[1]) == Num(m) && |f| == 2;
  }

  lemma EndTextOfTime(h: nat, m: nat, duration: nat)
    requires h < 24 && m < 60
    ensures EndText(Num(h), Some(Num(m)), duration) == TimeLabel((h + duration) % 24, m)
  {
    PadOfString((h + duration) % 24);
    PadOfString(m);
  }

  /** "HH:MM" splits on ':' into the two padded fields. */
  lemma SplitTime(h: nat, m: nat)
    requires h < 100 && m < 100
    ensures Split(TimeLabel(h, m), ':') == [Pad(h, 2), Pad(m, 2)]
  {
    Pad2Digits(h);
    Pad2Digits(m);
    SplitFirst(Pad(h, 2), ':', Pad(m, 2));
    SplitNone(Pad(m, 2), ':');
    assert TimeLabel(h, m) == Pad(h, 2) + [':'] + Pad(m, 2);
  }

  /** A 24-hour block ends at the time it started. */
  lemma FullDayEndsAtStart(h: nat, m: nat)
    requires h < 24 && m < 60
    ensures CalculateEndHour(TimeLabel(h, m), 24) == TimeLabel(h, m)
  {
    ReadTimeFields(h, m, 24);
    FullDayText(h, m);
  }

  lemma FullDayText(h: nat, m: nat)
    requires h < 24 && m < 60
    ensures EndText(Num(h), Some(Num(m)), 24) == TimeLabel(h, m)
  {
    EndTextOfTime(h, m, 24);
    assert (h + 24) % 24 == h;
  }

  /** The option text for a whole hour, "HH:00". */
  function HourLabel(h: nat): string
  {
    TimeLabel(h, 0)
  }

  lemma DigitCharMonotone(a: nat, b: nat)
    requires a < b < 10
    ensures DigitChar(a) < DigitChar(b)
  {
  }

  /** Hour labels sort in the order of their hours. */
  lemma HourLabelsAscending(i: nat, j: nat)
    requires i < j < 24
    ensures Less(HourLabel(i), HourLabel(j))
  {
    Pad2Digits(i);
    Pad2Digits(j);
    Pad2Digits(0);
    var a, b := HourLabel(i), HourLabel(j);
    if i / 10 < j / 10 {
      DigitCharMonotone(i / 10, j / 10);
    } else {
      DigitCharMonotone(i % 10, j % 10);
      assert a[1..] == [DigitChar(i % 10)] + ":00";
      assert b[1..] == [DigitChar(j % 10)] + ":00";
    }
  }

  /** Each hour label is read back by the engine as that hour, minute 0. */
  lemma HourLabelParses(h: nat)
    requires h < 24
    ensures ParseTime(HourLabel(h)) == Some((h, 0))
  {
    Pad2Digits(h);
    Pad2Digits(0);
    PadRoundTrip(h, 2);
    PadRoundTrip(0, 2);
    var s := HourLabel(h);
    assert s[..2] == Pad(h, 2);
    assert s[3..5] == Pad(0, 2);
  }

  /** generateHoursOptions: the 24 whole hours, "00:00" to "23:00". */
  method GenerateHoursOptions() returns (options: seq<string>)
    ensures |options| == 24
    ensures forall i, j :: 0 <= i < j < 24 ==> Less(options[i], options[j])
    ensures forall i :: 0 <= i < 24 ==> ParseTime(options[i]) == Some((i, 0))
    ensures forall i :: 0 <= i < 24 ==> options[i] == TimeLabel(i, 0)
  {
    options := [];
    for i := 0 to 24
      invariant |options| == i
      invariant forall k :: 0 <= k < i ==> options[k] == HourLabel(k)
    {
      var hour := Pad(i, 2);
      options := options + [hour + ":00"];
    }
    forall i, j | 0 <= i < j < 24 ensures Less(options[i], options[j]) {
      HourLabelsAscending(i, j);
    }
    forall i | 0 <= i < 24 ensures ParseTime(options[i]) == Some((i, 0)) {
      HourLabelParses(i);
    }
  }

  /** getWeekdayName: "" for no date, else the weekday's name. The date comes
      from a date input, so it is empty or a valid "YYYY-MM-DD". */
  function GetWeekdayName(dateStr: string): (r: string)
    requires dateStr == "" || ParseDate(dateStr).Some?
    ensures dateStr == "" ==> r == ""
    ensures dateStr != "" ==> r == DAYS_OF_WEEK[Weekday(ParseDate(dateStr).value)] && r != ""
  {
    if dateStr == "" then ""
    else
      MidnightParses();
      DAYS_OF_WEEK[GetDay(StartOf(dateStr, "00:00:00")).value]
  }

  lemma MidnightParses()
    ensures ParseTime("00:00:00") == Some((0, 0))
  {
    var z := "00:00:00";
    assert z[..2] == "00" && z[3..5] == "00" && z[6..8] == "00";
    assert ValueOf("00", 10) == 0 by {
      assert "00"[..1] == "0";
      assert ValueOf("0", 10) == 0 by { assert "0"[..0] == ""; }
    }
  }

  /** The stored weekday name is that of the day the engine starts on. */
  lemma WeekdayNameMatchesEngine(dateStr: string, timeStr: string)
    requires ParseDate(dateStr).Some? && ParseTime(timeStr).Some?
    ensures GetDay(StartOf(dateStr, timeStr)).Num?
    ensures GetWeekdayName(dateStr) == DAYS_OF_WEEK[GetDay(StartOf(dateStr, timeStr)).value]
  {
  }
}
