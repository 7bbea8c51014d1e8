/** The duty calculator form (components/CalculatorTab.tsx): the four inputs,
    the record "Arquivar no Rascunho" files into the draft list, and the
    draft list's running total. */
module CalculatorTab {
  import opened Seqs
  import opened Text
  import opened Types
  import opened Constants
  import opened Civil
  import opened Utils
  import App

  /** The longest duty block the stepper and the select offer, in hours. */
  const MAX_DURATION: nat := 24

  /** What an `<input type="date">` can hold: nothing, or a "YYYY-MM-DD" day. */
  predicate DateInput(s: string)
  {
    s == "" || ParseDate(s).Some?
  }

  /** A value of the start-hour select: one of the "HH:00" options. */
  predicate HourOption(s: string)
  {
    exists h: nat :: h < 24 && s == HourLabel(h)
  }

  /** `Math.max(0, prev - 1)`. */
  function Decremented(d: int): (r: int)
    ensures r >= 0
    ensures d > 0 ==> r == d - 1
    ensures d <= 0 ==> r == 0
  {
    if d - 1 > 0 then d - 1 else 0
  }

  /** `Math.min(24, prev + 1)`. */
  function Incremented(d: int): (r: int)
    ensures r <= MAX_DURATION
    ensures d < MAX_DURATION ==> r == d + 1
    ensures d >= MAX_DURATION ==> r == MAX_DURATION
  {
    if d + 1 < MAX_DURATION then d + 1 else MAX_DURATION
  }

  /** Within 0..24 the two buttons undo each other, except at the ends. */
  lemma StepperInverse(d: int)
    requires 0 <= d <= MAX_DURATION
    ensures d < MAX_DURATION ==> Decremented(Incremented(d)) == d
    ensures d > 0 ==> Incremented(Decremented(d)) == d
    ensures Decremented(0) == 0 && Incremented(MAX_DURATION) == MAX_DURATION
  {
  }

  /** The options of the duration select, `Array.from({ length: 25 }, (_, i) => i)`. */
  function DurationOptions(): (r: seq<nat>)
    ensures |r| == MAX_DURATION + 1
    ensures forall i :: 0 <= i < |r| ==> r[i] == i
  {
    seq(MAX_DURATION + 1, i => i)
  }

  /** `disabled={duration === 0}` on the add button. */
  predicate AddDisabled(duration: int)
  {
    duration == 0
  }

  /** The record handleAdd hands to onAddRecord, or None when its guard
      returns early: no date, no start hour or a zero duration. The value is
      the AC4 total of the block, the end and the weekday are the memos'
      values, and the RAI number is stored trimmed. */
  function CapturedRecord(id: string, date: string, startHour: string, duration: nat, raiNumber: string): (r: Option<WorkRecord>)
    requires DateInput(date)
    ensures r.None? <==> date == "" || startHour == "" || duration == 0
    ensures r.Some? ==> r.value.id == id && r.value.date == date && r.value.startHour == startHour &&
                        r.value.duration == duration && r.value.raiNumber == Some(Trim(raiNumber))
    ensures r.Some? ==> r.value.weekday == DAYS_OF_WEEK[Weekday(ParseDate(date).value)]
    ensures r.Some? ==> 2647 * duration <= r.value.value <= 4138 * duration
  {
    if date == "" || startHour == "" || duration == 0 then None
    else
      var start := StartOf(date, startHour);
      TotalBounds(start, duration);
      Some(WorkRecord(id, date, startHour, CalculateEndHour(startHour, duration), duration,
                      AC4Total(start, duration), GetWeekdayName(date), Some(Trim(raiNumber))))
  }

  /** For a start picked from the hour select, the record ends `duration`
      hours later on the clock and is worth the AC4 rates of those hours. */
  lemma CapturedFromOptions(id: string, date: string, h: nat, duration: nat, raiNumber: string)
    requires ParseDate(date).Some? && h < 24 && 0 < duration
    ensures var r := CapturedRecord(id, date, HourLabel(h), duration, raiNumber);
            r.Some? &&
            r.value.endHour == HourLabel((h + duration) % 24) &&
            r.value.value == AC4Total(StartOf(date, HourLabel(h)), duration)
  {
    Pad2Digits(h);
    EndHourOfTime(h, 0, duration);
  }

  /** The RAI number of a captured record is trimmed, and upper-case when the
      input was. */
  lemma CapturedRaiNormalised(id: string, date: string, startHour: string, duration: nat, raiNumber: string)
    requires DateInput(date) && ToUpper(raiNumber) == raiNumber
    ensures var r := CapturedRecord(id, date, startHour, duration, raiNumber);
            r.Some? ==> var s := r.value.raiNumber.value;
                        Trim(s) == s && ToUpper(s) == s
  {
    TrimIdempotent(raiNumber);
    TrimKeepsUpper(raiNumber);
  }

  /** `records.reduce((acc, curr) => acc + curr.value, 0)`. */
  function TotalValue(records: seq<WorkRecord>): int
  {
    SumOf(records, App.RecordValue)
  }

  /** Filing a record raises the draft total by exactly its value. */
  lemma TotalAfterAdd(records: seq<WorkRecord>, r: WorkRecord)
    ensures TotalValue(records + [r]) == TotalValue(records) + r.value
  {
    SumOfAppend(records, [r], App.RecordValue);
    assert [r][1..] == [];
  }

  /** The draft total is at least the floor rate per hour filed. */
  lemma {:induction false} TotalAtLeastFloor(records: seq<WorkRecord>)
    requires forall i :: 0 <= i < |records| ==> records[i].value >= 2647 * records[i].duration
    ensures TotalValue(records) >= 2647 * SumOf(records, DurationOf)
  {
    if records != [] {
      TotalAtLeastFloor(records[1..]);
    }
  }

  function DurationOf(r: WorkRecord): int { r.duration }

  /** The state of the form: the date picker, the start-hour select, the
      duration stepper and the RAI text box. */
  class CalculatorForm {
    var date: string
    var startHour: string
    var duration: int
    var raiNumber: string

    /** What the inputs can hold: a date or nothing, an hour option, a
        duration the select offers and an upper-case RAI number. */
    predicate Valid()
      reads this
    {
      DateInput(date) && HourOption(startHour) && 0 <= duration <= MAX_DURATION &&
      ToUpper(raiNumber) == raiNumber
    }

    /** The first render: today's date, 08:00, no hours, no RAI number. */
    constructor (today: string)
      requires ParseDate(today).Some?
      ensures date == today && startHour == "08:00" && duration == 0 && raiNumber == ""
      ensures Valid()
    {
      date := today;
      startHour := "08:00";
      duration := 0;
      raiNumber := "";
      Pad2Digits(8);
      Pad2Digits(0);
      assert HourLabel(8) == "08:00";
    }

    method SetDate(d: string)
      requires Valid() && DateInput(d)
      modifies this
      ensures date == d && startHour == old(startHour) && duration == old(duration) && raiNumber == old(raiNumber)
      ensures Valid()
    {
      date := d;
    }

    method SetStartHour(h: nat)
      requires Valid() && h < 24
      modifies this
      ensures startHour == HourLabel(h) && date == old(date) && duration == old(duration) && raiNumber == old(raiNumber)
      ensures Valid()
    {
      startHour := HourLabel(h);
    }

    /** The minus button. */
    method Minus()
      requires Valid()
      modifies this
      ensures duration == Decremented(old(duration))
      ensures date == old(date) && startHour == old(startHour) && raiNumber == old(raiNumber)
      ensures Valid()
    {
      duration := if duration - 1 > 0 then duration - 1 else 0;
    }

    /** The plus button. */
    method Plus()
      requires Valid()
      modifies this
      ensures duration == Incremented(old(duration))
      ensures date == old(date) && startHour == old(startHour) && raiNumber == old(raiNumber)
      ensures Valid()
    {
      duration := if duration + 1 < MAX_DURATION then duration + 1 else MAX_DURATION;
    }

    /** Picking an option of the duration select. */
    method SelectDuration(i: nat)
      requires Valid() && i in DurationOptions()
      modifies this
      ensures duration == i
      ensures date == old(date) && startHour == old(startHour) && raiNumber == old(raiNumber)
      ensures Valid()
    {
      duration := i;
    }

    /** Typing into the RAI box: the text is stored upper-cased. */
    method SetRaiNumber(typed: string)
      requires Valid()
      modifies this
      ensures raiNumber == ToUpper(typed)
      ensures date == old(date) && startHour == old(startHour) && duration == old(duration)
      ensures Valid()
    {
      raiNumber := ToUpper(typed);
      ToUpperIdempotent(typed);
    }

    /** handleAdd: the record it hands to `onAddRecord` (App's addRecord,
        App.AppState.AddRecord), after which the RAI box is cleared; with no
        date or no hours it does nothing. `recordId` stands for
        `crypto.randomUUID()`. The end hour, the weekday and the value are the
        form's memos, computed from the current inputs. */
    method HandleAdd(recordId: string) returns (added: Option<WorkRecord>)
      requires Valid()
      modifies this
      ensures added == CapturedRecord(recordId, old(date), old(startHour), old(duration), old(raiNumber))
      ensures added.None? ==> unchanged(this)
      ensures added.Some? ==> raiNumber == "" && date == old(date) && startHour == old(startHour) &&
                              duration == old(duration)
      ensures Valid()
    {
      if date == "" || startHour == "" || duration == 0 {
        return None;
      }
      var value := CalculateAC4Value(date, startHour, duration);
      var rec := WorkRecord(recordId, date, startHour, CalculateEndHour(startHour, duration), duration,
                            value, GetWeekdayName(date), Some(Trim(raiNumber)));
      added := Some(rec);
      raiNumber := "";
    }
  }

  /** An enabled add button files a record whenever a date is picked. */
  lemma EnabledAddFiles(id: string, date: string, h: nat, duration: nat, raiNumber: string)
    requires ParseDate(date).Some? && h < 24 && duration <= MAX_DURATION
    ensures !AddDisabled(duration) <==> CapturedRecord(id, date, HourLabel(h), duration, raiNumber).Some?
  {
    Pad2Digits(h);
  }
}
