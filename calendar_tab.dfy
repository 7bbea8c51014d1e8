/** components/CalendarTab.tsx: painting markers on days, the per-day
    overrides of a marker's look, the favourite-colour lists, the shift-type
    editor, holiday look-up and the 42-cell month grid. */
module CalendarTab {
  import opened Seqs
  import opened Text
  import opened Types
  import opened Constants
  import opened Civil
  import opened Markers
  import opened App

  // ---------------------------------------------------------------------
  // Painting

  /** The tool bar's modes; only PINTAR and EDITAR react to a day click. */
  datatype Mode = Paint | Edit | ShiftList

  /** The pseudo shift id of the eraser. */
  const ERASER: string := "eraser"

  function IdIsNot(x: string): string -> bool { (id: string) => id != x }

  /** The marker list of a painted day: the active marker is taken off where
      present, and otherwise placed under the two-slot rule. */
  function Toggled(ids: seq<string>, active: string): (r: seq<string>)
    ensures active in ids ==> active !in r && |r| < |ids|
    ensures active !in ids ==> active in r
  {
    if active in ids then
      var r := Filter(ids, IdIsNot(active));
      assert |r| < |ids| by {
        var k :| 0 <= k < |ids| && ids[k] == active;
        FilterShorter(ids, IdIsNot(active), k);
      }
      r
    else PlaceCapped(ids, active)
  }

  /** Filtering out an element that is present shortens the sequence. */
  lemma {:induction false} FilterShorter<T>(s: seq<T>, p: T -> bool, k: int)
    requires 0 <= k < |s| && !p(s[k])
    ensures |Filter(s, p)| < |s|
  {
    if k > 0 {
      FilterShorter(s[1..], p, k - 1);
    } else {
      assert |Filter(s[1..], p)| <= |s[1..]|;
    }
  }

  /** Painting the same marker twice on a day holding fewer than two markers,
      none of them this one, gives back the day's markers. */
  lemma ToggleTwice(ids: seq<string>, active: string)
    requires active !in ids && |ids| < 2
    ensures Toggled(Toggled(ids, active), active) == ids
  {
    var once := Toggled(ids, active);
    assert once == ids + [active];
    FilterAppend(ids, [active], IdIsNot(active));
    FilterKeepsAll(ids, IdIsNot(active));
    assert Filter([active], IdIsNot(active)) == [] by { assert [active][1..] == []; }
  }

  /** Taking a marker off keeps every other marker in its order. */
  lemma ToggleOffKeepsOthers(ids: seq<string>, active: string, other: string)
    requires active in ids && other != active
    ensures Filter(Toggled(ids, active), IdIs(other)) == Filter(ids, IdIs(other))
  {
    FilterImplied(ids, IdIsNot(active), IdIs(other));
  }

  function IdIs(x: string): string -> bool { (id: string) => id == x }

  /** The event a PINTAR click saves, if any: the eraser clears the markers
      and overrides of an existing event (and does nothing on an empty day);
      any other marker toggles on the existing event, keeping its id,
      observation and overrides, or starts a new event on an empty day. */
  function Painted(events: seq<CalendarEvent>, dateStr: string, active: string, freshId: string): Option<CalendarEvent>
  {
    var existing := Find(events, DateIs(dateStr));
    if active == ERASER then
      if existing.Some? then Some(existing.value.(shiftTypeIds := [], overrides := map[])) else None
    else if existing.Some? then
      Some(existing.value.(shiftTypeIds := Toggled(existing.value.shiftTypeIds, active)))
    else
      Some(CalendarEvent(freshId, dateStr, [active], "", map[]))
  }

  /** What a paint click keeps of the existing event, and what it makes. */
  lemma PaintShape(events: seq<CalendarEvent>, dateStr: string, active: string, freshId: string)
    ensures var existing := Find(events, DateIs(dateStr));
            var p := Painted(events, dateStr, active, freshId);
            (p.Some? <==> existing.Some? || active != ERASER) &&
            (p.Some? ==> p.value.date == dateStr) &&
            (existing.Some? && p.Some? ==>
               p.value.id == existing.value.id && p.value.observation == existing.value.observation) &&
            (existing.Some? && active != ERASER ==> p.value.overrides == existing.value.overrides) &&
            (existing.Some? && active == ERASER ==> p.value.shiftTypeIds == [] && p.value.overrides == map[]) &&
            (existing.None? && active != ERASER ==> p.value.shiftTypeIds == [active] && p.value.observation == "")
  {
    var existing := Find(events, DateIs(dateStr));
    if existing.Some? {
      var i :| 0 <= i < |events| && events[i] == existing.value && DateIs(dateStr)(events[i]);
    }
  }

  /** Erasing a day with no observation removes its event altogether. */
  lemma EraseBlankDay(events: seq<CalendarEvent>, dateStr: string, freshId: string)
    requires Find(events, DateIs(dateStr)).Some? && Find(events, DateIs(dateStr)).value.observation == ""
    ensures var p := Painted(events, dateStr, ERASER, freshId);
            p.Some? && Filter(SavedEvents(events, p.value), DateIs(dateStr)) == []
  {
    PaintShape(events, dateStr, ERASER, freshId);
    var p := Painted(events, dateStr, ERASER, freshId);
    SaveLeavesOnlyNew(events, p.value);
  }

  /** After painting, the day's only event is the painted one, which holds the
      toggled markers. */
  lemma PaintThenFind(events: seq<CalendarEvent>, dateStr: string, active: string, freshId: string)
    requires active != ERASER && Find(events, DateIs(dateStr)).None?
    ensures var p := Painted(events, dateStr, active, freshId).value;
            Filter(SavedEvents(events, p), DateIs(dateStr)) == [p] && p.shiftTypeIds == [active]
  {
    var p := Painted(events, dateStr, active, freshId).value;
    SaveLeavesOnlyNew(events, p);
  }

  /** The dialog EDITAR opens on a day: its event, or a blank new one. */
  function EditTarget(events: seq<CalendarEvent>, dateStr: string, freshId: string): (r: CalendarEvent)
    ensures r.date == dateStr
  {
    var existing := Find(events, DateIs(dateStr));
    if existing.Some? then
      var i :| 0 <= i < |events| && events[i] == existing.value && DateIs(dateStr)(events[i]);
      existing.value
    else CalendarEvent(freshId, dateStr, [], "", map[])
  }

  // ---------------------------------------------------------------------
  // Override resolution

  function ShiftIdIs(id: string): ShiftType -> bool { (s: ShiftType) => s.id == id }

  /** The object spread `{ ...base, ...override }`: each field the override
      holds replaces the base's, everything else is the base's. */
  function Merge(base: ShiftType, o: Override): (r: ShiftType)
    ensures r.id == base.id && r.name == base.name && r.fontSize == base.fontSize
    ensures r.startTime == base.startTime && r.endTime == base.endTime && r.showTime == base.showTime
    ensures r.labelText == if o.labelText.Some? then o.labelText.value else base.labelText
    ensures r.color == if o.color.Some? then o.color.value else base.color
    ensures r.textColor == if o.textColor.Some? then o.textColor.value else base.textColor
  {
    base.(labelText := o.labelText.GetOr(base.labelText),
          color := o.color.GetOr(base.color),
          textColor := o.textColor.GetOr(base.textColor))
  }

  /** getShiftWithOverrides: the registered type, with the day's override for
      it merged in; None when the id is not registered. */
  function Resolve(types: seq<ShiftType>, id: string, event: Option<CalendarEvent>): (r: Option<ShiftType>)
    ensures r.None? <==> forall i :: 0 <= i < |types| ==> types[i].id != id
    ensures r.Some? ==> r.value.id == id
  {
    var base := Find(types, ShiftIdIs(id));
    if base.None? then None
    else
      assert base.value.id == id by {
        var i :| 0 <= i < |types| && types[i] == base.value && ShiftIdIs(id)(types[i]);
      }
      if event.Some? && id in event.value.overrides then Some(Merge(base.value, event.value.overrides[id]))
      else Some(base.value)
  }

  /** The markers a day shows: its ids resolved in order, dangling ids
      dropped (`map(getShiftWithOverrides).filter(Boolean)`). */
  function ResolveIds(types: seq<ShiftType>, event: CalendarEvent, ids: seq<string>): (r: seq<ShiftType>)
    ensures |r| <= |ids|
  {
    if ids == [] then []
    else
      var head := Resolve(types, ids[0], Some(event));
      (if head.Some? then [head.value] else []) + ResolveIds(types, event, ids[1..])
  }

  function ShownMarkers(types: seq<ShiftType>, event: CalendarEvent): seq<ShiftType>
  {
    ResolveIds(types, event, event.shiftTypeIds)
  }

  predicate Registered(types: seq<ShiftType>, id: string)
  {
    exists i :: 0 <= i < |types| && types[i].id == id
  }

  function IsRegistered(types: seq<ShiftType>): string -> bool { (id: string) => Registered(types, id) }

  function ResolveKnown(types: seq<ShiftType>, event: CalendarEvent): string -> ShiftType
  {
    (id: string) => var r := Resolve(types, id, Some(event)); if r.Some? then r.value else DEFAULT_SHIFT_TYPES[0]
  }

  /** The shown markers are exactly the registered ids, in order, each
      resolved with the day's override. */
  lemma {:induction false} ShownAreRegistered(types: seq<ShiftType>, event: CalendarEvent, ids: seq<string>)
    ensures ResolveIds(types, event, ids) == Map(Filter(ids, IsRegistered(types)), ResolveKnown(types, event))
  {
    if ids != [] {
      ShownAreRegistered(types, event, ids[1..]);
      var rest := Filter(ids[1..], IsRegistered(types));
      var f := ResolveKnown(types, event);
      if Registered(types, ids[0]) {
        assert Map([ids[0]] + rest, f) == [f(ids[0])] + Map(rest, f) by {
          assert ([ids[0]] + rest)[1..] == rest;
        }
      }
    }
  }

  /** When every id is registered, each day's marker is shown. */
  lemma ShownAllWhenRegistered(types: seq<ShiftType>, event: CalendarEvent)
    requires forall i :: 0 <= i < |event.shiftTypeIds| ==> Registered(types, event.shiftTypeIds[i])
    ensures |ShownMarkers(types, event)| == |event.shiftTypeIds|
    ensures forall i :: 0 <= i < |event.shiftTypeIds| ==>
              ShownMarkers(types, event)[i].id == event.shiftTypeIds[i]
  {
    ShownAreRegistered(types, event, event.shiftTypeIds);
    FilterKeepsAll(event.shiftTypeIds, IsRegistered(types));
  }

  // ---------------------------------------------------------------------
  // Override editing

  datatype Field = LabelField | ColorField | TextColorField

  function SetField(o: Override, field: Field, value: string): Override
  {
    match field
    case LabelField => o.(labelText := Some(value))
    case ColorField => o.(color := Some(value))
    case TextColorField => o.(textColor := Some(value))
  }

  function FieldOf(s: ShiftType, field: Field): string
  {
    match field
    case LabelField => s.labelText
    case ColorField => s.color
    case TextColorField => s.textColor
  }

  /** updateOverride on an event: sets one field of one marker's override,
      upper-casing labels. */
  function WithOverride(e: CalendarEvent, shiftId: string, field: Field, value: string): (r: CalendarEvent)
    ensures r.id == e.id && r.date == e.date && r.shiftTypeIds == e.shiftTypeIds && r.observation == e.observation
    ensures r.overrides.Keys == e.overrides.Keys + {shiftId}
    ensures forall k :: k in e.overrides && k != shiftId ==> r.overrides[k] == e.overrides[k]
  {
    var current := if shiftId in e.overrides then e.overrides[shiftId] else NoOverride;
    var v := if field == LabelField then ToUpper(value) else value;
    e.(overrides := e.overrides[shiftId := SetField(current, field, v)])
  }

  /** The edited field takes the new value; the marker's other two fields
      are left as they were. */
  lemma OverrideSetsOneField(e: CalendarEvent, shiftId: string, field: Field, value: string)
    ensures var o := WithOverride(e, shiftId, field, value).overrides[shiftId];
            var old_ := if shiftId in e.overrides then e.overrides[shiftId] else NoOverride;
            (field == LabelField ==> o == old_.(labelText := Some(ToUpper(value)))) &&
            (field == ColorField ==> o == old_.(color := Some(value))) &&
            (field == TextColorField ==> o == old_.(textColor := Some(value)))
  {
  }

  /** After an edit, the marker shows the edited field (when registered). */
  lemma OverrideIsShown(types: seq<ShiftType>, e: CalendarEvent, shiftId: string, field: Field, value: string)
    requires Registered(types, shiftId)
    ensures var r := Resolve(types, shiftId, Some(WithOverride(e, shiftId, field, value)));
            r.Some? && FieldOf(r.value, field) == if field == LabelField then ToUpper(value) else value
  {
  }

  // ---------------------------------------------------------------------
  // Favourite colours

  const INITIAL_BG_COLORS: seq<string> :=
    ["#22C55E", "#15803D", "#059669", "#0EA5E9", "#0369A1", "#1E40AF", "#E6007E", "#003366", "#F97316"]
  const INITIAL_TEXT_COLORS: seq<string> := ["#000000", "#1E293B", "#475569", "#94A3B8", "#CBD5E1", "#FFFFFF"]

  /** The longest a favourite list gets. */
  const MAX_FAVORITES: nat := 20

  function UpperIsNot(n: string): string -> bool { (c: string) => ToUpper(c) != n }

  function Take<T>(s: seq<T>, n: nat): (r: seq<T>)
    ensures |r| == if |s| <= n then |s| else n
    ensures r == s[..|r|]
  {
    if |s| <= n then s else s[..n]
  }

  /** pushToFavorites: the colour, upper-cased, moves to the front; other
      copies of it in any case go; the list is cut to twenty. */
  function Favorites(prev: seq<string>, color: string): seq<string>
  {
    var normalized := ToUpper(color);
    Take([normalized] + Filter(prev, UpperIsNot(normalized)), MAX_FAVORITES)
  }

  /** The list starts with the colour, holds no other copy of it, keeps the
      rest in order and has at most twenty entries. */
  lemma FavoritesShape(prev: seq<string>, color: string)
    ensures var r := Favorites(prev, color);
            var rest := Filter(prev, UpperIsNot(ToUpper(color)));
            1 <= |r| <= MAX_FAVORITES && r[0] == ToUpper(color) &&
            (forall j :: 1 <= j < |r| ==> ToUpper(r[j]) != ToUpper(color)) &&
            r[1..] == rest[..|r| - 1]
  {
    var n := ToUpper(color);
    var rest := Filter(prev, UpperIsNot(n));
    var full := [n] + rest;
    var r := Favorites(prev, color);
    forall j | 1 <= j < |r| ensures ToUpper(r[j]) != n {
      assert r[j] == full[j] == rest[j - 1];
      assert UpperIsNot(n)(rest[j - 1]);
    }
    assert r[1..] == full[1..|r|];
  }

  /** Picking the same colour twice is picking it once. */
  lemma FavoritesIdempotent(prev: seq<string>, color: string)
    ensures Favorites(Favorites(prev, color), color) == Favorites(prev, color)
  {
    var n := ToUpper(color);
    var r := Favorites(prev, color);
    FavoritesShape(prev, color);
    ToUpperIdempotent(color);
    assert r == [r[0]] + r[1..];
    FilterAppend([r[0]], r[1..], UpperIsNot(n));
    assert Filter([r[0]], UpperIsNot(n)) == [] by { assert [r[0]][1..] == []; }
    FilterKeepsAll(r[1..], UpperIsNot(n));
    assert Filter(r, UpperIsNot(n)) == r[1..];
  }

  // ---------------------------------------------------------------------
  // The shift-type editor

  /** The editor's draft of a shift type (`Partial<ShiftType>`). */
  datatype ShiftConfig = ShiftConfig(
    labelText: Option<string>,
    color: Option<string>,
    textColor: Option<string>,
    fontSize: Option<int>)

  /** `x || fallback` for an optional string: missing and "" fall back. */
  function OrElse(x: Option<string>, fallback: string): (r: string)
    ensures x.Some? && x.value != "" ==> r == x.value
    ensures x.None? || x.value == "" ==> r == fallback
  {
    if x.Some? && x.value != "" then x.value else fallback
  }

  /** handleSaveShiftConfig: the shift type the editor hands to the registry.
      `editingId` is the type being edited, if any; `freshId` stands for
      `crypto.randomUUID()`. */
  function ShiftFromConfig(config: ShiftConfig, editingId: Option<string>, freshId: string): (r: ShiftType)
    ensures r.startTime.None? && r.endTime.None? && r.showTime == Some(false)
  {
    ShiftType(
      OrElse(editingId, freshId),
      ToUpper(OrElse(config.labelText, "TURNO")),
      ToUpper(OrElse(config.labelText, "NOVO")),
      OrElse(config.color, "#059669"),
      OrElse(config.textColor, "#ffffff"),
      Some(if config.fontSize.Some? && config.fontSize.value != 0 then config.fontSize.value else 3),
      None, None, Some(false))
  }

  /** The saved type has an upper-case label and name (the same text unless
      the label was left empty), colours and a font size that are never
      empty or zero, and keeps the edited type's id. */
  lemma ShiftConfigShape(config: ShiftConfig, editingId: Option<string>, freshId: string)
    ensures var r := ShiftFromConfig(config, editingId, freshId);
            ToUpper(r.labelText) == r.labelText && ToUpper(r.name) == r.name &&
            (config.labelText.Some? && config.labelText.value != "" ==> r.name == r.labelText == ToUpper(config.labelText.value)) &&
            (config.labelText.None? || config.labelText.value == "" ==> r.name == "TURNO" && r.labelText == "NOVO") &&
            r.color != "" && r.textColor != "" && r.fontSize.Some? && r.fontSize.value != 0 &&
            (editingId.Some? && editingId.value != "" ==> r.id == editingId.value)
  {
    var r := ShiftFromConfig(config, editingId, freshId);
    ToUpperIdempotent(OrElse(config.labelText, "TURNO"));
    ToUpperIdempotent(OrElse(config.labelText, "NOVO"));
    assert ToUpper("TURNO") == "TURNO";
    assert ToUpper("NOVO") == "NOVO";
  }

  /** visibleShiftTypes: every type but the reserved duty marker, in order. */
  function VisibleShiftTypes(types: seq<ShiftType>): (r: seq<ShiftType>)
    ensures forall i :: 0 <= i < |r| ==> r[i].id != EXTRA_AC4 && r[i] in types
    ensures forall i :: 0 <= i < |types| && types[i].id != EXTRA_AC4 ==> types[i] in r
  {
    Filter(types, ShiftIdIsNot(EXTRA_AC4))
  }

  /** The default registry shows only the ordinary shift. */
  lemma DefaultVisible()
    ensures VisibleShiftTypes(DEFAULT_SHIFT_TYPES) == [DEFAULT_SHIFT_TYPES[0]]
  {
    var d := DEFAULT_SHIFT_TYPES;
    var p := ShiftIdIsNot(EXTRA_AC4);
    assert p(d[0]) && !p(d[1]);
    assert d[1..][1..] == [];
    assert Filter(d[1..][1..], p) == [];
    assert Filter(d[1..], p) == [];
    assert Filter(d, p) == [d[0]] + Filter(d[1..], p);
  }

  // ---------------------------------------------------------------------
  // Holidays

  /** The "MM-DD" key of a date. */
  function MonthDay(d: Date): string
    requires Valid(d)
  {
    Pad(d.month, 2) + "-" + Pad(d.day, 2)
  }

  /** `HOLIDAYS[dateStr] || HOLIDAYS[mmdd]`. */
  function HolidayName(dateStr: string, mmdd: string): Option<string>
  {
    if dateStr in HOLIDAYS && HOLIDAYS[dateStr] != "" then Some(HOLIDAYS[dateStr])
    else if mmdd in HOLIDAYS && HOLIDAYS[mmdd] != "" then Some(HOLIDAYS[mmdd])
    else None
  }

  lemma HolidayKeysAreMonthDays()
    ensures forall k :: k in HOLIDAYS ==> |k| == 5 && k[2] == '-' && HOLIDAYS[k] != ""
  {
  }

  /** The full-date look-up never hits (the keys are "MM-DD"), so a holiday
      recurs on its month and day every year. */
  lemma HolidayByMonthDay(dateStr: string, mmdd: string)
    requires |dateStr| == 10
    ensures HolidayName(dateStr, mmdd) == if mmdd in HOLIDAYS then Some(HOLIDAYS[mmdd]) else None
  {
    HolidayKeysAreMonthDays();
    assert dateStr !in HOLIDAYS;
  }

  /** Christmas, in any year. */
  lemma ChristmasEveryYear(dateStr: string, y: int)
    requires |dateStr| == 10
    ensures HolidayName(dateStr, MonthDay(Date(y, 12, 25))) == Some("Natal")
  {
    Pad2Digits(12);
    Pad2Digits(25);
    assert MonthDay(Date(y, 12, 25)) == "12-25";
    HolidayByMonthDay(dateStr, "12-25");
  }

  // ---------------------------------------------------------------------
  // The month grid

  /** One cell of the grid: a day number and the month it belongs to,
      relative to the shown one. */
  datatype DayCell = DayCell(day: int, currentMonth: bool, monthOffset: int)

  /** Days in the JavaScript month `month0` (0 = January) of `year`. */
  function MonthLength(year: int, month0: int): (n: int)
    requires 0 <= month0 < 12
    ensures 28 <= n <= 31
  {
    DaysInMonth(year, month0 + 1)
  }

  /** The last day of the month before, `new Date(year, month0, 0)`. */
  function PrevMonthLength(year: int, month0: int): (n: int)
    requires 0 <= month0 < 12
    ensures 28 <= n <= 31
  {
    if month0 == 0 then 31 else DaysInMonth(year, month0)
  }

  /** The Monday-first column of the 1st: Sunday is column 6. */
  function LeadingDays(year: int, month0: int): (n: int)
    requires 0 <= month0 < 12
    ensures 0 <= n < 7
  {
    var first := Weekday(Date(year, month0 + 1, 1));
    if first == 0 then 6 else first - 1
  }

  /** calendarGrid: the trailing days of the previous month, the month's
      days, then the next month's first days, 42 cells in all. */
  method CalendarGrid(year: int, month0: int) returns (days: seq<DayCell>)
    requires 0 <= month0 < 12
    ensures |days| == 42
    ensures var lead := LeadingDays(year, month0);
            forall i :: 0 <= i < lead ==>
              days[i] == DayCell(PrevMonthLength(year, month0) - (lead - 1 - i), false, -1)
    ensures var lead := LeadingDays(year, month0);
            forall i :: lead <= i < lead + MonthLength(year, month0) ==> days[i] == DayCell(i - lead + 1, true, 0)
    ensures var before := LeadingDays(year, month0) + MonthLength(year, month0);
            forall i :: before <= i < 42 ==> days[i] == DayCell(i - before + 1, false, 1)
  {
    days := [];
    var adjustedFirstDay := LeadingDays(year, month0);
    var daysInMonth := MonthLength(year, month0);
    var prevMonthLastDay := PrevMonthLength(year, month0);
    var i := adjustedFirstDay - 1;
    while i >= 0
      invariant -1 <= i < adjustedFirstDay
      invariant |days| == adjustedFirstDay - 1 - i
      invariant forall k :: 0 <= k < |days| ==>
                  days[k] == DayCell(prevMonthLastDay - (adjustedFirstDay - 1 - k), false, -1)
    {
      days := days + [DayCell(prevMonthLastDay - i, false, -1)];
      i := i - 1;
    }
    var d := 1;
    while d <= daysInMonth
      invariant 1 <= d <= daysInMonth + 1
      invariant |days| == adjustedFirstDay + d - 1
      invariant forall k :: 0 <= k < adjustedFirstDay ==>
                  days[k] == DayCell(prevMonthLastDay - (adjustedFirstDay - 1 - k), false, -1)
      invariant forall k :: adjustedFirstDay <= k < |days| ==> days[k] == DayCell(k - adjustedFirstDay + 1, true, 0)
    {
      days := days + [DayCell(d, true, 0)];
      d := d + 1;
    }
    var remaining := 42 - |days|;
    var before := |days|;
    var n := 1;
    while n <= remaining
      invariant 1 <= n <= remaining + 1
      invariant |days| == before + n - 1
      invariant forall k :: 0 <= k < adjustedFirstDay ==>
                  days[k] == DayCell(prevMonthLastDay - (adjustedFirstDay - 1 - k), false, -1)
      invariant forall k :: adjustedFirstDay <= k < before ==> days[k] == DayCell(k - adjustedFirstDay + 1, true, 0)
      invariant forall k :: before <= k < |days| ==> days[k] == DayCell(k - before + 1, false, 1)
    {
      days := days + [DayCell(n, false, 1)];
      n := n + 1;
    }
  }

  /** Under the Monday-first header S T Q Q S S D, the day `k` of the shown
      month sits in the column of its weekday. */
  lemma GridColumnIsWeekday(year: int, month0: int, k: int)
    requires 0 <= month0 < 12 && 1 <= k <= MonthLength(year, month0)
    ensures (LeadingDays(year, month0) + k - 1) % 7 == (Weekday(Date(year, month0 + 1, k)) + 6) % 7
  {
    var first := Weekday(Date(year, month0 + 1, 1));
    WeekdayInMonth(year, month0 + 1, k);
    ModShift(first + k - 1, 6);
    ModShift(first + 6, k - 1);
    if first == 0 {
      assert LeadingDays(year, month0) + k - 1 == first + 6 + (k - 1);
    } else {
      assert LeadingDays(year, month0) + k - 1 == first + 6 + (k - 1) - 7;
      ModShift(first + 6 + (k - 1) - 7, 7);
    }
  }

  // ---------------------------------------------------------------------
  // The component's own state

  class CalendarView {
    var favoriteBgColors: seq<string>
    var favoriteTextColors: seq<string>
    var editingEvent: Option<CalendarEvent>

    /** The favourite lists come from storage when saved, else the initial
        palettes; no event is being edited. */
    constructor (savedBg: Option<seq<string>>, savedText: Option<seq<string>>)
      ensures favoriteBgColors == savedBg.GetOr(INITIAL_BG_COLORS)
      ensures favoriteTextColors == savedText.GetOr(INITIAL_TEXT_COLORS)
      ensures editingEvent.None?
    {
      favoriteBgColors := savedBg.GetOr(INITIAL_BG_COLORS);
      favoriteTextColors := savedText.GetOr(INITIAL_TEXT_COLORS);
      editingEvent := None;
    }

    /** handleDayClick on the cell of `dateStr`. */
    method HandleDayClick(app: AppState, mode: Mode, dateStr: string, activeShiftId: string, freshId: string)
      modifies this, app
      ensures mode == Paint && Painted(old(app.calendarEvents), dateStr, activeShiftId, freshId).Some? ==>
                app.calendarEvents ==
                  SavedEvents(old(app.calendarEvents), Painted(old(app.calendarEvents), dateStr, activeShiftId, freshId).value)
      ensures mode != Paint || Painted(old(app.calendarEvents), dateStr, activeShiftId, freshId).None? ==>
                app.calendarEvents == old(app.calendarEvents)
      ensures mode == Edit ==> editingEvent == Some(EditTarget(old(app.calendarEvents), dateStr, freshId))
      ensures mode != Edit ==> editingEvent == old(editingEvent)
      ensures favoriteBgColors == old(favoriteBgColors) && favoriteTextColors == old(favoriteTextColors)
      ensures app.draftRecords == old(app.draftRecords) && app.monthlyRecords == old(app.monthlyRecords)
      ensures app.shiftTypes == old(app.shiftTypes)
    {
      var existing := Find(app.calendarEvents, DateIs(dateStr));
      if mode == Paint {
        if activeShiftId == ERASER {
          if existing.Some? {
            app.SaveCalendarEvent(existing.value.(shiftTypeIds := [], overrides := map[]));
          }
          return;
        }
        if existing.Some? {
          var newIds := existing.value.shiftTypeIds;
          if activeShiftId in newIds {
            newIds := Filter(newIds, IdIsNot(activeShiftId));
          } else {
            if |newIds| < 2 {
              newIds := newIds + [activeShiftId];
            } else {
              newIds := newIds[1 := activeShiftId];
            }
          }
          app.SaveCalendarEvent(existing.value.(shiftTypeIds := newIds));
        } else {
          app.SaveCalendarEvent(CalendarEvent(freshId, dateStr, [activeShiftId], "", map[]));
        }
      } else if mode == Edit {
        editingEvent := Some(EditTarget(app.calendarEvents, dateStr, freshId));
      }
    }

    /** updateOverride: edits the open event; nothing happens when no event
        is open. */
    method UpdateOverride(shiftId: string, field: Field, value: string)
      modifies this
      ensures old(editingEvent).None? ==> editingEvent.None?
      ensures old(editingEvent).Some? ==>
                editingEvent == Some(WithOverride(old(editingEvent).value, shiftId, field, value))
      ensures favoriteBgColors == old(favoriteBgColors) && favoriteTextColors == old(favoriteTextColors)
    {
      if editingEvent.None? {
        return;
      }
      var e := editingEvent.value;
      var currentOverrides := e.overrides;
      var shiftOverride := if shiftId in currentOverrides then currentOverrides[shiftId] else NoOverride;
      var v := if field == LabelField then ToUpper(value) else value;
      editingEvent := Some(e.(overrides := currentOverrides[shiftId := SetField(shiftOverride, field, v)]));
    }

    /** pushToFavorites on the background or the text list. */
    method PushToFavorites(color: string, isBackground: bool)
      modifies this
      ensures isBackground ==> favoriteBgColors == Favorites(old(favoriteBgColors), color) &&
                               favoriteTextColors == old(favoriteTextColors)
      ensures !isBackground ==> favoriteTextColors == Favorites(old(favoriteTextColors), color) &&
                                favoriteBgColors == old(favoriteBgColors)
      ensures |favoriteBgColors| <= MAX_FAVORITES || favoriteBgColors == old(favoriteBgColors)
      ensures editingEvent == old(editingEvent)
    {
      var normalized := ToUpper(color);
      if isBackground {
        var filtered := Filter(favoriteBgColors, UpperIsNot(normalized));
        favoriteBgColors := Take([normalized] + filtered, MAX_FAVORITES);
      } else {
        var filtered := Filter(favoriteTextColors, UpperIsNot(normalized));
        favoriteTextColors := Take([normalized] + filtered, MAX_FAVORITES);
      }
    }
  }
}
