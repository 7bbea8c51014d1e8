/** App.tsx: the four collections the application keeps (draft records,
    monthly records, calendar events, shift types), the handlers that replace
    them, and the upgrade applied to saved data when it is loaded. */
module App {
  import opened Seqs
  import opened Types
  import opened Constants
  import opened Markers

  // ---------------------------------------------------------------------
  // The filter and map bodies of the handlers

  function DateIs(d: string): CalendarEvent -> bool { (e: CalendarEvent) => e.date == d }
  function DateIsNot(d: string): CalendarEvent -> bool { (e: CalendarEvent) => e.date != d }
  function EventIdIsNot(id: string): CalendarEvent -> bool { (e: CalendarEvent) => e.id != id }
  function EventDate(e: CalendarEvent): string { e.date }

  function ShiftIdIsNot(id: string): ShiftType -> bool { (s: ShiftType) => s.id != id }
  function ShiftId(s: ShiftType): string { s.id }
  function ReplaceShift(shift: ShiftType): ShiftType -> ShiftType { (s: ShiftType) => if s.id == shift.id then shift else s }

  function RecordIdIsNot(id: string): WorkRecord -> bool { (r: WorkRecord) => r.id != id }
  function ReplaceRecord(rec: WorkRecord): WorkRecord -> WorkRecord { (r: WorkRecord) => if r.id == rec.id then rec else r }
  function RecordValue(r: WorkRecord): int { r.value }

  predicate HasShift(types: seq<ShiftType>, id: string)
  {
    exists i :: 0 <= i < |types| && types[i].id == id
  }

  /** An event with no markers and no observation is not kept; `overrides`
      plays no part in the test. */
  predicate IsBlank(e: CalendarEvent)
  {
    e.shiftTypeIds == [] && e.observation == ""
  }

  // ---------------------------------------------------------------------
  // Calendar event store

  /** handleSaveCalendarEvent: every event of the same date goes, and the new
      one is appended unless it is blank. */
  function SavedEvents(events: seq<CalendarEvent>, e: CalendarEvent): seq<CalendarEvent>
  {
    var filtered := Filter(events, DateIsNot(e.date));
    if IsBlank(e) then filtered else filtered + [e]
  }

  /** handleDeleteCalendarEvent: removes by id. */
  function DeletedEvents(events: seq<CalendarEvent>, id: string): (r: seq<CalendarEvent>)
    ensures forall i :: 0 <= i < |r| ==> r[i].id != id
    ensures forall i :: 0 <= i < |events| && events[i].id != id ==> events[i] in r
  {
    Filter(events, EventIdIsNot(id))
  }

  lemma FilterSingle(e: CalendarEvent, p: CalendarEvent -> bool)
    ensures Filter([e], p) == if p(e) then [e] else []
  {
    assert [e][1..] == [];
  }

  /** After a save, the events of the saved date are the saved event alone,
      or none if it was blank. */
  lemma SaveLeavesOnlyNew(events: seq<CalendarEvent>, e: CalendarEvent)
    ensures Filter(SavedEvents(events, e), DateIs(e.date)) == if IsBlank(e) then [] else [e]
  {
    var filtered := Filter(events, DateIsNot(e.date));
    FilterDropsAll(filtered, DateIs(e.date));
    if !IsBlank(e) {
      FilterAppend(filtered, [e], DateIs(e.date));
      FilterSingle(e, DateIs(e.date));
    }
  }

  /** A save leaves the events of every other date as they were, in order. */
  lemma SaveKeepsOtherDates(events: seq<CalendarEvent>, e: CalendarEvent, d: string)
    requires d != e.date
    ensures Filter(SavedEvents(events, e), DateIs(d)) == Filter(events, DateIs(d))
  {
    var filtered := Filter(events, DateIsNot(e.date));
    FilterImplied(events, DateIsNot(e.date), DateIs(d));
    if !IsBlank(e) {
      FilterAppend(filtered, [e], DateIs(d));
      FilterSingle(e, DateIs(d));
    }
  }

  /** A save keeps the events of the other dates in their relative order and
      puts a non-blank event last. */
  lemma SaveKeepsOrder(events: seq<CalendarEvent>, e: CalendarEvent)
    ensures Filter(SavedEvents(events, e), DateIsNot(e.date)) == Filter(events, DateIsNot(e.date))
    ensures !IsBlank(e) ==> |SavedEvents(events, e)| > 0 && SavedEvents(events, e)[|SavedEvents(events, e)| - 1] == e
  {
    var filtered := Filter(events, DateIsNot(e.date));
    FilterIdempotent(events, DateIsNot(e.date));
    if !IsBlank(e) {
      FilterAppend(filtered, [e], DateIsNot(e.date));
      FilterSingle(e, DateIsNot(e.date));
    }
  }

  /** Saving the same event twice is saving it once. */
  lemma SaveIdempotent(events: seq<CalendarEvent>, e: CalendarEvent)
    ensures SavedEvents(SavedEvents(events, e), e) == SavedEvents(events, e)
  {
    var filtered := Filter(events, DateIsNot(e.date));
    FilterIdempotent(events, DateIsNot(e.date));
    if !IsBlank(e) {
      FilterAppend(filtered, [e], DateIsNot(e.date));
      FilterSingle(e, DateIsNot(e.date));
    }
  }

  /** A save keeps the calendar at one event per date. */
  lemma SaveKeepsOnePerDate(events: seq<CalendarEvent>, e: CalendarEvent)
    requires DistinctBy(events, EventDate)
    ensures DistinctBy(SavedEvents(events, e), EventDate)
  {
    var filtered := Filter(events, DateIsNot(e.date));
    FilterDistinctBy(events, DateIsNot(e.date), EventDate);
    if !IsBlank(e) {
      var r := filtered + [e];
      forall i, j | 0 <= i < j < |r| ensures EventDate(r[i]) != EventDate(r[j]) {
        if j == |filtered| {
          assert DateIsNot(e.date)(filtered[i]);
        }
      }
    }
  }

  // ---------------------------------------------------------------------
  // Shift-type registry

  /** handleAddShiftType: replaces the type with the same id, or appends. */
  function UpsertedShifts(types: seq<ShiftType>, shift: ShiftType): seq<ShiftType>
  {
    if HasShift(types, shift.id) then Map(types, ReplaceShift(shift)) else types + [shift]
  }

  /** handleDeleteShiftType: removes by id. */
  function DeletedShifts(types: seq<ShiftType>, id: string): seq<ShiftType>
  {
    Filter(types, ShiftIdIsNot(id))
  }

  /** An upsert of a known id replaces it in place; of a new id appends it.
      Either way the type is registered afterwards. */
  lemma UpsertShape(types: seq<ShiftType>, shift: ShiftType)
    ensures var r := UpsertedShifts(types, shift);
            HasShift(r, shift.id) &&
            (HasShift(types, shift.id) ==>
               |r| == |types| && forall i :: 0 <= i < |types| ==> r[i] == if types[i].id == shift.id then shift else types[i]) &&
            (!HasShift(types, shift.id) ==> r == types + [shift])
  {
    var r := UpsertedShifts(types, shift);
    if HasShift(types, shift.id) {
      var i :| 0 <= i < |types| && types[i].id == shift.id;
      assert r[i] == shift;
    } else {
      assert r[|types|] == shift;
    }
  }

  /** Upserting and deleting keep shift-type ids distinct. */
  lemma RegistryKeepsIdsDistinct(types: seq<ShiftType>, shift: ShiftType, id: string)
    requires DistinctBy(types, ShiftId)
    ensures DistinctBy(UpsertedShifts(types, shift), ShiftId)
    ensures DistinctBy(DeletedShifts(types, id), ShiftId)
  {
    FilterDistinctBy(types, ShiftIdIsNot(id), ShiftId);
    var r := UpsertedShifts(types, shift);
    if HasShift(types, shift.id) {
      assert forall i :: 0 <= i < |r| ==> ShiftId(r[i]) == ShiftId(types[i]);
    } else {
      forall i, j | 0 <= i < j < |r| ensures ShiftId(r[i]) != ShiftId(r[j]) {
        if j == |types| {
          assert r[i] == types[i];
        }
      }
    }
  }

  /** Deleting removes that id and only that id. */
  lemma DeleteShiftExactly(types: seq<ShiftType>, id: string)
    ensures !HasShift(DeletedShifts(types, id), id)
    ensures forall i :: 0 <= i < |types| && types[i].id != id ==> types[i] in DeletedShifts(types, id)
  {
  }

  // ---------------------------------------------------------------------
  // Work-record ledger

  /** handleUpdateMonthlyRecord: replaces the records with the same id. */
  function UpdatedRecords(records: seq<WorkRecord>, rec: WorkRecord): (r: seq<WorkRecord>)
    ensures |r| == |records|
    ensures forall i :: 0 <= i < |records| && records[i].id != rec.id ==> r[i] == records[i]
    ensures forall i :: 0 <= i < |records| && records[i].id == rec.id ==> r[i] == rec
  {
    Map(records, ReplaceRecord(rec))
  }

  /** onRemoveRecord and onDeleteRecord: remove by id. */
  function RemovedRecords(records: seq<WorkRecord>, id: string): (r: seq<WorkRecord>)
    ensures forall i :: 0 <= i < |r| ==> r[i].id != id
    ensures forall i :: 0 <= i < |records| && records[i].id != id ==> records[i] in r
  {
    Filter(records, RecordIdIsNot(id))
  }

  /** Posting conserves the money: the new monthly total is the old one plus
      the drafts'. */
  lemma PostConservesValue(monthly: seq<WorkRecord>, drafts: seq<WorkRecord>)
    ensures SumOf(monthly + drafts, RecordValue) == SumOf(monthly, RecordValue) + SumOf(drafts, RecordValue)
  {
    SumOfAppend(monthly, drafts, RecordValue);
  }

  // ---------------------------------------------------------------------
  // Stamping the duty marker

  /** The marker ids of a day after the duty stamp: kept when the marker is
      there, otherwise placed under the two-slot rule. */
  function StampedIds(ids: seq<string>): (r: seq<string>)
    ensures EXTRA_AC4 in r
  {
    if EXTRA_AC4 in ids then ids else PlaceCapped(ids, EXTRA_AC4)
  }

  /** The event onAddRecord saves for `date`: the existing event's id (unless
      empty) and observation, the stamped ids, and no overrides. */
  function StampedEvent(events: seq<CalendarEvent>, date: string, freshId: string): CalendarEvent
  {
    var existing := Find(events, DateIs(date));
    var ids := if existing.Some? then existing.value.shiftTypeIds else [];
    CalendarEvent(
      if existing.Some? && existing.value.id != "" then existing.value.id else freshId,
      date,
      StampedIds(ids),
      if existing.Some? then existing.value.observation else "",
      map[])
  }

  /** What the stamp keeps and what it changes. */
  lemma StampShape(events: seq<CalendarEvent>, date: string, freshId: string)
    ensures var s := StampedEvent(events, date, freshId);
            var existing := Find(events, DateIs(date));
            s.date == date && EXTRA_AC4 in s.shiftTypeIds && s.overrides == map[] &&
            (existing.None? ==> s.shiftTypeIds == [EXTRA_AC4] && s.observation == "" && s.id == freshId) &&
            (existing.Some? ==>
               var old_ := existing.value;
               s.observation == old_.observation &&
               (old_.id != "" ==> s.id == old_.id) &&
               (EXTRA_AC4 in old_.shiftTypeIds ==> s.shiftTypeIds == old_.shiftTypeIds) &&
               (EXTRA_AC4 !in old_.shiftTypeIds && |old_.shiftTypeIds| >= 2 ==>
                  s.shiftTypeIds == old_.shiftTypeIds[1 := EXTRA_AC4]))
  {
  }

  /** After a record is added, the calendar holds one event for its date and
      that event carries the duty marker. */
  lemma AddRecordStampsDay(events: seq<CalendarEvent>, date: string, freshId: string)
    ensures var after := SavedEvents(events, StampedEvent(events, date, freshId));
            Filter(after, DateIs(date)) == [StampedEvent(events, date, freshId)] &&
            Find(after, DateIs(date)) == Some(StampedEvent(events, date, freshId)) &&
            EXTRA_AC4 in Find(after, DateIs(date)).value.shiftTypeIds
  {
    var s := StampedEvent(events, date, freshId);
    var filtered := Filter(events, DateIsNot(date));
    SaveLeavesOnlyNew(events, s);
    FindLast(filtered, s, DateIs(date));
  }

  // ---------------------------------------------------------------------
  // Loading saved data

  /** A saved collection: missing (or empty text), unreadable, or read. */
  datatype Saved<T> = Absent | Malformed | Parsed(value: T)

  /** A calendar event as older versions saved it: one marker id in
      `shiftTypeId`, or a list in `shiftTypeIds`, either possibly missing. */
  datatype StoredEvent = StoredEvent(
    id: string,
    date: string,
    shiftTypeId: Option<string>,
    shiftTypeIds: Option<seq<string>>,
    observation: string,
    overrides: map<string, Override>)

  /** A legacy single marker becomes a one-element list. */
  function MigrateEvent(e: StoredEvent): (r: CalendarEvent)
    ensures r.id == e.id && r.date == e.date && r.observation == e.observation && r.overrides == e.overrides
    ensures e.shiftTypeIds.Some? ==> r.shiftTypeIds == e.shiftTypeIds.value
    ensures e.shiftTypeIds.None? && e.shiftTypeId.Some? && e.shiftTypeId.value != "" ==>
              r.shiftTypeIds == [e.shiftTypeId.value]
  {
    var ids :=
      if e.shiftTypeId.Some? && e.shiftTypeId.value != "" && e.shiftTypeIds.None? then [e.shiftTypeId.value]
      else e.shiftTypeIds.GetOr([]);
    CalendarEvent(e.id, e.date, ids, e.observation, e.overrides)
  }

  function LoadedRecords(saved: Saved<seq<WorkRecord>>): seq<WorkRecord>
  {
    if saved.Parsed? then saved.value else []
  }

  function LoadedEvents(saved: Saved<seq<StoredEvent>>): (r: seq<CalendarEvent>)
    ensures saved.Parsed? ==> |r| == |saved.value| && forall i :: 0 <= i < |r| ==> r[i] == MigrateEvent(saved.value[i])
    ensures !saved.Parsed? ==> r == []
  {
    if saved.Parsed? then Map(saved.value, MigrateEvent) else []
  }

  /** The default `extra_ac4` shift type. */
  function DefaultExtra(): (s: ShiftType)
    ensures s.id == EXTRA_AC4 && s in DEFAULT_SHIFT_TYPES
  {
    DEFAULT_SHIFT_TYPES[1]
  }

  /** Missing or unreadable shift types give the defaults; read ones get the
      default `extra_ac4` appended when they lack it. */
  function LoadedShifts(saved: Saved<seq<ShiftType>>): seq<ShiftType>
  {
    match saved
    case Parsed(types) => if HasShift(types, EXTRA_AC4) then types else types + [DefaultExtra()]
    case _ => DEFAULT_SHIFT_TYPES
  }

  /** Loading never loses the reserved marker, and keeps what was read. */
  lemma LoadedShiftsHaveExtra(saved: Saved<seq<ShiftType>>)
    ensures HasShift(LoadedShifts(saved), EXTRA_AC4)
    ensures saved.Parsed? ==> LoadedShifts(saved)[..|saved.value|] == saved.value
    ensures !saved.Parsed? ==> LoadedShifts(saved) == DEFAULT_SHIFT_TYPES
  {
    DefaultShiftTypes();
    if saved.Parsed? && !HasShift(saved.value, EXTRA_AC4) {
      var r := LoadedShifts(saved);
      assert r[|saved.value|] == DefaultExtra();
    }
  }

  // ---------------------------------------------------------------------
  // The application state

  class AppState {
    var draftRecords: seq<WorkRecord>
    var monthlyRecords: seq<WorkRecord>
    var calendarEvents: seq<CalendarEvent>
    var shiftTypes: seq<ShiftType>

    /** The first render's load of the four saved collections. */
    constructor Load(savedMonthly: Saved<seq<WorkRecord>>, savedDrafts: Saved<seq<WorkRecord>>,
                     savedEvents: Saved<seq<StoredEvent>>, savedShifts: Saved<seq<ShiftType>>)
      ensures monthlyRecords == LoadedRecords(savedMonthly)
      ensures draftRecords == LoadedRecords(savedDrafts)
      ensures calendarEvents == LoadedEvents(savedEvents)
      ensures shiftTypes == LoadedShifts(savedShifts)
      ensures HasShift(shiftTypes, EXTRA_AC4)
    {
      monthlyRecords := LoadedRecords(savedMonthly);
      draftRecords := LoadedRecords(savedDrafts);
      calendarEvents := LoadedEvents(savedEvents);
      shiftTypes := LoadedShifts(savedShifts);
      LoadedShiftsHaveExtra(savedShifts);
    }

    method SaveCalendarEvent(e: CalendarEvent)
      modifies this
      ensures calendarEvents == SavedEvents(old(calendarEvents), e)
      ensures draftRecords == old(draftRecords) && monthlyRecords == old(monthlyRecords)
      ensures shiftTypes == old(shiftTypes)
    {
      var filtered := Filter(calendarEvents, DateIsNot(e.date));
      if e.shiftTypeIds == [] && e.observation == "" {
        calendarEvents := filtered;
      } else {
        calendarEvents := filtered + [e];
      }
    }

    method DeleteCalendarEvent(id: string)
      modifies this
      ensures calendarEvents == DeletedEvents(old(calendarEvents), id)
      ensures draftRecords == old(draftRecords) && monthlyRecords == old(monthlyRecords)
      ensures shiftTypes == old(shiftTypes)
    {
      calendarEvents := Filter(calendarEvents, EventIdIsNot(id));
    }

    method AddShiftType(shift: ShiftType)
      modifies this
      ensures shiftTypes == UpsertedShifts(old(shiftTypes), shift)
      ensures HasShift(shiftTypes, shift.id)
      ensures draftRecords == old(draftRecords) && monthlyRecords == old(monthlyRecords)
      ensures calendarEvents == old(calendarEvents)
    {
      var exists_ := exists i :: 0 <= i < |shiftTypes| && shiftTypes[i].id == shift.id;
      if exists_ {
        shiftTypes := Map(shiftTypes, ReplaceShift(shift));
      } else {
        shiftTypes := shiftTypes + [shift];
      }
      UpsertShape(old(shiftTypes), shift);
    }

    /** Events that mention the deleted type keep the dangling id. */
    method DeleteShiftType(id: string)
      modifies this
      ensures shiftTypes == DeletedShifts(old(shiftTypes), id)
      ensures !HasShift(shiftTypes, id)
      ensures calendarEvents == old(calendarEvents)
      ensures draftRecords == old(draftRecords) && monthlyRecords == old(monthlyRecords)
    {
      shiftTypes := Filter(shiftTypes, ShiftIdIsNot(id));
    }

    method UpdateMonthlyRecord(rec: WorkRecord)
      modifies this
      ensures monthlyRecords == UpdatedRecords(old(monthlyRecords), rec)
      ensures draftRecords == old(draftRecords) && calendarEvents == old(calendarEvents)
      ensures shiftTypes == old(shiftTypes)
    {
      monthlyRecords := Map(monthlyRecords, ReplaceRecord(rec));
    }

    /** onAddRecord: appends the draft and stamps the duty marker on the
        calendar event of its date. `freshId` stands for `crypto.randomUUID()`. */
    method AddRecord(r: WorkRecord, freshId: string)
      modifies this
      ensures draftRecords == old(draftRecords) + [r]
      ensures calendarEvents == SavedEvents(old(calendarEvents), StampedEvent(old(calendarEvents), r.date, freshId))
      ensures Find(calendarEvents, DateIs(r.date)).Some? &&
              EXTRA_AC4 in Find(calendarEvents, DateIs(r.date)).value.shiftTypeIds
      ensures monthlyRecords == old(monthlyRecords) && shiftTypes == old(shiftTypes)
    {
      draftRecords := draftRecords + [r];
      var existing := Find(calendarEvents, DateIs(r.date));
      var currentIds := if existing.Some? then existing.value.shiftTypeIds else [];
      if EXTRA_AC4 !in currentIds {
        if |currentIds| >= 2 {
          currentIds := currentIds[1 := EXTRA_AC4];
        } else {
          currentIds := currentIds + [EXTRA_AC4];
        }
      }
      var extraEvent := CalendarEvent(
        if existing.Some? && existing.value.id != "" then existing.value.id else freshId,
        r.date,
        currentIds,
        if existing.Some? then existing.value.observation else "",
        map[]);
      AddRecordStampsDay(calendarEvents, r.date, freshId);
      SaveCalendarEvent(extraEvent);
    }

    method RemoveDraft(id: string)
      modifies this
      ensures draftRecords == RemovedRecords(old(draftRecords), id)
      ensures monthlyRecords == old(monthlyRecords) && calendarEvents == old(calendarEvents)
      ensures shiftTypes == old(shiftTypes)
    {
      draftRecords := Filter(draftRecords, RecordIdIsNot(id));
    }

    /** onPostToMonthly: every draft moves, in order, to the end of the
        monthly list. */
    method PostToMonthly()
      modifies this
      ensures monthlyRecords == old(monthlyRecords) + old(draftRecords)
      ensures draftRecords == []
      ensures SumOf(monthlyRecords, RecordValue) == SumOf(old(monthlyRecords), RecordValue) + SumOf(old(draftRecords), RecordValue)
      ensures calendarEvents == old(calendarEvents) && shiftTypes == old(shiftTypes)
    {
      PostConservesValue(monthlyRecords, draftRecords);
      monthlyRecords := monthlyRecords + draftRecords;
      draftRecords := [];
    }

    method DeleteMonthly(id: string)
      modifies this
      ensures monthlyRecords == RemovedRecords(old(monthlyRecords), id)
      ensures draftRecords == old(draftRecords) && calendarEvents == old(calendarEvents)
      ensures shiftTypes == old(shiftTypes)
    {
      monthlyRecords := Filter(monthlyRecords, RecordIdIsNot(id));
    }
  }
}
