/** The entities of the application (types.ts). Money is held in integer
    cents; an optional field of types.ts is an Option here. */
module Types {
  import opened Seqs

  /** A computed duty entry. `value` is captured once, in cents, and
      `weekday` and `endHour` are stored, not derived at read time. */
  datatype WorkRecord = WorkRecord(
    id: string,
    date: string,
    startHour: string,
    endHour: string,
    duration: int,
    value: int,
    weekday: string,
    raiNumber: Option<string>)

  /** A globally styled shift marker. `labelText` is types.ts's `label`
      (a reserved word in Dafny). */
  datatype ShiftType = ShiftType(
    id: string,
    name: string,
    labelText: string,
    color: string,
    textColor: string,
    fontSize: Option<int>,
    startTime: Option<string>,
    endTime: Option<string>,
    showTime: Option<bool>)

  /** The per-day override of one marker: each field is present or absent. */
  datatype Override = Override(labelText: Option<string>, color: Option<string>, textColor: Option<string>)

  const NoOverride := Override(None, None, None)

  /** At most one per date by convention. An absent `overrides` field and an
      empty object are both the empty map. */
  datatype CalendarEvent = CalendarEvent(
    id: string,
    date: string,
    shiftTypeIds: seq<string>,
    observation: string,
    overrides: map<string, Override>)
}
