# AC4 duty calculator: a verified model of its core

AC4 is the extra-duty pay scheme of a military police force. The app records
duty blocks and prices each one hour by hour. The price depends on two things:

- the *period*: night is 22:00-04:59, day is 05:00-21:59;
- the *scale* of the operational day: red on Friday, Saturday and Sunday,
  blue otherwise. Hours 00-04 belong to the night that began the day before.

Priced blocks go into a draft ledger. From there they are posted in bulk to a
monthly ledger, and the monthly report groups them by month. A duty calendar
sits beside the ledgers. It keeps at most one event per date, and each event
holds an ordered list of shift-marker ids and per-day overrides of a marker's
label and colours. Filing a block stamps the reserved `extra_ac4` marker on the
day's event.

This project models the non-UI logic of that app in Dafny and proves its
properties. The modules follow the app's files:

- `Utils` (utils.ts): the tariff engine `calculateAC4Value`, plus
  `calculateEndHour`, `generateHoursOptions` and `getWeekdayName`.
- `Constants` (constants.ts): the weekday and month tables, the default shift
  types, the AC4 rates and the holiday table.
- `App` (App.tsx): the application state, as class `AppState` with the four
  collections as fields and one method per handler; the load-time migration.
- `CalendarTab` (components/CalendarTab.tsx): painting and erasing days,
  marker resolution with overrides, the favourite colours, the shift editor,
  the 42-cell month grid and the holiday look-up. The component's own state
  is class `CalendarView`.
- `ColorPicker` (the colour picker in components/CalendarTab.tsx): `hexToRgb`,
  `rgbToHex` and `handleRgbChange`.
- `MonthlyReport` (components/MonthlyReportTab.tsx): the `monthlyData`
  grouping and its descending sort, the grand totals and `saveRai`.
- `CalculatorTab` (components/CalculatorTab.tsx): the form as class
  `CalculatorForm`, the `handleAdd` guard and record, the 0..24 stepper, the
  duration options and the draft total.
- Helper modules: `Civil` (civil-date arithmetic standing in for JavaScript
  `Date`: day numbers, weekdays, next and previous day, "YYYY-MM-DD"), `Text`
  (the JavaScript string built-ins the core uses: `toUpperCase`, `trim`,
  `split`, `padStart`, `String(n)`, `Number(s)`, `parseInt` and code-unit
  order), `Seqs` (filter, find, map, sums) and `Markers` (the two-slot marker
  placement shared by painting and stamping).

Money is counted in integer cents: 2647, 2980, 3641 and 4138 are 26.47, 29.80,
36.41 and 41.38. Each hour adds a whole number of cents, so the app's final
`Number(total.toFixed(2))` is exact in this model.

The model follows the code as written:

- An unreadable date or time gives a JavaScript Invalid Date. Every hour of
  such a block is then priced blue-day, because NaN is neither night nor red
  (`Utils.InvalidHourRate`, `Utils.InvalidStartTotal`).
- The RAI number can be edited in place only on the monthly ledger. The
  app's `onUpdateRecord` is wired to the monthly records alone.
- Painting with the eraser saves the event with no markers and no overrides.
  The save then removes the event when it has no observation
  (`CalendarTab.EraseBlankDay`).

## Model

| member | source | states |
|---|---|---|
| Utils.StartOf | utils.ts:52 | `new Date(date + 'T' + time)` gives a valid local time or an Invalid Date, never anything else |
| Utils.DayBefore | utils.ts:69-71 | `setDate(getDate() - 1)` keeps a clock well-formed |
| Utils.Tick | utils.ts:89 | `setHours(getHours() + 1)` rolls over midnight and keeps the clock well-formed |
| Utils.After | utils.ts:54-90 | the clock after k loop steps is well-formed |
| Utils.HourlyRates | utils.ts:54-90 | the itemized rates of an n-hour block: exactly n of them |
| Utils.TotalStep | utils.ts:88 | one more hour adds exactly that hour's rate to the total |
| Utils.CalculateAC4Value | utils.ts:49-93 | the loop's total is the sum of the block's hourly rates, each hour priced at the clock after i steps |
| Utils.HourRateIsRule | utils.ts:61-86 | a valid hour is priced AC4_RULES[scale][period]: period from the hour of day, scale from the operational weekday (the previous day for 00-04) |
| Utils.InvalidHourRate | utils.ts:55-86 | an Invalid Date hour is priced blue-day, since NaN is neither night nor red |
| Utils.RatesAreRules | utils.ts:79-86 | every hourly rate of a block is one of the four AC4 constants |
| Utils.TotalBounds | utils.ts:79-88 | a block's total lies between n blue-day hours and n red-night hours |
| Utils.InvalidStartTotal | utils.ts:52-88 | a block from an unreadable start costs exactly n blue-day hours |
| Utils.AfterInvalid | utils.ts:89 | stepping an Invalid Date leaves it invalid |
| Utils.AfterFromTen | utils.ts:89 | from 22:00, k < 7 steps reach 23:00 and then 00:00-04:00 of the next civil day |
| Utils.NightBlockUniform | utils.ts:63-74 | a night block started at 22:00 (up to 7 hours) is priced whole under the start day's scale, across midnight |
| Utils.RateAt | utils.ts:54-89 | the i-th itemized rate is the rate of the clock after i steps |
| Utils.UniformTotal | utils.ts:88 | a block whose hours all cost the same rate totals rate x n |
| Utils.StartOfLabels | utils.ts:52 | a date and hour written as the form writes them ("YYYY-MM-DD", "HH:00") start the engine at that date and hour |
| Utils.FridayNightExample | utils.ts:61-89 | Friday 22:00 for 7 hours totals 7 x 41.38 |
| Utils.FridayNightRates | utils.ts:66-82 | each of those 7 hours, before and after midnight, is red-night |
| Utils.ThursdayEveningExample | utils.ts:79-88 | Thursday 21:00 for 2 hours is 26.47 + 29.80 = 56.27 |
| Utils.MondayMidnightExample | utils.ts:66-82 | Monday 00:00 is priced as Sunday night, 41.38 |
| Utils.NumberOfPad | utils.ts:27 | `Number` reads a zero-padded two-digit field back as its value |
| Utils.PadOfString | utils.ts:29 | `String(n).padStart(2, '0')` is the two-digit text of n < 100 |
| Utils.EndHourOfTime | utils.ts:25-30 | for "HH:MM" the end time is ((HH + duration) mod 24):MM |
| Utils.ReadTimeFields | utils.ts:27 | calculateEndHour reads the hour and the minute of "HH:MM" back as numbers |
| Utils.EndTextOfTime | utils.ts:28-29 | the end text of hour h, minute m is the padded (h + duration) mod 24 and m |
| Utils.SplitTime | utils.ts:27 | "HH:MM" splits on ':' into its two padded fields |
| Utils.FullDayEndsAtStart | utils.ts:28 | a 24-hour block ends at the time it started |
| Utils.FullDayText | utils.ts:28-29 | the end text of a 24-hour block is its start time |
| Utils.HourLabelsAscending | utils.ts:34-36 | the "HH:00" options sort in the order of their hours |
| Utils.HourLabelParses | utils.ts:36 | each "HH:00" option is read by the engine as hour HH, minute 0 |
| Utils.GenerateHoursOptions | utils.ts:32-39 | 24 options, "00:00" to "23:00", strictly ascending, each read back as its hour |
| Utils.GetWeekdayName | utils.ts:13-17 | "" for no date, else the non-empty DAYS_OF_WEEK name of the date's weekday |
| Utils.MidnightParses | utils.ts:15 | the "T00:00:00" suffix parses as midnight |
| Utils.WeekdayNameMatchesEngine | utils.ts:15-16 | the stored weekday name is the weekday the tariff engine starts on |
| Civil.DaysInMonth | components/CalendarTab.tsx:237 | a month has 28 to 31 days |
| Civil.Weekday | utils.ts:56 | `getDay` is in 0..6 |
| Civil.NextDayNumber | utils.ts:89 | rolling over midnight moves to a valid date one day number later |
| Civil.PrevNextInverse | utils.ts:69-71 | the previous and the next day are valid dates and undo each other |
| Civil.WeekdayNext | utils.ts:89 | the weekday advances by one, modulo 7, at midnight |
| Civil.WeekdayPrev | utils.ts:69-71 | the previous day's weekday is one less, modulo 7 |
| Civil.WeekdayInMonth | components/CalendarTab.tsx:237-239 | within a month the weekday moves with the day of the month |
| Civil.FormatParseRoundTrip | components/CalendarTab.tsx:261-262 | a date written as "YYYY-MM-DD" reads back as the same date |
| Constants.NameTables | constants.ts:4-17 | seven weekday names from Sunday, twelve month names from January |
| Constants.DefaultShiftTypes | constants.ts:19-22 | the default shift types have distinct ids and include `extra_ac4` |
| Constants.AC4RulesOrdered | constants.ts:24-27 | red pays more than blue, and night more than day |
| Markers.PlaceCapped | App.tsx:117-124 | the placed id is present; below two ids it is appended, from two on it overwrites index 1; index 0 and every other index are kept |
| Markers.PlaceCappedKeeps | components/CalendarTab.tsx:275-276 | below two ids nothing is lost; from two on only the second is replaced; a day never grows past two |
| App.DeletedEvents | App.tsx:76-78 | no event with the id remains, and every other event does |
| App.SaveLeavesOnlyNew | App.tsx:68-74 | after a save the saved date holds the new event alone, or nothing when it is blank |
| App.SaveKeepsOtherDates | App.tsx:70-72 | a save leaves every other date's events as they were, in order |
| App.SaveKeepsOrder | App.tsx:68-74 | a save keeps the other dates' events in their relative order, and a non-blank saved event comes last |
| App.SaveIdempotent | App.tsx:68-74 | saving the same event twice is saving it once |
| App.SaveKeepsOnePerDate | App.tsx:68-74 | a save keeps the calendar at one event per date |
| App.UpsertShape | App.tsx:80-87 | a known id is replaced in place, a new id is appended, and the type is registered afterwards |
| App.RegistryKeepsIdsDistinct | App.tsx:80-95 | upsert and delete keep shift-type ids unique |
| App.DeleteShiftExactly | App.tsx:93-95 | deleting removes that id and keeps every other type |
| App.UpdatedRecords | App.tsx:98-101 | the record with the id is replaced, every other record and the length are kept |
| App.RemovedRecords | App.tsx:134 | no record with the id remains, and every other record does |
| App.PostConservesValue | App.tsx:137 | posting adds exactly the drafts' value to the monthly total |
| App.StampedIds | App.tsx:117-124 | the day's ids after the stamp contain `extra_ac4` |
| App.StampShape | App.tsx:116-130 | the stamped event keeps the existing event's id (unless empty) and observation, drops overrides, and holds `extra_ac4`; a new day gets [`extra_ac4`] |
| App.AddRecordStampsDay | App.tsx:114-131 | after filing, the record's date has exactly one event and it carries `extra_ac4` |
| App.MigrateEvent | App.tsx:33-38 | a legacy single `shiftTypeId` becomes a one-element list; a present `shiftTypeIds` and every other field are kept |
| App.LoadedEvents | App.tsx:30-41 | read events are migrated one by one, in order; missing or unreadable ones give no events |
| App.DefaultExtra | App.tsx:47 | the injected type is the default `extra_ac4` |
| App.LoadedShiftsHaveExtra | App.tsx:43-54 | loading always yields `extra_ac4`, keeps a read list as its prefix, and falls back to the defaults |
| App.AppState.Load | App.tsx:21-54 | the four collections are the loaded ones, and the registry holds `extra_ac4` |
| App.AppState.SaveCalendarEvent | App.tsx:68-74 | the events become the saved list; nothing else changes |
| App.AppState.DeleteCalendarEvent | App.tsx:76-78 | the events lose the id; nothing else changes |
| App.AppState.AddShiftType | App.tsx:80-91 | the registry is upserted and holds the type; nothing else changes |
| App.AppState.DeleteShiftType | App.tsx:93-96 | the registry loses the id; events keep their dangling ids |
| App.AppState.UpdateMonthlyRecord | App.tsx:98-101 | the monthly record with the id is replaced; nothing else changes |
| App.AppState.AddRecord | App.tsx:114-131 | the draft is appended and the day's event is stamped with `extra_ac4` |
| App.AppState.RemoveDraft | App.tsx:134 | the drafts lose the id; nothing else changes |
| App.AppState.PostToMonthly | App.tsx:137 | every draft moves, in order, to the end of the monthly list; drafts empty; the total is conserved |
| App.AppState.DeleteMonthly | App.tsx:143 | the monthly records lose the id; nothing else changes |
| CalendarTab.Toggled | components/CalendarTab.tsx:271-277 | a present marker is taken off (the list shrinks), an absent one is placed |
| CalendarTab.ToggleTwice | components/CalendarTab.tsx:270-278 | painting an absent marker twice on a day with fewer than two gives the day back |
| CalendarTab.ToggleOffKeepsOthers | components/CalendarTab.tsx:273 | taking a marker off keeps every other marker in order |
| CalendarTab.PaintShape | components/CalendarTab.tsx:265-281 | the eraser on an empty day saves nothing; otherwise the saved event has the date, keeps an existing event's id and observation, and its overrides unless erasing |
| CalendarTab.EraseBlankDay | components/CalendarTab.tsx:266-268 | erasing a day with no observation removes its event |
| CalendarTab.PaintThenFind | components/CalendarTab.tsx:279-281 | painting an empty day leaves one event there, holding just the active marker |
| CalendarTab.EditTarget | components/CalendarTab.tsx:283 | the dialog opens on an event of the clicked date |
| CalendarTab.Merge | components/CalendarTab.tsx:312 | each field the override holds replaces the base's; all other fields are the base's |
| CalendarTab.Resolve | components/CalendarTab.tsx:308-313 | None exactly when the id is not registered; else a type with that id |
| CalendarTab.ResolveIds | components/CalendarTab.tsx:437 | a day never shows more markers than it has ids |
| CalendarTab.ShownAreRegistered | components/CalendarTab.tsx:437 | the shown markers are exactly the registered ids, in order, each merged with its override; dangling ids are skipped |
| CalendarTab.ShownAllWhenRegistered | components/CalendarTab.tsx:437 | when every id is registered, each is shown, in order |
| CalendarTab.WithOverride | components/CalendarTab.tsx:315-323 | only the event's overrides change; the edited marker gains an entry; other markers' overrides are kept |
| CalendarTab.OverrideSetsOneField | components/CalendarTab.tsx:321 | the edited field takes the value (labels upper-cased); the marker's other two fields are kept |
| CalendarTab.OverrideIsShown | components/CalendarTab.tsx:308-323 | after an edit the registered marker shows the edited field |
| CalendarTab.Take | components/CalendarTab.tsx:225 | `slice(0, n)`: a prefix of length min(len, n) |
| CalendarTab.FavoritesShape | components/CalendarTab.tsx:220-227 | the list starts with the upper-cased colour, holds no other copy of it in any case, keeps the rest in order, and has at most 20 entries |
| CalendarTab.FavoritesIdempotent | components/CalendarTab.tsx:220-227 | picking the same colour twice is picking it once |
| CalendarTab.OrElse | components/CalendarTab.tsx:289-294 | `x \|\| fallback`: a missing or empty text falls back |
| CalendarTab.ShiftFromConfig | components/CalendarTab.tsx:287-300 | the saved type has no times and `showTime` false |
| CalendarTab.ShiftConfigShape | components/CalendarTab.tsx:288-296 | label and name are upper-case (the label text, or "TURNO"/"NOVO"); colours and font size are never empty or zero; an edited type keeps its id |
| CalendarTab.VisibleShiftTypes | components/CalendarTab.tsx:195 | every type but `extra_ac4`, and nothing else |
| CalendarTab.DefaultVisible | components/CalendarTab.tsx:195 | the default registry shows only the ordinary shift |
| CalendarTab.HolidayKeysAreMonthDays | constants.ts:45-63 | every holiday key is "MM-DD" with a non-empty name |
| CalendarTab.HolidayByMonthDay | components/CalendarTab.tsx:432-433 | the full-date look-up never hits, so holidays recur on month and day |
| CalendarTab.ChristmasEveryYear | components/CalendarTab.tsx:432-433 | 25 December is "Natal" in every year |
| CalendarTab.MonthLength | components/CalendarTab.tsx:237 | the shown month has 28 to 31 days |
| CalendarTab.PrevMonthLength | components/CalendarTab.tsx:246 | the previous month's last day is 28 to 31 |
| CalendarTab.LeadingDays | components/CalendarTab.tsx:238-239 | the Monday-first column of the 1st is in 0..6 |
| CalendarTab.CalendarGrid | components/CalendarTab.tsx:244-258 | 42 cells: the previous month's trailing days, then days 1..n of the month, then the next month's days from 1 |
| CalendarTab.GridColumnIsWeekday | components/CalendarTab.tsx:423-429 | under the S T Q Q S S D header, day k sits in the column of its weekday |
| CalendarTab.CalendarView.constructor | components/CalendarTab.tsx:170-181 | favourites come from storage or the initial palettes; no event is being edited |
| CalendarTab.CalendarView.HandleDayClick | components/CalendarTab.tsx:260-285 | in paint mode the painted event is saved (or nothing happens); in edit mode the dialog opens on the day's event or a blank one |
| CalendarTab.CalendarView.UpdateOverride | components/CalendarTab.tsx:315-323 | with an open event, its override is set; with none, nothing happens |
| CalendarTab.CalendarView.PushToFavorites | components/CalendarTab.tsx:220-227 | the chosen list becomes its favourites update; the other list is untouched |
| ColorPicker.Slice | components/CalendarTab.tsx:14-16 | `slice(from, to)` is at most to - from long |
| ColorPicker.Clamp | components/CalendarTab.tsx:27 | the value clamped to 0..255, unchanged inside the range |
| ColorPicker.ChannelDigits | components/CalendarTab.tsx:21 | a channel in 0..255 is written as its two lower-case hex digits |
| ColorPicker.ParseTwoDigits | components/CalendarTab.tsx:14-16 | two hex digits read back as 16 x hi + lo |
| ColorPicker.NegativeChannel | components/CalendarTab.tsx:21 | a channel in -15..-1 is written "-d" and reads back |
| ColorPicker.ChannelRoundTrip | components/CalendarTab.tsx:13-22 | every channel in -15..255 is written in two characters and reads back |
| ColorPicker.PositiveChannel | components/CalendarTab.tsx:21 | a channel in 0..255 is two characters and reads back |
| ColorPicker.RgbRoundTrip | components/CalendarTab.tsx:13-22 | hexToRgb undoes rgbToHex for every channel hexToRgb can produce |
| ColorPicker.HexFields | components/CalendarTab.tsx:13-17 | hexToRgb reads the three two-character fields after '#' |
| ColorPicker.HexShape | components/CalendarTab.tsx:20-22 | rgbToHex of 0..255 channels is '#' and six lower-case hex digits |
| ColorPicker.DigitsRead | components/CalendarTab.tsx:14 | the digits parseInt reads are hex digits from the unsigned text |
| ColorPicker.ParseHexSigned | components/CalendarTab.tsx:14-16 | parseInt(s, 16) is the signed value of the digits read, NaN when there are none |
| ColorPicker.ParseShortRange | components/CalendarTab.tsx:14-16 | a two-character field reads as a value in -15..255 |
| ColorPicker.HexToRgbRange | components/CalendarTab.tsx:13-18 | every channel hexToRgb returns lies in -15..255 |
| ColorPicker.RgbChangeSetsOneChannel | components/CalendarTab.tsx:26-29 | typing sets that channel to the clamped value and keeps the other two |
| ColorPicker.NonNumericIsZero | components/CalendarTab.tsx:27 | input that is not a number sets the channel to 0 |
| MonthlyReport.MonthNameOf | components/MonthlyReportTab.tsx:37 | a found month name is one of MONTH_NAMES |
| MonthlyReport.Keys | components/MonthlyReportTab.tsx:30-44 | the month keys, each once, are exactly the keys of the records |
| MonthlyReport.FilledAppend | components/MonthlyReportTab.tsx:46-49 | a group over items + [r] is the group over items with r added |
| MonthlyReport.GroupStep | components/MonthlyReportTab.tsx:30-50 | adding a record changes only the group of its own key |
| MonthlyReport.GroupStepOther | components/MonthlyReportTab.tsx:30-50 | another key's group is unchanged by a record |
| MonthlyReport.GroupStepExisting | components/MonthlyReportTab.tsx:46-49 | a record of a known key is added to its group |
| MonthlyReport.GroupStepNew | components/MonthlyReportTab.tsx:34-49 | a record of a new key opens its group, then is added to it |
| MonthlyReport.ItemsStep | components/MonthlyReportTab.tsx:49 | a record is pushed onto the items of its own key only |
| MonthlyReport.HeadStep | components/MonthlyReportTab.tsx:34-44 | a group's header comes from its key's first record |
| MonthlyReport.Insert | components/MonthlyReportTab.tsx:52 | insertion keeps the groups as a multiset plus the new one |
| MonthlyReport.SortDesc | components/MonthlyReportTab.tsx:52 | sorting is a permutation of the groups |
| MonthlyReport.InsertDescending | components/MonthlyReportTab.tsx:52 | insertion of a new key keeps the list strictly descending |
| MonthlyReport.SortDescDescending | components/MonthlyReportTab.tsx:52 | groups with distinct keys sort strictly descending by key |
| MonthlyReport.InsertSum | components/MonthlyReportTab.tsx:52 | insertion adds the new group to any sum over groups |
| MonthlyReport.SortDescSum | components/MonthlyReportTab.tsx:52 | sorting does not change a sum over groups |
| MonthlyReport.Dictionary | components/MonthlyReportTab.tsx:28-50 | the dictionary's keys are exactly the keys of the records seen |
| MonthlyReport.DictionaryStep | components/MonthlyReportTab.tsx:30-50 | one forEach step adds the record to its key's group, opening it when the key is new |
| MonthlyReport.DictionaryEntry | components/MonthlyReportTab.tsx:34-49 | the forEach step gives each key its group over the longer list |
| MonthlyReport.KeysStep | components/MonthlyReportTab.tsx:34-35 | a new key is appended to the key order, a known one changes nothing |
| MonthlyReport.FillStep | components/MonthlyReportTab.tsx:30-50 | the dictionary and key order after one more record |
| MonthlyReport.FillGroups | components/MonthlyReportTab.tsx:30-50 | the forEach builds the dictionary of every month's group and the order its keys arrive in |
| MonthlyReport.MonthlyData | components/MonthlyReportTab.tsx:27-53 | the memo is the dictionary's groups in insertion order, sorted newest month first |
| MonthlyReport.MonthlyDataDescending | components/MonthlyReportTab.tsx:52 | the report's months are distinct and strictly descending |
| MonthlyReport.GroupedHold | components/MonthlyReportTab.tsx:30-50 | each group holds exactly its key's records in order, at least one, with their count and sums, and takes its month name and year from its first record |
| MonthlyReport.SortedGroupsHold | components/MonthlyReportTab.tsx:52 | sorting keeps that for every group |
| MonthlyReport.MonthlyDataGroups | components/MonthlyReportTab.tsx:27-53 | every report group holds exactly its month's records in input order, at least one, with count, hours and value, and the month name and year of its first record |
| MonthlyReport.SortDescKeeps | components/MonthlyReportTab.tsx:52 | sorting loses no group |
| MonthlyReport.RecordsGrouped | components/MonthlyReportTab.tsx:30-50 | every record lies in a group of its key |
| MonthlyReport.RecordInItsGroup | components/MonthlyReportTab.tsx:30-50 | a record lies in the group of its own key |
| MonthlyReport.GroupsHaveOneKey | components/MonthlyReportTab.tsx:30-50 | every record of a group has the group's key |
| MonthlyReport.EveryRecordGrouped | components/MonthlyReportTab.tsx:27-53 | every record is in the group of its month, and every group's records have its month |
| MonthlyReport.SplitDate | components/MonthlyReportTab.tsx:31 | a "YYYY-MM-DD" date splits on '-' into year and month first |
| MonthlyReport.MonthKeyOfDate | components/MonthlyReportTab.tsx:31-32 | the month key of a date is its "YYYY-MM" prefix |
| MonthlyReport.MonthDigits | components/MonthlyReportTab.tsx:37 | parseInt of the month field is the month number |
| MonthlyReport.MonthNameOfDate | components/MonthlyReportTab.tsx:31-38 | the month name of a valid date is MONTH_NAMES[month - 1] |
| MonthlyReport.YearOfDate | components/MonthlyReportTab.tsx:31-39 | the year of a valid date is its first four characters |
| MonthlyReport.GroupNamedByMonth | components/MonthlyReportTab.tsx:34-39 | a group over valid dates is named after its first record's month in the table and carries that record's four-digit year |
| MonthlyReport.GroupMonthNames | components/MonthlyReportTab.tsx:30-52 | when every date is valid, every report group is named MONTH_NAMES[month - 1] of its first record and carries its year |
| MonthlyReport.KeyedSumStep | components/MonthlyReportTab.tsx:46-47 | a record adds to the per-key sums only under its own key |
| MonthlyReport.KeyedSumAppend | components/MonthlyReportTab.tsx:46-47 | one more key adds its records' sum |
| MonthlyReport.KeyedSumAll | components/MonthlyReportTab.tsx:46-48 | summing key by key is summing over all records |
| MonthlyReport.NewKeySum | components/MonthlyReportTab.tsx:34-47 | the records of a key first seen at r are r alone |
| MonthlyReport.GroupedSum | components/MonthlyReportTab.tsx:46-48 | summing over each group's items is the per-key sum |
| MonthlyReport.SumOfOnes | components/MonthlyReportTab.tsx:48 | counting by ones gives the number of records |
| MonthlyReport.GrandTotalsMatchGroups | components/MonthlyReportTab.tsx:205-209 | the grand hours and value are the sums of the group totals, and the counts add up to the number of records |
| MonthlyReport.GroupSums | components/MonthlyReportTab.tsx:46-49 | summing over the sorted groups' items is summing over all records |
| MonthlyReport.SaveRai | components/MonthlyReportTab.tsx:60-63 | only the RAI number changes, and it is set |
| MonthlyReport.SaveRaiNormalises | components/MonthlyReportTab.tsx:61 | the stored number is upper-case and trimmed |
| MonthlyReport.SaveRaiIdempotent | components/MonthlyReportTab.tsx:55-61 | reopening the editor on a saved number and saving it leaves the record as it was |
| CalculatorTab.Decremented | components/CalculatorTab.tsx:123 | `Math.max(0, d - 1)`: one less, never below 0 |
| CalculatorTab.Incremented | components/CalculatorTab.tsx:142 | `Math.min(24, d + 1)`: one more, never above 24 |
| CalculatorTab.StepperInverse | components/CalculatorTab.tsx:123-142 | inside 0..24 plus and minus undo each other, and stick at the ends |
| CalculatorTab.DurationOptions | components/CalculatorTab.tsx:134 | 25 options, option i is i hours |
| CalculatorTab.CapturedRecord | components/CalculatorTab.tsx:41-57 | no record exactly when date, start or duration is empty; otherwise the form's fields, the trimmed RAI number, the date's weekday name, and a value between 26.47 and 41.38 per hour |
| CalculatorTab.CapturedFromOptions | components/CalculatorTab.tsx:33-53 | for a start chosen from the options, the record ends duration hours later on the clock and is worth the engine's total |
| CalculatorTab.CapturedRaiNormalised | components/CalculatorTab.tsx:52 | the stored RAI number is trimmed and stays upper-case |
| CalculatorTab.TotalAfterAdd | components/CalculatorTab.tsx:59 | filing a record raises the draft total by exactly its value |
| CalculatorTab.TotalAtLeastFloor | components/CalculatorTab.tsx:59 | the draft total is at least 26.47 per hour filed |
| CalculatorTab.CalculatorForm.constructor | components/CalculatorTab.tsx:21-31 | today's date, 08:00, zero hours, no RAI number |
| CalculatorTab.CalculatorForm.SetDate | components/CalculatorTab.tsx:79 | only the date changes |
| CalculatorTab.CalculatorForm.SetStartHour | components/CalculatorTab.tsx:110 | only the start hour changes, to an "HH:00" option |
| CalculatorTab.CalculatorForm.Minus | components/CalculatorTab.tsx:123 | only the duration changes, to one less, not below 0 |
| CalculatorTab.CalculatorForm.Plus | components/CalculatorTab.tsx:142 | only the duration changes, to one more, not above 24 |
| CalculatorTab.CalculatorForm.SelectDuration | components/CalculatorTab.tsx:131 | only the duration changes, to the chosen option |
| CalculatorTab.CalculatorForm.SetRaiNumber | components/CalculatorTab.tsx:95 | only the RAI number changes, to the upper-cased text |
| CalculatorTab.CalculatorForm.HandleAdd | components/CalculatorTab.tsx:41-57 | returns the captured record; with no record nothing changes; with one only the RAI box is cleared |
| CalculatorTab.EnabledAddFiles | components/CalculatorTab.tsx:167 | the add button is enabled exactly when a click files a record |
| Text.ToUpper | components/CalendarTab.tsx:221 | `toUpperCase` keeps the length and upper-cases each character |
| Text.ToUpperIdempotent | components/CalculatorTab.tsx:95 | upper-casing twice is upper-casing once |
| Text.Trim | components/CalculatorTab.tsx:52 | `trim` leaves no white space at either end |
| Text.TrimIdempotent | components/MonthlyReportTab.tsx:61 | trimming twice is trimming once |
| Text.TrimKeepsUpper | components/MonthlyReportTab.tsx:61 | trimming an upper-case text leaves it upper-case |
| Text.Digits | utils.ts:29 | `String(n)` is a non-empty run of digits |
| Text.DigitsRoundTrip | utils.ts:29 | printing and reading back digits gives the number |
| Text.PadStart | utils.ts:29 | `padStart(width, '0')` is at least width long |
| Text.PadRoundTrip | utils.ts:35 | a zero-padded number reads back as the number |
| Text.Pad2Digits | utils.ts:35 | below 100 the two-wide padding is the number's two decimal digits |
| Text.DigitRun | components/CalendarTab.tsx:14 | parseInt reads the longest prefix of digits |
| Text.ParseIntDigits | components/MonthlyReportTab.tsx:37 | parseInt of a run of digits is its value |
| Text.Split | utils.ts:27 | `split` gives at least one field |
| Text.SplitFirst | utils.ts:27 | the first field is everything before the first separator |
| Text.SplitNone | components/MonthlyReportTab.tsx:31 | without a separator the text is its only field |
| Text.LessIrreflexive | components/MonthlyReportTab.tsx:52 | no key sorts before itself |
| Text.LessTransitive | components/MonthlyReportTab.tsx:52 | the key order is transitive |
| Text.LessTotal | components/MonthlyReportTab.tsx:52 | two distinct keys are ordered one way or the other |
| Text.LessAsymmetric | components/MonthlyReportTab.tsx:52 | two keys are never ordered both ways |

## Left out

- Time zones and daylight saving: the engine's clock is a civil date and hour, and every day has 24 hours.
- `toISOString`'s UTC conversion in `handleDayClick` and the today-date helpers: a day cell's date is its civil date.
- Years outside 0..9999, and the other forms `new Date` accepts: `ParseDate` reads exactly "YYYY-MM-DD".
- Floating point: money is integer cents, so `toFixed(2)` and its binary rounding do not arise.
- Text.ToUpper: upper-cases ASCII letters only; the full Unicode mapping of `toUpperCase` is not modelled.
- Text.Less: `localeCompare` is modelled as code-unit order, which agrees with it on the "YYYY-MM" keys it sorts.
- Text.ToNumber: `Number(s)` reads blank text and runs of decimal digits; signs, decimals, exponents and hex forms read as NaN.
- Utils.GetWeekdayName: requires an empty or valid date, which is what the date input holds; other text would make `getWeekdayName` return `undefined`.
- CalculatorTab.CapturedRecord: requires an empty or valid date, for the same reason.
- CalculatorTab.CalculatorForm.HandleAdd: hands the record back instead of calling `onAddRecord`; the caller's part is App.AppState.AddRecord.
- `crypto.randomUUID()` is a parameter (`freshId`, `recordId`), and so is the clock's "today".
- Persistence: `localStorage` reads become the `Saved` values given to App.AppState.Load and CalendarView's constructor; writes and JSON are not modelled.
- The monthly dictionary is a map value replaced at each step; MonthlyReportTab.tsx mutates the group objects in place.
- App.MigrateEvent: a stored event with neither `shiftTypeId` nor `shiftTypeIds` gets an empty list; App.tsx keeps it without the field.
- `getMonthName` (utils.ts:19-23) is not used by the core and is not modelled.
- `formatCurrency`, toasts and the "created"/"updated" message of `handleAddShiftType`: display only.
- The colour picker's canvas, hue slider and `hsl` drawing: rendering only.
- `services/ai.ts`, the rate-lookup service, is not part of this model; neither are `DEFAULT_RATES` and `WHATSAPP_GROUPS`, which the core does not read.
- Rendering, navigation between months and tabs, and the PDF and copy buttons.
