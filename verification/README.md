# Biweekly shift scheduler and front-desk helper pages — a Dafny model

This project models the logic of a small React web application used at the
front desk of a study café. Its core is the biweekly shift scheduler:

* **Schedule page** (`src/pages/Schedule.js`). Every date gets a week parity,
  A or B. The parity counts whole Monday-aligned weeks from a configured start
  date, and dates before that start date are handled as well. Each shift
  (morning, afternoon) of a date is then resolved in priority order:
  1. a one-off override row;
  2. the template row for the weekday, the shift and the parity;
  3. the `every` template row;
  4. the empty name.

  Saving the override dialog writes exactly one upsert or delete per shift.
  The page also has month navigation and a calendar-grid builder.
* **Admin page** (`src/pages/Admin.js`). The template editor keeps two
  snapshots:
  * the saved assignments and biweekly flags, as loaded from the database;
  * a local draft of both.

  Editing a cell, toggling a cell between `every` and A/B mode, and discarding
  all change the draft. Saving walks the 7 × 2 grid and emits a list of upserts
  and deletes. These include deletes for stale rows of the mode the cell no
  longer uses. The database then becomes the saved snapshot and the draft
  again.

Around the core sit four helper pages:

* **Util** (`src/Util.js`): inventory counting, clamped at -1 ("enough"),
  item search, and the daily report text. The report is built from the
  inventory, the rooms' temperature, humidity and air-conditioner state, a
  checklist and free notes.
* **TemperatureReport** (`src/TemperatureReport.js`): a room-by-room
  temperature and air-conditioner report.
* **Handover** (`src/tasks/Handover.js`): the shift-handover memo board. It
  has week, month and last-month date filters, 20-row pages, and memo
  submission.
* **Reservation** (`src/tasks/Reservation.js`): the deposit amount, adjusted
  by preset buttons that never take it below zero, and by typing into a
  number field.

## How the model is organised

| module (file) | models |
|---|---|
| `Optional` (optional.dfy) | an `Option` datatype for JS `null`/`undefined` results |
| `Text` (text.dfy) | the JavaScript string operations the pages rely on, listed below |
| `Calendar` (calendar.dfy) | Gregorian dates and day numbers, listed below |
| `Schedule` (schedule.dfy) | the Schedule page |
| `Admin` (admin.dfy) | the Admin template editor |
| `Rooms` (rooms.dfy) | the room and air-conditioner state shared by Util and TemperatureReport, and their updaters |
| `Report` (report.dfy) | the report header and the "nothing to copy" test the two report pages share |
| `UtilPage` (util_page.dfy) | the Util page |
| `TemperatureReport` (temperature_report.dfy) | the TemperatureReport page |
| `Handover` (handover.dfy) | the Handover page |
| `Reservation` (reservation.dfy) | the Reservation page |

`Text` covers:
* `trim` with JavaScript's white-space set;
* decimal rendering of integers, and `parseInt` with radix 10;
* `padStart(2, '0')`, `includes`, ASCII `toLowerCase` and `join`.

`Calendar` covers:
* Gregorian dates with JavaScript's 0-based months;
* day numbers counted from 1970-01-01, and `getDay`;
* month lengths, and `setDate` rollover across months and years.

Dates are calendar days, not instants. Where the source reads the clock
(`new Date()`), the model takes today's date as a parameter.

The source's own form is kept:
* `forEach`, `for` and `map` loops that build a value become methods with
  loops. Each is proved equal to a specification function, whose properties
  are proved as lemmas. Examples are `BuildAssignmentsMap`, `SaveOps`,
  `CalendarCells`, `GenerateRoomText`, `ActuallyCopyText` and `GetDateRange`.
* Component state that handlers update becomes a class with `modifies`
  clauses: `Admin.TemplateEditor`, `Schedule.MonthView` and `Handover.Board`.
  `Handover.JsDate` models the mutable `Date` that the week range moves with
  `setDate`.
* Database writes are returned as operation values: `OverrideOp`, and
  `TemplateOp` with `Upsert` and `Delete`. The stored rows are maps, or row
  sequences for overrides. `ApplyOps` and `ApplyOverrideOps` give the
  database after the writes, so "after saving, the database holds the draft"
  can be stated.

Behaviour of the code that the model reproduces as written:

* In `getStaffForDate` (src/pages/Schedule.js:186-190) an override row whose
  staff name is empty still marks the shift as overridden, but the shown name
  falls through to the template. The comment at src/pages/Schedule.js:160
  says that overrides take priority, which the `||` at lines 187-188 does not
  honour for an empty name. The model follows the code (`StaffForDate`).
* The copy handler of the Util page (src/Util.js:162-167) compares the
  inventory text with `'재고 특이사항 없습니다.'`. The inventory generator
  never produces that text: it writes `'재고 특이사항 없음.'`
  (src/Util.js:100). The comparison therefore never matches, and the
  inventory text is always appended to the report. The model keeps the
  comparison, and `InventoryTextIsNeverNoneMessage` and
  `InventoryAlwaysReported` prove that the branch is dead.
* Toggling a cell from A/B to `every` and back loses the B value; this is
  `ToggleTwiceLosesB`.

## Model

| member | source | states |
|---|---|---|
| Schedule.MondayOf | src/pages/Schedule.js:37-44 | the Monday that starts a day's week: it is a Monday, at most six days earlier; a Sunday goes back six days, any other weekday goes back weekday − 1 days |
| Schedule.MondayOfNextWeek | src/pages/Schedule.js:37-44 | the Monday of the day a week later is seven days after this day's Monday |
| Schedule.JsRemainder | src/pages/Schedule.js:54 | JavaScript `%`: its magnitude is below the divisor, it takes the sign of the dividend, and it agrees with the mathematical remainder for non-negative dividends |
| Schedule.WeeksBetween | src/pages/Schedule.js:46-51 | seven times the week count is exactly the distance between the two aligned Mondays, so the rounding of the millisecond quotient never changes the count |
| Schedule.ParityOf | src/pages/Schedule.js:53-54 | `((w % 2) + 2) % 2 === 0` picks A exactly for even week counts, negative counts included |
| Schedule.ParityAlternates | src/pages/Schedule.js:53-54 | consecutive week counts have opposite parities |
| Schedule.GetWeekType | src/pages/Schedule.js:33-55 | null exactly when no start date is set; otherwise A or B, never `every` |
| Schedule.StartWeekIsA | src/pages/Schedule.js:46-54 | the start date itself is in an A week |
| Schedule.SameWeekSameType | src/pages/Schedule.js:37-54 | two dates with the same Monday get the same week type |
| Schedule.SundayGoesWithPreviousMonday | src/pages/Schedule.js:38-41 | a Sunday has the week type of the Monday six days before it |
| Schedule.WeekTypeAlternates | src/pages/Schedule.js:49-54 | the date seven days later has the other week type, also before the start date |
| Schedule.WeekTypePeriodic | src/pages/Schedule.js:49-54 | the week type repeats every 14 days |
| Schedule.FindTemplate | src/pages/Schedule.js:171-180 | `templates.find`: none exactly when no row has the weekday, shift and week type; otherwise the first such row |
| Schedule.FindTemplateFor | src/pages/Schedule.js:168-182 | the inner `findTemplate`: the row it returns has the weekday and shift, with week type `every` or the date's parity; it returns none exactly when neither lookup finds a row |
| Schedule.Or | src/pages/Schedule.js:187-188 | `a \|\| b` on strings: one of the two, empty only when both are |
| Schedule.EffectiveTemplateStaff | src/pages/Schedule.js:195-209 | the parity row's name when the parity is defined and such a row exists; otherwise the `every` row's name; otherwise the empty name |
| Schedule.FindOverride | src/pages/Schedule.js:161-162 | none exactly when no override row has the date and shift; otherwise the first row of the list with that date and shift |
| Schedule.StaffForDate | src/pages/Schedule.js:156-192 | each `…Overridden` flag holds exactly when an override row exists for that shift, and `hasOverride` is their disjunction; each shift shows the override's name when it is non-empty, otherwise the effective template name |
| Schedule.FindAfterRename | src/pages/Schedule.js:239-241 | an upsert that hits an existing (date, shift) row renames that row and no lookup of another (date, shift) changes |
| Schedule.FindAfterRemove | src/pages/Schedule.js:245-251 | after deleting by date, or by date and shift, the deleted (date, shift) pairs have no row and every other lookup is unchanged |
| Schedule.FindAfterOp | src/pages/Schedule.js:238-270 | one write changes only the (date, shift) it targets: after an upsert the lookup returns the new name; after a delete it finds nothing |
| Schedule.SaveOverrideOps | src/pages/Schedule.js:225-272 | no writes without a selected date; otherwise one write per shift, morning first; a shift is upserted, with the proposed name, exactly when the name is non-empty and differs from the effective template name, and deleted otherwise |
| Schedule.SaveOverrideFinds | src/pages/Schedule.js:225-272 | after the writes, each shift of the date holds an override exactly when the proposal differs from the template; other dates keep their overrides |
| Schedule.SaveOverrideShowsProposal | src/pages/Schedule.js:225-278 | after saving, the day shows the proposed names, falling back to the template for empty proposals; no stored override repeats the template's answer; other dates are untouched |
| Schedule.ResetOverrideRestoresTemplate | src/pages/Schedule.js:280-289 | after resetting a date, it has no override and shows the template names; other dates are untouched |
| Schedule.PrevMonth | src/pages/Schedule.js:125-132 | the month stays in 0..11 and the (year, month) pair moves back by exactly one month |
| Schedule.NextMonth | src/pages/Schedule.js:134-141 | the month stays in 0..11 and the (year, month) pair moves forward by exactly one month |
| Schedule.PrevNextRoundTrip | src/pages/Schedule.js:125-141 | previous after next, and next after previous, give back the month |
| Schedule.MonthView.constructor | src/pages/Schedule.js:58-60 | the view opens on today's year and month |
| Schedule.MonthView.GoToPrevMonth | src/pages/Schedule.js:125-132 | the view moves to the previous month; the year drops exactly when leaving January |
| Schedule.MonthView.GoToNextMonth | src/pages/Schedule.js:134-141 | the view moves to the next month; the year rises exactly when leaving December |
| Schedule.CalendarCells | src/pages/Schedule.js:143-154 | the grid is one empty cell per weekday before the 1st, then the days 1 to the month's length, in order |
| Calendar.DaysInMonth | src/pages/Schedule.js:145 | `new Date(year, month + 1, 0).getDate()`: 28 to 31 days; 29 exactly for February of a leap year, 30 exactly for April, June, September and November |
| Calendar.DayOfWeekPeriodic | src/pages/Schedule.js:144 | `getDay` repeats every seven days |
| Calendar.AddDays | src/tasks/Handover.js:24 | `setDate` past the month's end or before its start: the result is a valid date exactly k days later |
| Calendar.MonthsAreContiguous | src/tasks/Handover.js:32 | the day after a month's last day is the next month's first, and the month spans exactly its length |
| Admin.MakeKeyInjective | src/pages/Admin.js:13 | `makeKey` gives distinct strings to distinct (day, shift, week type) triples |
| Admin.AssignmentsOf | src/pages/Admin.js:15-21 | the map has a key exactly for each (day, shift, week type) some row has |
| Admin.LastRowWins | src/pages/Admin.js:17-19 | when rows share a key, the map holds the name of the last one |
| Admin.BuildAssignmentsMap | src/pages/Admin.js:15-21 | the `forEach` loop builds exactly that map |
| Admin.BiweeklyOf | src/pages/Admin.js:23-31 | a cell is marked, and marked true, exactly when some row for it has week type A or B |
| Admin.BuildBiweeklyMap | src/pages/Admin.js:23-31 | the `forEach` loop builds exactly that map |
| Admin.ModesOf | src/pages/Admin.js:23-31 | the flags an assignments map implies: a cell is marked exactly when it holds an A or B key |
| Admin.BiweeklyIsModesOfAssignments | src/pages/Admin.js:15-31 | the biweekly map of the rows equals the flags implied by their assignments map |
| Admin.BiweeklyCell | src/pages/Admin.js:23-31 | a cell is biweekly exactly when the assignments hold its A or its B key |
| Admin.LocalChanged | src/pages/Admin.js:243-254 | a non-empty name is stored under the key, an empty one removes it, and no other key changes |
| Admin.ToggledLocal | src/pages/Admin.js:257-294 | biweekly to `every`: A and B are removed and a non-empty A value moves to `every`; `every` to biweekly: `every` is removed, a non-empty `every` value moves to A and B is left as it was; no other cell's keys change |
| Admin.ToggledModes | src/pages/Admin.js:277-292 | the cell's flag flips (stored as an explicit true or false) and no other flag changes |
| Admin.ToggleTwiceLosesB | src/pages/Admin.js:261-293 | biweekly → every → biweekly with A = x ends with A = x, no B and no `every`; the B value is lost |
| Admin.ToggleTwiceKeepsEvery | src/pages/Admin.js:261-293 | every → biweekly → every gives back the `every` value with no A or B key |
| Admin.WeekOpAt | src/pages/Admin.js:323-343 | for a week type of the cell's mode: no write when local equals saved; otherwise the row becomes the non-empty local value, or is deleted for an empty one |
| Admin.DeleteIfSavedAt | src/pages/Admin.js:345-354 | for a week type of the other mode: the row is deleted exactly when the saved name is non-empty, and nothing else changes |
| Admin.CellWrites | src/pages/Admin.js:312-375 | the writes of one grid cell, in source order, are exactly `CellOps` |
| Admin.DayWrites | src/pages/Admin.js:308-376 | the shift loop of one day emits the morning cell's writes, then the afternoon's |
| Admin.SaveOps | src/pages/Admin.js:303-378 | the day loop over 0..6 emits exactly the grid's writes |
| Admin.SaveOutcome | src/pages/Admin.js:303-378 | the saved name a key should have afterwards: the local value for the week types of the cell's mode, and nothing for the other mode's |
| Admin.CellOpsAt | src/pages/Admin.js:312-375 | a cell's writes touch only its own three keys and bring each to its `SaveOutcome` |
| Admin.SaveAllAt | src/pages/Admin.js:303-378 | after applying all writes, every grid key holds its `SaveOutcome` and every key outside days 0..6 is unchanged |
| Admin.SaveAllResult | src/pages/Admin.js:303-378 | after saving, the database reads as the draft for the cell's mode, as empty for the other mode, and unchanged outside the grid; with no blank saved names, no blank names and no rows of the unused mode remain |
| Admin.Commit | src/pages/Admin.js:303-380 | the writes are the grid's writes and the database afterwards is the saved map with them applied |
| Admin.SaveAfterDiscardIsEmpty | src/pages/Admin.js:297-378 | saving right after discarding (the draft equals the saved map) writes nothing |
| Admin.SaveTwiceWritesOnce | src/pages/Admin.js:303-386 | a second save after the reload writes nothing |
| Admin.NoMixAfterSave | src/pages/Admin.js:303-378 | after saving, no grid cell holds both an `every` row and an A or B row |
| Admin.TemplateEditor.Load | src/pages/Admin.js:210-233 | the first load sets the saved snapshot from the rows and the draft to the same maps |
| Admin.TemplateEditor.LocalChange | src/pages/Admin.js:243-254 | the draft becomes `LocalChanged` of the old draft; the saved snapshot and the flags do not change |
| Admin.TemplateEditor.ToggleBiweekly | src/pages/Admin.js:257-294 | the draft and the flags become `ToggledLocal` and `ToggledModes` of the old ones; the saved snapshot does not change |
| Admin.TemplateEditor.DiscardChanges | src/pages/Admin.js:297-300 | the draft and flags become the saved ones, so `hasChanges` is false |
| Admin.TemplateEditor.SaveAll | src/pages/Admin.js:303-386 | the writes are the grid's writes from the old snapshots; the saved map becomes the old one with them applied; afterwards there are no changes |
| Admin.TemplateEditor.Reload | src/pages/Admin.js:382-384 | the refetch after a save sets saved and draft to the stored map and its implied flags, so `hasChanges` is false |
| Rooms.InitialAc | src/Util.js:34-39 | an air conditioner starts in its configured mode, or `off` when none is set; the other fields are copied |
| Rooms.InitialAcs | src/Util.js:34 | the initial states are the configured units, one each, in order |
| Rooms.InitialRoomState | src/Util.js:27-42 | the loop over the configured rooms builds one entry per room id, each with a non-empty mode on every unit |
| Rooms.SetRoomField | src/Util.js:66-74 | `handleRoomPropertyChange` (and the same handler at src/TemperatureReport.js:35-43): the room's field takes the value; its other field, its units and all other rooms are unchanged |
| Rooms.SetRoomFieldTwice | src/Util.js:66-74 | the second of two edits of the same field wins |
| Rooms.SetAc | src/Util.js:81-83 | only the unit at the index changes, and only the edited field of it; an index outside the list changes nothing |
| Rooms.SetAcField | src/Util.js:76-86 | `handleAcPropertyChange` (and src/TemperatureReport.js:45-55): fails exactly when the room has no state (the source throws); otherwise only that room's units change, as `SetAc` says |
| Rooms.SetAcOutOfRange | src/Util.js:81-83 | an index outside the unit list leaves the state as it was |
| Rooms.ModeText | src/Util.js:108-113 | `getModeText` (and src/TemperatureReport.js:57-62): the Korean label for the five known modes; any other mode passes through unchanged; a non-empty mode never gives an empty text |
| Rooms.ModeLabelsDistinct | src/Util.js:109-111 | different known modes get different labels |
| Report.HeaderTrim | src/Util.js:161 | the report header `<branch> 입니다.\n\n` trims to the sentence compared against before copying |
| Report.AlertsExactlyWhenEmpty | src/Util.js:176-179 | the "nothing to copy" alert fires exactly when everything after the header is white space |
| UtilPage.InitialInventory | src/Util.js:20-24 | every catalogue item starts at quantity -1 |
| UtilPage.InitialChecklist | src/Util.js:44-49 | every checklist key starts unchecked |
| UtilPage.InitialState | src/Util.js:19-54 | the page opens with that inventory, the initial rooms, that checklist and empty notes |
| UtilPage.QuantityChange | src/Util.js:56-64 | `max(-1, q + change)` with a missing item read as 0; no other item changes |
| UtilPage.IncrementThenDecrement | src/Util.js:56-64 | + then − gives back any quantity of -1 or more |
| UtilPage.DecrementAtFloor | src/Util.js:56-64 | − on a quantity of 0 or below gives -1 |
| UtilPage.SetQuantity | src/Util.js:199-208 | `parseInt` input that is not a number stores -1; a number n stores `max(-1, n)`; no other item changes |
| UtilPage.SetQuantityOfNumber | src/Util.js:199-208 | typing the decimal form of n ≥ -1 stores exactly n |
| UtilPage.SetQuantityOfBlank | src/Util.js:199-208 | blank input stores -1 |
| UtilPage.ChecklistChange | src/Util.js:88-93 | the key's check flips and no other key changes |
| UtilPage.ChecklistChangeTwice | src/Util.js:88-93 | flipping twice gives back the checklist |
| UtilPage.Counted | src/Util.js:99 | the listed items are exactly the catalogue items with a quantity of 0 or more |
| UtilPage.CountLines | src/Util.js:102-103 | one `<name>: <n>개` line per listed item, in order |
| UtilPage.InventoryText | src/Util.js:95-106 | empty exactly when the inventory is empty; the "nothing counted" text when no item is counted; otherwise the header, the lines joined by newlines, and a newline |
| UtilPage.InventoryListsCounted | src/Util.js:99-105 | every counted item's line appears in the inventory text |
| UtilPage.InitialNothingCounted | src/Util.js:20-24 | on a fresh page the inventory text is the "nothing counted" text |
| UtilPage.InventoryTextIsNeverNoneMessage | src/Util.js:100-163 | the trimmed inventory text is never `재고 특이사항 없습니다.` |
| UtilPage.InventoryTextBlank | src/Util.js:95-106 | the inventory text is blank exactly when the inventory is empty |
| UtilPage.FilteredItems | src/Util.js:195-197 | empty for an empty query and never longer than the catalogue |
| UtilPage.FilteredItemsMembers | src/Util.js:195-197 | an item is listed exactly when it is in the catalogue and its lower-cased name contains the lower-cased query |
| UtilPage.FilteredItemsAppend | src/Util.js:195-197 | filtering keeps catalogue order: it distributes over concatenation |
| UtilPage.SearchFindsOwnName | src/Util.js:195-197 | searching for an item's own non-empty name lists it |
| UtilPage.SearchIgnoresCase | src/Util.js:195-197 | lower-casing the query changes nothing |
| UtilPage.FilteredSameMatches | src/Util.js:195-197 | two queries that match the same items give the same list |
| UtilPage.GenerateRoomText | src/Util.js:115-158 | the loops build exactly the trimmed room report, with a trailing newline when it is not empty |
| UtilPage.AppendRoom | src/Util.js:119-141 | one room's pass appends its room line, then each running unit's line, in order |
| UtilPage.AppendAcLine | src/Util.js:131-140 | one unit's pass appends its line exactly when it is on |
| UtilPage.WithRoomLineBlank | src/Util.js:123-129 | a room adds visible text exactly when its temperature or humidity is set |
| UtilPage.WithAcLineBlank | src/Util.js:131-140 | a unit adds visible text exactly when its mode is set and not `off` |
| UtilPage.WithAcLinesBlank | src/Util.js:130-141 | a room's units add nothing visible exactly when none is on |
| UtilPage.WithRoomBlank | src/Util.js:119-141 | a room adds nothing visible exactly when it has no reading and no running unit |
| UtilPage.WithRoomsBlank | src/Util.js:118-142 | the rooms part is blank exactly when every configured room is quiet |
| UtilPage.ChecklistTextBlank | src/Util.js:144-151 | the checklist part is blank exactly when no item is checked |
| UtilPage.RoomReportEmpty | src/Util.js:115-158 | the room report is empty exactly when every room is quiet, nothing is checked and the checklist note is blank |
| UtilPage.RoomReportVisible | src/Util.js:157 | the room report is either empty or starts with visible text |
| UtilPage.CopyButtonClick | src/Util.js:160-187 | the copy handler copies the trimmed report, or alerts and copies nothing when the trimmed report is only the header sentence |
| UtilPage.InventoryAlwaysReported | src/Util.js:161-167 | the report always starts with the header followed by the full inventory text |
| UtilPage.NothingToCopy | src/Util.js:160-179 | nothing is copied exactly when the inventory is empty, the inventory note is blank and the room report is empty |
| UtilPage.ReportBlankAfterHeader | src/Util.js:161-175 | everything after the header is white space exactly when the inventory text, the note and the room report are all blank |
| TemperatureReport.InitialState | src/TemperatureReport.js:14-33 | one initial entry per configured room and an empty note |
| TemperatureReport.OrDash | src/TemperatureReport.js:69 | `value \|\| '-'`: the value itself when it is set, exactly `-` when it is missing |
| TemperatureReport.RoomLine | src/TemperatureReport.js:69 | the line starts with the room name followed by ` 온도: ` |
| TemperatureReport.RoomLineReadings | src/TemperatureReport.js:69 | the line shows ` 온도: <t>°C` and `습도: <h>%`, each reading a dash when missing |
| TemperatureReport.AcText | src/TemperatureReport.js:72-83 | no entry exactly for mode `off`; otherwise the entry starts with the location, a space and the mode label (temperature and reservation: see TemperatureShown, ReservationShown, FanIgnoresTemperature) |
| TemperatureReport.AcTextNotEmpty | src/TemperatureReport.js:73-82 | a unit not `off` always yields a non-empty entry |
| TemperatureReport.FanIgnoresTemperature | src/TemperatureReport.js:76-78 | in fan mode the set temperature does not change the entry |
| TemperatureReport.TemperatureShown | src/TemperatureReport.js:76-78 | in any other running mode a set temperature appears as ` <t>°C` |
| TemperatureReport.ReservationShown | src/TemperatureReport.js:79-81 | a unit not `off` with a reservation shows ` (<n>시간 예약)` |
| TemperatureReport.AcTextsEmpty | src/TemperatureReport.js:71-88 | no entries remain exactly when every unit is `off` |
| TemperatureReport.AcTextsHas | src/TemperatureReport.js:72-83 | the entry of every unit that is not `off` survives the map-and-filter |
| TemperatureReport.AcTextsAppend | src/TemperatureReport.js:72-83 | entries keep the units' order: the map-and-filter distributes over concatenation |
| TemperatureReport.RoomText | src/TemperatureReport.js:64-91 | the room text always starts with the whole room line of that room's name and readings |
| TemperatureReport.RoomTextListsAc | src/TemperatureReport.js:84-86 | the room text contains the entry of every unit of the room that is not `off` |
| TemperatureReport.RoomTextVisible | src/TemperatureReport.js:64-91 | a room's text is never blank |
| TemperatureReport.RoomTextWithoutAcs | src/TemperatureReport.js:71-88 | the text is just the room line exactly when every unit is `off` |
| TemperatureReport.InitialRoomHasNoAcLine | src/TemperatureReport.js:19-27 | on a fresh page, a room whose units are configured without a mode or as `off` shows only its room line |
| TemperatureReport.GenerateRoomText | src/TemperatureReport.js:64-91 | the method builds exactly the room text |
| TemperatureReport.RoomTexts | src/TemperatureReport.js:102-103 | one text per configured room, in configuration order |
| TemperatureReport.ActuallyCopyText | src/TemperatureReport.js:97-117 | the copy handler copies the trimmed report, or alerts and copies nothing when the trimmed report is only the header sentence |
| TemperatureReport.RoomInReport | src/TemperatureReport.js:101-107 | each room's text, followed by a newline, appears in the report after the texts of the rooms before it |
| TemperatureReport.WithTextsBlankAfter | src/TemperatureReport.js:101-107 | with non-blank room texts, the part after the header is blank exactly when there are no rooms |
| TemperatureReport.NothingToCopy | src/TemperatureReport.js:97-117 | nothing is copied exactly when no room is configured and the note is blank |
| Handover.FormatDateShape | src/tasks/Handover.js:9-14 | `YYYY-MM-DD`: ten characters with dashes at 4 and 7; the pieces read back as the year, the 1-based month and the day |
| Handover.FormatDateInjective | src/tasks/Handover.js:9-14 | different dates give different strings |
| Handover.JsDate.SetDate | src/tasks/Handover.js:23-26 | `setDate(n)` moves to day n of the current month, rolling over into the next or previous months |
| Handover.NewDate | src/tasks/Handover.js:31-32 | `new Date(y, m, d)`: a valid date d − 1 days after the first of month m, normalised across years |
| Handover.NewDateFirst | src/tasks/Handover.js:31 | `new Date(y, m, 1)` is the first of the month |
| Handover.NewDateDayZero | src/tasks/Handover.js:32 | `new Date(y, m + 1, 0)` is the last day of month m, December included |
| Handover.LastMonthBounds | src/tasks/Handover.js:37-38 | the last-month bounds are the first and the last day of the previous month, January included |
| Handover.MondayIsWeekStart | src/tasks/Handover.js:21-24 | the date `setDate` produces for Monday is the week's start |
| Handover.SundayIsWeekEnd | src/tasks/Handover.js:25-26 | the date `setDate` produces for Sunday is the week's end |
| Handover.WeekRunsMondayToSunday | src/tasks/Handover.js:20-28 | the week range starts on a Monday, ends six days later on a Sunday and contains today; on a Sunday it starts six days earlier |
| Handover.GetDateRange | src/tasks/Handover.js:17-43 | null exactly for `all`; the formatted Monday and Sunday of this week, the first and last day of this month, or the first and last day of last month |
| Handover.PageWindowsTile | src/tasks/Handover.js:97 | each page requests exactly 20 rows, and the next page starts right after it |
| Handover.RowOnOnePage | src/tasks/Handover.js:97 | row r is requested by page r / 20 and by no other page |
| Handover.TotalPages | src/tasks/Handover.js:64 | `ceil(count / 20)`: 0 for no rows, otherwise the least number of pages that hold them |
| Handover.LastPageHoldsLastRow | src/tasks/Handover.js:64 | the last page requests the last row |
| Handover.ToggledAuthor | src/tasks/Handover.js:208 | clicking the selected name clears it; clicking another selects it |
| Handover.ToggleAuthorTwice | src/tasks/Handover.js:208 | two clicks on the same name give back a selection that was empty or that name |
| Handover.NewMemo | src/tasks/Handover.js:119-123 | no row when the content or the author is blank; otherwise title `-`, today's formatted date, and the trimmed content and author |
| Handover.Board.constructor | src/tasks/Handover.js:53-60 | the board opens on the week filter, page 0, no rows, an empty form and the form closed |
| Handover.Board.Window | src/tasks/Handover.js:97 | the current page's window spans 20 rows and never starts below row 0 |
| Handover.Board.Fetched | src/tasks/Handover.js:103 | a fetch updates only the row count |
| Handover.Board.FilterChange | src/tasks/Handover.js:112-115 | the filter changes and the page returns to 0 |
| Handover.Board.PrevPage | src/tasks/Handover.js:298 | `max(0, page − 1)`, from any page, even one left past the end after the row count shrank; a page within range stays within range |
| Handover.Board.NextPage | src/tasks/Handover.js:308-309 | `min(totalPages − 1, page + 1)`, which also brings a page left past the end back to the last page; a page within range stays within range |
| Handover.Board.ToggleAuthor | src/tasks/Handover.js:208 | the author becomes `ToggledAuthor` of the old one and nothing else changes |
| Handover.Board.Submit | src/tasks/Handover.js:117-135 | the row inserted is `NewMemo` of the form; after a successful insert the content is cleared, the form closed and the page reset to 0; a blank form or a failed insert changes nothing; this holds from any page, even one left past the end after the row count shrank |
| Handover.Board.CloseForm | src/tasks/Handover.js:131-133 | clears the content, closes the form and resets the page, from any page, leaving the page within range |
| Reservation.AmountChange | src/tasks/Reservation.js:76-81 | `max(0, prev ± value)`: never negative, at least the raw sum, and either 0 or the raw sum |
| Reservation.AddPresetExact | src/tasks/Reservation.js:77-79 | adding a preset to an amount that is not negative adds exactly the preset |
| Reservation.SubtractTooMuch | src/tasks/Reservation.js:77-79 | subtracting more than the amount gives 0 |
| Reservation.AddThenSubtract | src/tasks/Reservation.js:76-81 | adding and then subtracting the same sum gives back the amount |
| Reservation.PresetButtons | src/tasks/Reservation.js:156-165 | one add and one subtract button per preset (4000, 5500, 8000, 11000), and no other button |
| Reservation.NumberOf | src/tasks/Reservation.js:145 | `Number(s)` for integer text: a blank field reads as 0 |
| Reservation.NumberOfDigits | src/tasks/Reservation.js:145 | a run of decimal digits reads as the number it denotes |
| Reservation.TypedAmountOfString | src/tasks/Reservation.js:145 | typing the decimal form of any integer sets exactly that amount; negative amounts are not clamped |
| Reservation.TypedWithoutDigits | src/tasks/Reservation.js:145 | input without a digit sets the amount to 0 |
| Text.Trim | src/Util.js:157 | `trim`: never longer, empty exactly for blank input, otherwise the slice from the first to the last visible character |
| Text.TrimIdempotent | src/Util.js:157 | trimming twice is trimming once |
| Text.ParseIntOfString | src/Util.js:200 | `parseInt(value, 10)` reads back the decimal form of every integer |
| Text.IntToStringInjective | src/pages/Admin.js:13 | different integers have different decimal forms |
| Text.PadStart2 | src/tasks/Handover.js:11-12 | `padStart(2, '0')`: at least two characters, the input at the end, zeros before it |
| Text.ParseIntOfPadded | src/tasks/Handover.js:11-12 | a padded month or day reads back as its value |
| Text.ToLower | src/Util.js:196 | `toLowerCase` on ASCII: same length, A–Z lowered, every other character kept |
| Text.ToLowerIdempotent | src/Util.js:196 | lowering twice is lowering once |

## Left out

- Database I/O is not modelled. This covers every read, the error results, and the refetch after writes. Writes are returned as operation lists, and their effect is given by `ApplyOps` and `ApplyOverrideOps`.
- The `Promise.all` batching of writes is not modelled. Its lack of atomicity and its partial failures are concurrency and network behaviour. Only complete success is modelled, except for the Handover insert, whose failure is a parameter of `Submit`.
- Authentication is not modelled: the admin password and `sessionStorage`.
- The staff list editor of the Admin page (add, rename, delete) is not modelled; it is database I/O only.
- Loading and saving the biweekly start date is not modelled; the start date is a parameter.
- Memo deletion on the Handover page is not modelled; it is a confirmed database delete.
- Clipboard writes, `alert`, `confirm`, toasts and all rendering are not modelled. The same goes for `getItemColor` and the colour palettes, the quick-edit dialog (`handleSelectItem`, `handleCloseQuickEdit`), and the Reservation page's message texts and `handleConfirm`.
- `Intl.NumberFormat` in src/tasks/Reservation.js is a library formatter and is not modelled.
- JavaScript `Date` internals are not modelled: time zones, daylight saving, `setHours`, and millisecond arithmetic. Dates are calendar days, and today's date is a parameter.
- Admin.TemplateEditor.HasChanges: `hasChanges` compares the `JSON.stringify` forms of the maps; here it is plain map inequality. The two differ only in key order, because the flags keep explicit `false` entries as the source does.
- Text.ToLower: lowers ASCII letters only, where JavaScript also lowers other scripts.
- Reservation.NumberOf: reads only optionally signed decimal integers. `Number`'s decimals, exponents, hexadecimal and `Infinity` forms are not modelled (they read as not a number).
- Rooms.ModeText: the label lookup `modeMap[mode]` would also find names inherited from `Object.prototype` such as `toString`. Those modes never occur and are not modelled.
- Rooms.InitialAc: an air conditioner configured without a location gets the empty location, where the source copies `undefined`.
- Admin.SaveTwiceWritesOnce: requires that no saved name is empty. The source skips stale deletes for empty names, because an empty name is falsy, so a saved empty name can survive a save.
- Admin.SaveAfterDiscardIsEmpty: requires that no grid cell in the saved map mixes `every` with A or B rows. That is the state the editor itself saves (`NoMixAfterSave`).
- UtilPage.NothingToCopy: requires a branch name that starts with a visible character. The same holds for TemperatureReport.NothingToCopy, Report.HeaderTrim and Report.AlertsExactlyWhenEmpty; every configured branch name does.
- Handover.Board.PrevPage: requires more than one page, because the paging buttons are shown only then (src/tasks/Handover.js:295).
- Handover.Board.NextPage: requires more than one page for the same reason.
- Handover.FormatDateShape: proved for four-digit years only, the only years the filters meet. The same holds for Handover.FormatDateInjective.
- The reset button of the Reservation page sets the amount to the constant `InitialAmount`, 0. There is nothing to prove about that beyond the constant.
