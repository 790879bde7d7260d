# GearGuard maintenance requests, modelled in Dafny

GearGuard tracks maintenance requests on equipment and work centers. A
request moves through four stages: `New`, `In Progress`, `Repaired` and `Scrap`.
This project models the request handling inside five React components and
proves properties of that model:

- **Kanban board** (`KanbanBoard`, `MaintenanceRequests`). The request list is split into one column per stage. The class `KanbanBoard.Board` holds `requests` and `initialRequests`. Its method `HandleDrop` applies a drop optimistically and takes the database's answer as a parameter. On a failure it reverts to the list the board was mounted with.
- **Maintenance calendar** (`Gregorian`, `MaintenanceCalendar`). Proleptic Gregorian arithmetic on (year, month, day) triples covers the month length, the weekday of the 1st, the month grid, month navigation with year rollover, and the exact-match date filter. The class `MaintenanceCalendar.Calendar` holds the shown date.
- **New-request form** (`NewRequestForm`). The class `NewRequestPage` holds the fifteen form fields and the Equipment / Work Center toggle. The insert payload is a pure record built from them.
- **Team form** (`TeamForm`). The class `TeamFormState` holds the member list and the member input. Members are added trimmed and without duplicates, and every occurrence is removed. The form defaults and the null-normalised row sent on submit are pure functions.
- **Dashboard counters** (`Dashboard`). These count requests by stage.

Supporting modules:

- `Sequences` models JavaScript's `Array.prototype.filter`. It proves that the result is an order-preserving selection of exactly the kept elements.
- `JsText` models `String.prototype.trim` over the ECMAScript whitespace and line-terminator set.
- `JsText` also models the zero-padded decimal fields that `Date.prototype.toISOString` writes.
- `Wrappers` holds `Option` and `Result`.

Months are 0-based and weekdays are 0 for Sunday, as JavaScript's `getMonth` and `getDay` have them.

The Supabase client, the signed-in user and today's date are parameters:

- a database write is an `Outcome` passed in, or a payload returned;
- `auth.getUser()` is an `Option<string>` user id;
- `new Date()` is a `Date` argument.

Some behaviour of the components is easy to expect differently. The model keeps each of these as the components have it:

- A failed stage update restores `initialRequests`, the list the board was mounted with. It does not restore the list as it was just before the drop, so earlier successful moves are discarded too.
- A drop onto the card's current stage is not skipped. The list is unchanged (`KanbanBoard.SameStageDropKeepsList`), but the update is still sent.
- Any stage string is accepted as a drop target.
- Choosing equipment does not fill in team or category.
- Changing the maintenance type does not clear `scheduled_date`.
- Switching the Equipment / Work Center toggle keeps the other reference in `formData`. The payload alone drops it.
- The only form validation before an insert is the browser's `required` constraints:
  - on the new-request page, the subject and the select of the active target;
  - on the team form, the team name.
  A press of Save while one of them is empty never reaches `handleSubmit` (`NewRequestForm.PressSave`, `TeamForm.PressSave`).
- `new Date(year, month, …)` reads a year from 0 to 99 as 1900 + year. The calendar's navigation and grid inherit this (`Gregorian.ConstructorYear`):
  - Previous from January 100 shows December 99 but draws December 1999;
  - Next from there shows January 2000.

## Model

| member | source | states |
|---|---|---|
| Sequences.Filter | components/kanban-board.tsx:65 | `filter` keeps exactly the elements satisfying the predicate and never lengthens the list |
| Sequences.FilterIsOrderedSelection | components/kanban-board.tsx:65 | the result of `filter` picks elements of the input at strictly increasing positions, and every kept position is picked (order kept, nothing lost) |
| MaintenanceRequests.WithStage | components/kanban-board.tsx:65 | the requests of one stage: exactly those in the list whose stage equals it |
| MaintenanceRequests.Unstaged | components/kanban-board.tsx:24 | the requests whose stage is none of the four `STAGES` |
| MaintenanceRequests.StagesPartitionRequests | components/kanban-board.tsx:24-69 | the four stage sublists and the unstaged requests together have exactly as many elements as the list: every request falls in exactly one |
| MaintenanceRequests.NoScrapNorUnstaged | components/kanban-board.tsx:14-24 | no request is in `Scrap` or in an unknown stage iff every stage is `New`, `In Progress` or `Repaired` |
| KanbanBoard.FindById | components/kanban-board.tsx:45-46 | `find` returns nothing iff no request has the id, and otherwise the first request carrying it |
| KanbanBoard.GroupByStage | components/kanban-board.tsx:63-69 | the `reduce` gives one entry per stage, each holding exactly that stage's filtered requests |
| KanbanBoard.Columns | components/kanban-board.tsx:63-69 | `groupedRequests` over `STAGES`; ColumnsPartitionRequests states its keys, contents and sizes |
| KanbanBoard.ColumnsPartitionRequests | components/kanban-board.tsx:24-69 | the columns are keyed by the four stages; every staged request is in its own column; a column holds only requests of its stage (so columns are disjoint); column sizes plus unknown-stage requests add up to the total |
| KanbanBoard.MoveToStageChangesOnlyDroppedCard | components/kanban-board.tsx:49 | the optimistic `map` keeps length and order, sets the stage of the cards with the dropped id and leaves every other card as it was |
| KanbanBoard.Restaged | components/kanban-board.tsx:49 | `{ ...r, stage: newStage }` for the card with the dropped id; its effect on the list is stated by MoveToStageChangesOnlyDroppedCard |
| KanbanBoard.MoveToStage | components/kanban-board.tsx:49 | the optimistic `requests.map(...)`; MoveToStageChangesOnlyDroppedCard, DropLeavesOtherColumns and DroppedCardInNewColumn state what it does |
| KanbanBoard.SameStageDropKeepsList | components/kanban-board.tsx:49-52 | dropping a card on the stage it already has leaves the list equal |
| KanbanBoard.WithoutId | components/kanban-board.tsx:49 | the list minus the cards with a given id |
| KanbanBoard.DropLeavesOtherColumns | components/kanban-board.tsx:49-69 | after a drop, every other column is what it was minus the dropped card: the card is in no other column |
| KanbanBoard.DroppedCardInNewColumn | components/kanban-board.tsx:49-69 | after a drop, the moved card (with its new stage) is in the target column |
| KanbanBoard.Board.constructor | components/kanban-board.tsx:26-27 | the board starts showing the list it was mounted with |
| KanbanBoard.Board.GroupedRequests | components/kanban-board.tsx:63-69 | the columns shown are `Columns` of the current list, so ColumnsPartitionRequests holds of them |
| KanbanBoard.Board.HandleDrop | components/kanban-board.tsx:40-61 | unknown id: no update sent and nothing changes; known id: the update `(id, newStage)` is sent, the list becomes the optimistic map when saving succeeds and `initialRequests` when it fails |
| Gregorian.DaysInMonth | components/maintenance-calendar.tsx:21-23 | the length of a month is between 28 and 31 |
| Gregorian.FebruaryLength | components/maintenance-calendar.tsx:21-23 | February has 29 days iff the year is a leap year (divisible by 4, and not by 100 unless by 400), 28 otherwise |
| Gregorian.CenturyYears | components/maintenance-calendar.tsx:21-23 | February 1900 and 2100 have 28 days, February 2000 has 29 |
| Gregorian.YearLength | components/maintenance-calendar.tsx:21-27 | the day count grows by 366 over a leap year and 365 over any other |
| Gregorian.Weekday | components/maintenance-calendar.tsx:25-27 | `getDay` is in 0..6 |
| Gregorian.FirstDayOfMonth | components/maintenance-calendar.tsx:25-27 | the weekday of the 1st is in 0..6, 0 being Sunday as in `dayNames` |
| Gregorian.KnownWeekdays | components/maintenance-calendar.tsx:25-27 | 1970-01-01 is a Thursday, 2000-01-01 a Saturday, and February 2024 starts on a Thursday with 29 days |
| Gregorian.NextMonthStart | components/maintenance-calendar.tsx:21-27 | the 1st of the next month comes `daysInMonth` days after the 1st of this one |
| Gregorian.NextMonthFirstWeekday | components/maintenance-calendar.tsx:21-40 | the two helpers agree: the first weekday of the next month is `(firstDay + daysInMonth) mod 7` |
| Gregorian.FourHundredYearCycle | components/maintenance-calendar.tsx:25-27 | four hundred years later the same date is 146097 days on and falls on the same weekday |
| Gregorian.DayNumberWithinMonth | components/maintenance-calendar.tsx:92-93 | day `d + k` of a month is `k` days after day `d` |
| Gregorian.DayNumberWithinYear | components/maintenance-calendar.tsx:92-93 | a valid date's day count lies within its own year |
| Gregorian.DaysBeforeYearIncreasing | components/maintenance-calendar.tsx:92-93 | a later year starts later |
| Gregorian.DayNumberInjective | components/maintenance-calendar.tsx:95 | two valid dates have the same day count iff they are the same date |
| Gregorian.NormalizeMonth | components/maintenance-calendar.tsx:35-39 | the `Date` constructor carries a month outside 0..11 into the year so that 12·year + month is kept (after the two-digit year mapping of ConstructorYear) |
| Gregorian.NextMonth | components/maintenance-calendar.tsx:39 | the calendar month after; MonthRollover and PrevNextInverse state it |
| Gregorian.PrevMonth | components/maintenance-calendar.tsx:35 | the calendar month before; MonthRollover and PrevNextInverse state it |
| Gregorian.MonthIndexInjective | components/maintenance-calendar.tsx:35-39 | two normalised months are equal iff their month indexes are |
| Gregorian.MonthRollover | components/maintenance-calendar.tsx:34-40 | Next from December is January of year+1, Prev from January is December of year−1, otherwise the month moves by one in the same year; Next lands on the 1st of the next month |
| Gregorian.PrevNextInverse | components/maintenance-calendar.tsx:34-40 | Prev after Next, and Next after Prev, return to the same year and month |
| Gregorian.ConstructorYear | components/maintenance-calendar.tsx:35-39 | the year `new Date(year, …)` builds on: 1900 + year for 0..99, the year itself otherwise; the lemmas below state its effect |
| Gregorian.ConstructedNextMonth | components/maintenance-calendar.tsx:39 | `new Date(getFullYear(), getMonth() + 1)`; ConstructedMonthsOutsideTwoDigitYears and TwoDigitYearJump state it |
| Gregorian.ConstructedPrevMonth | components/maintenance-calendar.tsx:35 | `new Date(getFullYear(), getMonth() - 1)`; ConstructedMonthsOutsideTwoDigitYears and TwoDigitYearJump state it |
| Gregorian.ConstructedMonthsOutsideTwoDigitYears | components/maintenance-calendar.tsx:34-40 | outside the years 0..99 Previous and Next move exactly one calendar month back and on |
| Gregorian.ConstructedPrevNextInverse | components/maintenance-calendar.tsx:34-40 | Previous and Next undo each other whenever neither the start nor either press lands in the years 0..99 |
| Gregorian.TwoDigitYearJump | components/maintenance-calendar.tsx:34-40 | Previous from January 100 shows December 99, Next from December 99 shows January 2000, Previous from December 99 shows November 1999 |
| Gregorian.AdvanceMonthsIndex | components/maintenance-calendar.tsx:38-40 | `k` calendar months on, the month index has grown by `k` |
| Gregorian.TwelveNextsIsOneYear | components/maintenance-calendar.tsx:38-40 | twelve calendar months on is the same month one year later |
| Gregorian.PressNext | components/maintenance-calendar.tsx:38-40 | `k` presses of Next, each `new Date(getFullYear(), getMonth() + 1)`; the three lemmas below state where they land |
| Gregorian.PressNextOutsideTwoDigitYears | components/maintenance-calendar.tsx:38-40 | from a year above 99, or from a negative year while the presses end by January of year 0, `k` presses are `k` calendar months and grow the month index by `k` |
| Gregorian.TwelvePressesIsOneYear | components/maintenance-calendar.tsx:38-40 | in those years twelve presses of Next show the same month one year later |
| Gregorian.PressNextPastYearZero | components/maintenance-calendar.tsx:38-40 | the presses that reach January of year 0 go on to February 1900 with the next press, so twelve presses from February of year −1 show February 1900 |
| JsText.TrimStart | components/team-form.tsx:38 | the leading part removed is all whitespace, and what remains is a suffix that does not start with whitespace |
| JsText.TrimEnd | components/team-form.tsx:38 | the trailing part removed is all whitespace, and what remains is a prefix that does not end with whitespace |
| JsText.Trim | components/team-form.tsx:38 | `s.trim()`; TrimIsInnerSlice, TrimIdempotent and NoWhitespaceEndsUnchanged state it |
| JsText.TrimIsInnerSlice | components/team-form.tsx:38 | `trim` returns a slice of its input whose cut-off ends are whitespace and which neither starts nor ends with whitespace |
| JsText.TrimEndsWithoutWhitespace | components/team-form.tsx:38 | a non-empty trimmed text neither starts nor ends with whitespace |
| JsText.TrimIdempotent | components/team-form.tsx:38 | trimming twice is trimming once |
| JsText.NoWhitespaceEndsUnchanged | components/team-form.tsx:38 | a text that neither starts nor ends with whitespace is its own trim |
| JsText.Decimal | components/maintenance-calendar.tsx:30 | the decimal text is digits only, one digit below 10 and two digits from 10 to 99 |
| JsText.PadDecimal | components/maintenance-calendar.tsx:30 | the zero-padded text is digits only, of exactly the width when the number fits |
| JsText.DecimalLength | components/maintenance-calendar.tsx:30 | a number below 10^w has at most w decimal digits, so the padded field has exactly w |
| JsText.DecimalRoundTrip | components/maintenance-calendar.tsx:30 | reading back a number's decimal text gives the number |
| JsText.PadDecimalRoundTrip | components/maintenance-calendar.tsx:30 | reading back a zero-padded field gives the number: padding loses nothing |
| MaintenanceCalendar.IsoYear | components/maintenance-calendar.tsx:30 | the ISO year field is four digits worth the year for 0..9999, and otherwise a `-` or `+` sign followed by digits worth its magnitude, seven characters in all within JavaScript's date range |
| MaintenanceCalendar.SixDigitField | components/maintenance-calendar.tsx:30 | the magnitude of a signed year below 10^6 fills exactly six digits |
| MaintenanceCalendar.IsoDateText | components/maintenance-calendar.tsx:30 | the text is the year field, a dash, two digits worth the 1-based month, a dash and two digits worth the day |
| MaintenanceCalendar.DashedFields | components/maintenance-calendar.tsx:30 | in `year-mm-dd` the three fields sit at fixed offsets after the year |
| MaintenanceCalendar.IsoDateTextExample | components/maintenance-calendar.tsx:30 | 15 February 2024 is written `2024-02-15` |
| MaintenanceCalendar.IsoYearInjective | components/maintenance-calendar.tsx:30 | two years have the same ISO year text iff they are equal |
| MaintenanceCalendar.DashedFieldsSplit | components/maintenance-calendar.tsx:30 | a `YYYY-MM-DD` text with two-digit month and day splits back into its three fields |
| MaintenanceCalendar.IsoDateTextInjective | components/maintenance-calendar.tsx:30 | two valid dates give the same `YYYY-MM-DD` text iff they are the same date |
| MaintenanceCalendar.RequestsForDate | components/maintenance-calendar.tsx:29-32 | the requests shown on a day are exactly those whose `scheduled_date` equals that day's `YYYY-MM-DD` text |
| MaintenanceCalendar.RequestsForDateKeepsAllInOrder | components/maintenance-calendar.tsx:29-32 | the matches keep their input order and every matching request is retained, duplicates included |
| MaintenanceCalendar.RequestOnAtMostOneDay | components/maintenance-calendar.tsx:29-32 | a request is listed under at most one day |
| MaintenanceCalendar.MonthGrid | components/maintenance-calendar.tsx:42-45 | the grid is `firstDay` blanks followed by day cells 1..daysInMonth in increasing order |
| MaintenanceCalendar.DayCellsUnderTheirWeekday | components/maintenance-calendar.tsx:61-92 | every day cell sits in the column of its own weekday |
| MaintenanceCalendar.DayCellColumn | components/maintenance-calendar.tsx:88-93 | the cell of one day sits in the column of that day's weekday |
| MaintenanceCalendar.IsToday | components/maintenance-calendar.tsx:95 | the cell's date is today's date; TodayHighlightedOnce states what it highlights |
| MaintenanceCalendar.TodayHighlightedOnce | components/maintenance-calendar.tsx:95 | some cell is highlighted as today iff the shown month is today's month, and at most one cell is |
| MaintenanceCalendar.ChipLabel | components/maintenance-calendar.tsx:112 | a chip shows the first min(12, length) characters of the subject followed by `...` |
| MaintenanceCalendar.Calendar.constructor | components/maintenance-calendar.tsx:18-19 | the calendar starts on today's date |
| MaintenanceCalendar.Calendar.Rendered | components/maintenance-calendar.tsx:21-27 | the month the grid draws is the shown month, except that a shown year from 0 to 99 draws 1900 + year |
| MaintenanceCalendar.Calendar.HandlePrevMonth | components/maintenance-calendar.tsx:34-36 | the shown date becomes the 1st of the month `new Date(year, month - 1)` names, rolling back over January, and stays a valid date |
| MaintenanceCalendar.Calendar.HandleNextMonth | components/maintenance-calendar.tsx:38-40 | the shown date becomes the 1st of the month `new Date(year, month + 1)` names, rolling over December, and stays a valid date |
| MaintenanceCalendar.Calendar.Grid | components/maintenance-calendar.tsx:42-45 | the grid has `firstDay + daysInMonth` cells for the drawn month; MonthGrid states its layout |
| MaintenanceCalendar.Calendar.DayRequests | components/maintenance-calendar.tsx:92-94 | a day cell lists exactly the requests scheduled on that day of the drawn month |
| NewRequestForm.With | app/protected/requests/new/page.tsx:65-67 | `handleChange` sets the named field and leaves every other field unchanged |
| NewRequestForm.FieldsDetermineForm | app/protected/requests/new/page.tsx:24-40 | two forms with the same value in every field are equal |
| NewRequestForm.WithCurrentValueIsIdentity | app/protected/requests/new/page.tsx:65-67 | writing a field's current value back changes nothing |
| NewRequestForm.InitialForm | app/protected/requests/new/page.tsx:24-40 | the form starts Corrective, for Equipment, with empty subject and ids, today's request date and the default company |
| NewRequestForm.Payload | app/protected/requests/new/page.tsx:79-91 | the record inserted; PayloadShape states every field |
| NewRequestForm.PayloadShape | app/protected/requests/new/page.tsx:79-91 | `equipment_id` is the form's when the toggle is Equipment and null otherwise, and symmetrically for `work_center_id`, so exactly one is non-null; stage is `New`; `duration_hours` is null iff the input is empty and the parsed number otherwise; subject, type, category, team and scheduled date are copied verbatim |
| NewRequestForm.UnsentFieldsDoNotReachPayload | app/protected/requests/new/page.tsx:79-91 | editing technician, priority, notes, instructions, request date, company or the `maintenance_for` text does not change the payload |
| NewRequestForm.InactiveSelectionDoesNotReachPayload | app/protected/requests/new/page.tsx:83-84 | editing the reference of the inactive target does not change the payload |
| NewRequestForm.Submit | app/protected/requests/new/page.tsx:69-91 | submitting fails with "Not authenticated" iff there is no user, and otherwise yields the payload for that user |
| NewRequestForm.PressSave | app/protected/requests/new/page.tsx:127-133 | a press of Save is blocked iff the subject or the active target's select is empty, and otherwise runs `handleSubmit` |
| NewRequestForm.SavedRecordIsComplete | app/protected/requests/new/page.tsx:163-197 | every record that reaches the database has a subject and exactly one non-empty target reference, the chosen one |
| NewRequestForm.NewRequestPage.constructor | app/protected/requests/new/page.tsx:18-40 | the page starts with the initial form and the toggle on Equipment |
| NewRequestForm.NewRequestPage.HandleChange | app/protected/requests/new/page.tsx:65-67 | one field is replaced, the toggle is unchanged |
| NewRequestForm.NewRequestPage.SetMaintenanceFor | app/protected/requests/new/page.tsx:143-158 | the toggle changes and `formData` does not, so the other target's id is kept |
| NewRequestForm.NewRequestPage.Save | app/protected/requests/new/page.tsx:69-91 | a press of Save on the current form and toggle; PressSave, Submit and SavedRecordIsComplete carry the promises |
| TeamForm.CanAdd | components/team-form.tsx:38 | the add condition: the trimmed input is non-empty and not yet a member; AddMember and HandleAddMember state its effect |
| TeamForm.TextOr | components/team-form.tsx:26-29 | `value || fallback` gives the fallback iff the value is absent or empty (or is the fallback itself), and the value otherwise |
| TeamForm.Defaults | components/team-form.tsx:25-30 | without initial data the form is empty with no members and the default company; otherwise name and description are the loaded text or `""`, the company the loaded text or the default company, and the members the loaded list (`[]` when absent); the company is never empty |
| TeamForm.AddMember | components/team-form.tsx:37-45 | the trimmed input is appended iff it is non-empty and not yet a member; otherwise the list is unchanged |
| TeamForm.RemoveMember | components/team-form.tsx:47-52 | the remaining members are exactly the old ones other than the removed name |
| TeamForm.AddAppendsAtEnd | components/team-form.tsx:41 | add keeps the existing members in order at the front and appends at most one new, non-empty trimmed name |
| TeamForm.AddKeepsNoDuplicates | components/team-form.tsx:38-42 | a duplicate-free list stays duplicate-free after add |
| TeamForm.AddTwiceIsAddOnce | components/team-form.tsx:38-42 | adding the same input twice equals adding it once |
| TeamForm.RemoveKeepsOthersInOrder | components/team-form.tsx:47-52 | remove keeps every other member, in order, and keeps a list duplicate-free |
| TeamForm.AddThenRemoveRestores | components/team-form.tsx:41-50 | adding a fresh name and then removing it restores the original list |
| TeamForm.CleanedData | components/team-form.tsx:73-78 | the row keeps the name, and maps an empty description, empty member list or empty company to null and keeps them otherwise |
| TeamForm.SaveThenEditRestoresForm | components/team-form.tsx:25-78 | a saved team with a company, opened again for editing, shows the same form |
| TeamForm.ClearedCompanyComesBackAsDefault | components/team-form.tsx:25-78 | a team saved with an empty company comes back with the default company |
| TeamForm.Submit | components/team-form.tsx:61-94 | submitting fails with "User not authenticated" iff there is no user; otherwise it writes the cleaned row, as an update of the initial id when that id is non-empty and as an insert owned by the user otherwise |
| TeamForm.PressSave | components/team-form.tsx:106-112 | a press of Save Team is blocked iff the name is empty, and otherwise runs `handleSubmit` |
| TeamForm.SavedTeamHasName | components/team-form.tsx:112 | every team row that reaches the database has a name |
| TeamForm.TeamFormState.constructor | components/team-form.tsx:19-30 | the form starts from the defaults with an empty member input |
| TeamForm.TeamFormState.HandleChange | components/team-form.tsx:32-35 | one field is replaced, the members and the member input are unchanged |
| TeamForm.TeamFormState.SetMemberInput | components/team-form.tsx:121 | typing changes only the member input |
| TeamForm.TeamFormState.HandleAddMember | components/team-form.tsx:37-45 | the members become the add result and the input is cleared iff the name was added; otherwise both stay unchanged |
| TeamForm.TeamFormState.HandleRemoveMember | components/team-form.tsx:47-52 | the members become the remove result, the input is unchanged |
| TeamForm.TeamFormState.Save | components/team-form.tsx:61-94 | a press of Save Team on the current form and initial data; PressSave and Submit carry the promises |
| Dashboard.DashboardStats | app/protected/dashboard/page.tsx:27-32 | all counters are 0 when the query returned null, and `total` is the number of requests otherwise |
| Dashboard.StageFilterCountsPositions | app/protected/dashboard/page.tsx:29-31 | a stage counter is the number of positions in the list holding a request of that stage |
| Dashboard.CountersCountStages | app/protected/dashboard/page.tsx:27-32 | `new`, `inProgress` and `repaired` count the positions whose stage is exactly that string, and each is at most `total` |
| Dashboard.CountersSumToTotalUnlessScrapOrUnknown | app/protected/dashboard/page.tsx:27-32 | new + inProgress + repaired ≤ total, with equality iff the query returned null or no request is in `Scrap` or an unknown stage |
| Dashboard.CountersMatchBoardColumns | app/protected/dashboard/page.tsx:29-31 | each counter equals the size of the board column of that stage |

## Left out

- Supabase I/O is not modelled. This covers `select`, `insert`, `update`, `auth.getUser` and the router. A write's result is an `Outcome` parameter or a returned payload, and the user is an `Option` parameter. The error message a failed insert would show, and `isLoading` / `error` flags, are not modelled.
- `loadData` on the new-request page is not modelled. It only fills the selection lists from the database.
- KanbanBoard.Board.HandleDrop: one drop is modelled as atomic with a given outcome. Interleavings of several in-flight updates, and the stale `requests` captured by `useCallback`, are not modelled.
- `handleDragStart` and `handleDragOver` are not modelled. They only set browser drag-and-drop effects.
- Dates are (year, month, day) triples, and "today" is a parameter. The following JavaScript `Date` behaviour is not modelled:
  - `toISOString` works in UTC and can shift the day away from the local date;
  - `toDateString` reads the local clock.
  Both are taken to agree with the local calendar date.
- MaintenanceCalendar.Calendar.HandlePrevMonth / HandleNextMonth: `Date` values outside JavaScript's ±8.64·10^15 ms range, which JavaScript turns into an invalid date, are not modelled.
- NewRequestForm.PayloadShape: `Number.parseFloat` is an opaque function parameter. Floating-point parsing itself is not modelled; only the empty-versus-present rule is.
- MaintenanceCalendar.ChipLabel: characters stand for UTF-16 code units. `substring` counts code units, so a subject with characters outside the Basic Multilingual Plane is not modelled.
- NewRequestForm.NewRequestPage.HandleChange accepts every field, but the page has no named input for `company` (it is disabled), `priority` or `maintenance_for`. So those edits never happen on the page.
- Constraint validation is modelled only for the `required` attributes. The browser's handling of `type="date"` and `type="datetime-local"` values is not modelled.
- The `maintenance_for` text in `formData` is never written by the page. The payload uses the separate toggle state, as the model does.
- Pages and components other than these five are not part of this model. They are plain CRUD pages, lists, cards, navigation and auth screens.
- Markup, styling and the month and day name tables are not modelled.
