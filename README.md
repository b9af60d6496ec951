# Fleet dashboard rules in Dafny

This project models the rules of a fleet-operations dashboard. The dashboard is a set of
React pages over Supabase and Firestore tables. The model covers the rules those pages
apply to the rows they fetch:

- the status a vehicle shows for its pause window, on the pause page and on the vehicle list;
- the half-hour time choices of the forms, and the 12-hour to 24-hour clock conversion;
- saving and releasing a pause;
- the record filters of every list page;
- the dashboard totals and completion percentage;
- the collections page: durations, 12-hour times, the grand total, paging and its three writes;
- the uploaded drop sheets: loading, status and name edits, filtering and CSV export, in the
  Supabase and the Firestore version;
- the Zoomcar booking tracker: form record, filters, earnings, OTP toggle, status edits;
- the drops report: its date and pickup columns, dates, rows and three histograms.

Timestamps are integer milliseconds, with `null` as `None`. The current instant is a
parameter. A JavaScript value that may be `null`, `undefined` or `""` is an
`Option<string>`: `None` and `""` are falsy (`Strings.Truthy`). A plain object used as a
counter (`map[k] = (map[k] || 0) + 1`, read back with `Object.entries`) is the `Tally`
module: its entries in insertion order, every key counted as an own entry (keys that are
`Object.prototype` property names are the exception, see "## Left out"). Where a page changes state step by step (a loop
filling a list or a counter, a page object with fields), the model is a method with loop
invariants or a class with `modifies` clauses. Where a page computes a value, the model is
a function with lemmas about it.

Modules, one per source file, plus shared ones:

- `Wrappers`, `Strings`, `Lists`, `Tally`, `Clock`, `Records`: options, text,
  sequences, counters, clock arithmetic, and the table rows.
- `PauseVehicle`, `AllVehicles`, `Dashboard`, `PayPending`, `ZoomcarTracker`,
  `TodayDropsReport`: one page each.
- `UploadSheet`: what the two uploaded-sheet tables share (the filter predicate, the CSV
  export, loading rows).
- `DataTableSupabase` and `DataTable`: the two uploaded-sheet pages themselves.

The pause page and the vehicle list derive a vehicle's status by two different rules. The
model keeps both and proves exactly where they disagree (`AllVehicles.StatusAgreement`).
The vehicle list's rule is the one that makes a pause with a future start and no end
"Upcoming Pause". The pause page's rule requires both bounds, and that is what its code
does, so the model follows the code there.

## Model

| member | source | states |
|---|---|---|
| PauseVehicle.GenerateTimeOptions | src/components/PauseVehicle.jsx:41-51 | the nested loops yield 48 options, in order; option i is the text of hour i/2 and minute 0 or 30 by the parity of i (read back by `PauseVehicle.ClockRoundTrip`) |
| PauseVehicle.ClockRoundTrip | src/components/PauseVehicle.jsx:41-57 | every generated option, read back by the AM/PM rules of `combineDateTime`, gives the 24-hour hour and the minute it was made from |
| Clock.TwelveHourRoundTrip | src/components/PauseVehicle.jsx:45-46 | the 12-hour hour is in 1..12, and converting it back with its AM/PM suffix gives the original hour (0 is 12 AM, 12 is 12 PM) |
| PauseVehicle.CombineDateTime | src/components/PauseVehicle.jsx:52-61 | no instant (null) exactly when the date or the time text is empty; any instant it yields lies within the range of a JavaScript date; which instant a present date and time give is stated by `PauseVehicle.CombineChoiceAt` |
| PauseVehicle.CalendarRoundTrip | src/components/PauseVehicle.jsx:58 | a `yyyy-mm-dd` text of digits splits at '-' into its three numbers |
| PauseVehicle.CombineChoiceAt | src/components/PauseVehicle.jsx:52-60 | a date text reading as year, month and day, with option i of the time list, gives the instant i half hours after midnight of that day (month m being month index m - 1), or an invalid date beyond the representable range |
| PauseVehicle.OptionOffset | src/components/PauseVehicle.jsx:41-49 | option i of the time list, as hour i/2 and minute 0 or 30, lies i half hours after midnight |
| PauseVehicle.OptionClock | src/components/PauseVehicle.jsx:41-57 | option i of the time list is a non-empty text that reads back as hour i/2 and minute 0 or 30 |
| PauseVehicle.CombineOption | src/components/PauseVehicle.jsx:41-60 | a parsed date text combined with option i of the time list itself gives the instant i half hours after midnight of that day |
| Clock.TimeClip | src/components/PauseVehicle.jsx:59-60 | an instant is a valid date exactly when it lies within ±8.64e15 ms, and then it is kept unchanged |
| Clock.Epoch | src/components/PauseVehicle.jsx:59 | midnight of 1 January 1970 is instant 0, with the year written 1970 or 70 (a year 0..99 means 1900 plus it) |
| Clock.DateExample | src/components/PauseVehicle.jsx:59 | 15 March 2024 at 14:30 (month index 2) is instant 1710513000000 |
| Clock.ClockCarries | src/components/PauseVehicle.jsx:59 | one more minute is 60000 ms later; minute 60 is the next hour; hour 24 is the next day |
| Clock.MonthCarriesForward | src/components/PauseVehicle.jsx:59 | month index 12 is January of the next year |
| Clock.MonthCarriesBackward | src/components/PauseVehicle.jsx:59 | month index -1 is December of the previous year |
| Clock.MarchYearLength | src/components/PauseVehicle.jsx:59 | a year counted from March lasts 366 days exactly when the February closing it is a Gregorian leap one (divisible by 4, and by 400 when by 100) |
| Clock.MonthLength | src/components/PauseVehicle.jsx:59 | from the first of a month (January to November) to the first of the next there are as many days as that month has in the calendar, February 29 in leap years |
| Clock.DecemberLength | src/components/PauseVehicle.jsx:59 | from 1 December to 1 January of the next year there are 31 days |
| Clock.MonthRollsOver | src/components/PauseVehicle.jsx:59 | the day after the last day of any month, at the same hour and minute, is the first of the next month, December rolling into January |
| PauseVehicle.Submit | src/components/PauseVehicle.jsx:62-74 | the checks of `addPause` in order, each outcome exactly when its condition holds: no vehicle selected; a bound that throws; no bound throws but one is missing; both present and the end not after the start; and saved, with the start before the end, whenever both are present in order |
| PauseVehicle.PauseWhere | src/components/PauseVehicle.jsx:75-84 | the vehicle with the id gets the new window, the Rentelo id and the pauser (empty text as null) and status "Block"; every other vehicle is unchanged |
| PauseVehicle.SavedPauseStatus | src/components/PauseVehicle.jsx:75-84 | after a save, the vehicle shows Upcoming Pause before the start, Paused from the start to the end inclusive, and Active after the end |
| PauseVehicle.PausePage.AddPause | src/components/PauseVehicle.jsx:62-104 | on a saved outcome the vehicle is updated if that write succeeds, one history entry with the same start, end, Rentelo id and pauser is appended if that insert succeeds, and the form is cleared and closed either way; on any other outcome nothing changes |
| PauseVehicle.PausePage.OpenForm | src/components/PauseVehicle.jsx:236 | the Add Pause button selects the vehicle the form will pause and opens the form; the tables and the form's fields are unchanged |
| PauseVehicle.PausePage.constructor | src/components/PauseVehicle.jsx:6-17 | the page starts with no selection, an empty form, and the form closed |
| PauseVehicle.ReleaseWhere | src/components/PauseVehicle.jsx:105-117 | the vehicle with the id becomes "Active" with start, end, Rentelo id and pauser cleared; the others are unchanged |
| PauseVehicle.ReleasedIsActive | src/components/PauseVehicle.jsx:105-127 | a released vehicle has block status "Active" and shows Active at every instant |
| PauseVehicle.PausePage.ReleasePause | src/components/PauseVehicle.jsx:105-117 | the vehicles table becomes the release of that id if the write succeeds, and stays as it was otherwise; nothing else changes |
| PauseVehicle.GetStatus | src/components/PauseVehicle.jsx:118-127 | Paused exactly when both bounds are present and start <= now <= end; Upcoming Pause exactly when both are present and now < start; Active otherwise |
| PauseVehicle.ChoicesSpec | src/components/PauseVehicle.jsx:128-129 | the model and location choices hold each column value once, null included, and nothing else, in the order the values first appear in the vehicle list |
| PauseVehicle.FilteredVehicles | src/components/PauseVehicle.jsx:130-137 | no list (a throw) exactly when some vehicle has no vehicle number; otherwise at most as many vehicles as fetched |
| PauseVehicle.FilteredVehiclesSpec | src/components/PauseVehicle.jsx:130-137 | the filtered list keeps the fetched order and holds exactly the vehicles matching the search and every set drop-down, each as many times as fetched |
| PauseVehicle.NoFilterKeepsAll | src/components/PauseVehicle.jsx:130-137 | with nothing set, every vehicle shows |
| AllVehicles.GetStatus | src/components/AllVehicles.jsx:50-63 | Paused exactly when both bounds are present and now is between them inclusive; Upcoming Pause exactly when not paused and the start is after now, whatever the end |
| AllVehicles.StatusAgreement | src/components/AllVehicles.jsx:55-63 | this page and the pause page disagree exactly on a start in the future with no end, shown here as Upcoming Pause and there as Active |
| AllVehicles.ReleasedIsActive | src/components/AllVehicles.jsx:57-63 | a vehicle released on the pause page shows Active on this page at every instant |
| AllVehicles.FilteredSpec | src/components/AllVehicles.jsx:79-93 | the shown list keeps the fetched order and holds exactly the vehicles passing all five criteria, each as many times as fetched |
| AllVehicles.NoFiltersKeepAll | src/components/AllVehicles.jsx:79-93 | with no filter set, every vehicle shows |
| AllVehicles.SearchNeedsAField | src/components/AllVehicles.jsx:86-89 | a non-empty search never shows a vehicle with neither a vehicle number nor a Rentelo id |
| Strings.UniqueOfSpec | src/components/AllVehicles.jsx:95 | the drop-down choices hold no value twice, hold exactly the non-empty values of the column, and come in the order those values first appear in it; the booking tracker's drop-downs (src/components/ZoomcarTracker.jsx lines 150-152) follow the same rule |
| Strings.PresentValuesOrder | src/components/AllVehicles.jsx:95 | dropping the missing and empty values keeps the order in which the remaining values first appear |
| Lists.FilterCount | src/components/AllVehicles.jsx:79-93 | a filter keeps every copy of a value that passes and no copy of one that does not |
| Dashboard.ComputeTotals | src/Dashboard.jsx:50-83 | vehicle, record and follow-up counts; paused vehicles (status paused, block or blocked) at most all vehicles; pending plus paid equals all records; the two sums; location counts adding up to the fleet size |
| Dashboard.VehiclesByLocation | src/Dashboard.jsx:66-70 | the loop yields one entry per distinct location key, in first-met order ("Unknown" for none); each count is the number of vehicles there, and the counts sum to the fleet size |
| Tally.TabulateSpec | src/Dashboard.jsx:66-70 | counting keys into an object adds, for every key, the number of times it was met, adds the number of keys met to the total, keeps keys distinct, and lists exactly the old keys and the keys met |
| Tally.TabulateKeysOrder | src/Dashboard.jsx:66-70 | the keys of a counter filled from empty are listed in the order they were first met, once each |
| Dashboard.PaidCount | src/Dashboard.jsx:55-64 | the records that are not pending are exactly those whose lower-cased status is "paid" |
| Dashboard.PendingAmountPartition | src/Dashboard.jsx:55-60 | the pending total is what all records owe less what the paid records owe |
| Dashboard.Round | src/Dashboard.jsx:87 | `Math.round` gives the integer within half a unit, halves rounded up |
| Dashboard.CompletionPercent | src/Dashboard.jsx:85-88 | 0 without records; otherwise within half a unit of 100·paid/total (what `Math.round` gives); within 0..100 when paid <= total; 100 when all are paid; 0 when none is |
| PayPending.DiffDuration | src/components/PayPendingPage.jsx:6-17 | "—" when either instant is missing; otherwise the text of the days, hours and minutes in the elapsed whole seconds (0 when the end is before the start) |
| PayPending.BreakdownUnique | src/components/PayPendingPage.jsx:10-16 | the breakdown is the one with hours below 24 and minutes below 60 that adds back to the elapsed seconds less under a minute |
| PayPending.Format12Hour | src/components/PayPendingPage.jsx:22-33 | "—" exactly when there is no instant |
| PayPending.Format12HourReadsBack | src/components/PayPendingPage.jsx:22-33 | the text reads back as its day, month and year and, in 12-hour form, its 24-hour hour and minute |
| PayPending.GrandTotalCons | src/components/PayPendingPage.jsx:111-118 | the grand total adds a record's three amounts exactly when its status is not "paid" |
| PayPending.GrandTotalMatchesDashboard | src/components/PayPendingPage.jsx:111-118 | when no status is "paid" in other letter case, the grand total equals the dashboard's pending amount |
| PayPending.CapitalisedPaidDisagrees | src/components/PayPendingPage.jsx:113 | a record with status "Paid" that owes something makes this total differ from the dashboard's |
| PayPending.FirstPage | src/components/PayPendingPage.jsx:120-129 | page 1 shows the first twelve matching records, or all of them if fewer, in fetched order, and nothing that does not match |
| PayPending.EmptySearchKeepsAll | src/components/PayPendingPage.jsx:120-126 | an empty search keeps every record |
| PayPending.Prepared | src/components/PayPendingPage.jsx:173-184 | the saved total is the sum of the three amounts; with both ride bounds the duration is never negative, is the nearest whole number of minutes for a non-negative interval, and is 0 for a negative one; no other field changes |
| PayPending.RoundMinutesNearest | src/components/PayPendingPage.jsx:177-180 | the rounded minutes are within half a minute of the interval |
| PayPending.PayPendingPage.Save | src/components/PayPendingPage.jsx:173-202 | nothing without a record being edited; otherwise the prepared record updates its id's rows or is inserted first, if the write succeeds, and the form closes in either case |
| PayPending.MarkPaidWhere | src/components/PayPendingPage.jsx:104-108 | the records with the id get status "paid"; every other record is unchanged |
| PayPending.MarkPaidTotal | src/components/PayPendingPage.jsx:95-118 | after marking a record paid, the grand total is that of the list without it |
| PayPending.PayPendingPage.MarkPaid | src/components/PayPendingPage.jsx:95-109 | the list is unchanged on a failed write and marked otherwise |
| PayPending.MarkPaidTwice | src/components/PayPendingPage.jsx:511-518 | marking the same id paid twice is marking it once |
| PayPending.PayPendingPage.PressMarkPaid | src/components/PayPendingPage.jsx:511-518 | a Mark Paid button marks the record paid in the list whether or not the write succeeds; the buttons at lines 583-588 and 672-677 update the list the same way |
| PayPending.PayPendingPage.AddFollow | src/components/PayPendingPage.jsx:84-94 | nothing is written when the executive name or the remarks are empty; otherwise the entry is added if the write succeeds, the record's list is fetched again (newest first) and the draft cleared |
| PayPending.FollowUpListed | src/components/PayPendingPage.jsx:75-94 | an added follow-up is listed for its own record, first, ahead of the ones listed before, and for no other record |
| PayPending.PayPendingPage.constructor | src/components/PayPendingPage.jsx:35-51 | the page starts with the fetched tables, no record being edited, the form closed and an empty draft |
| UploadSheet.HeaderIndex | src/components/DataTableSupabase.jsx:46-51 | the first header whose lower-cased text contains the word, or -1 exactly when none does; the Firestore page (src/components/DataTable.jsx lines 48-53) has the same rule |
| UploadSheet.LoadRows | src/components/DataTableSupabase.jsx:92-101 | the loop yields the rows in fetched order, and the status and name maps keyed by row id; the Firestore snapshot (src/components/DataTable.jsx lines 75-86) is read the same way |
| UploadSheet.MapOfKeys | src/components/DataTableSupabase.jsx:92-98 | the map's ids are exactly the fetched rows' ids |
| UploadSheet.MapOfValues | src/components/DataTableSupabase.jsx:92-98 | each id maps to the value of the last row carrying it |
| UploadSheet.LoadedAssignments | src/components/DataTableSupabase.jsx:92-101 | with distinct ids, each loaded row shows the status and the name stored with it |
| UploadSheet.AutoSelect | src/components/DataTableSupabase.jsx:62-64 | the chosen version is kept; with none chosen, the first listed version is chosen; the drops report (src/components/TodayDropsReport.jsx lines 94-95) has the same rule |
| UploadSheet.NotSelectedStatus | src/components/DataTableSupabase.jsx:145-148 | the "not selected" status filter keeps exactly the rows with no status, and rows whose status is that marker text |
| UploadSheet.VisibleSpec | src/components/DataTableSupabase.jsx:353-372 | the table shows, in order, exactly the rows passing the status, name, pickup and booking tests, each as many times as loaded; the Firestore page (src/components/DataTable.jsx lines 332-351) filters the same way |
| UploadSheet.NoCriteriaShowsAll | src/components/DataTableSupabase.jsx:353-372 | with no filter set, every row shows |
| UploadSheet.ExportRow | src/components/DataTableSupabase.jsx:140-158 | a row passes the export exactly when it passes the table's filter, and its line is its cells, status and name joined by commas |
| UploadSheet.DownloadCsv | src/components/DataTableSupabase.jsx:138-160 | the export is the header line with Status and Name, then one line per row the table shows, in table order, each ended by a newline; the Firestore page (src/components/DataTable.jsx lines 117-139) exports the same way |
| UploadSheet.ExportNoRows | src/components/DataTableSupabase.jsx:139 | without rows the export is the header cells joined by commas with Status and Name appended, and a newline |
| UploadSheet.ExportSnoc | src/components/DataTableSupabase.jsx:140-159 | one more row adds its line to the export exactly when it passes |
| UploadSheet.LinesJoin | src/components/DataTableSupabase.jsx:139-158 | the export is its lines joined by newlines, with a final newline |
| UploadSheet.LinesSplit | src/components/DataTableSupabase.jsx:139-158 | read back at newlines, the export gives its lines and an empty last piece |
| UploadSheet.RowFields | src/components/DataTableSupabase.jsx:158 | when no value holds a comma, a data line reads back as its cells, then its status, then its name (no escaping) |
| UploadSheet.EditShown | src/components/DataTableSupabase.jsx:109-126 | after a stored row is edited and reloaded, it shows the new value and its cells; every other row and the other drop-down show what they showed; an unknown id changes nothing |
| DataTableSupabase.SupabaseSheet.HandleStatusChange | src/components/DataTableSupabase.jsx:109-116 | the stored row is updated only if the write succeeds; the page's status map gets the new value for that row in any case; no other entry changes |
| DataTableSupabase.SupabaseSheet.HandleNameChange | src/components/DataTableSupabase.jsx:119-126 | the same for the name |
| DataTableSupabase.EditedMatchesRefetch | src/components/DataTableSupabase.jsx:109-126 | when the page showed what is stored and the write succeeds, the edited map agrees with a fresh fetch on every row |
| DataTableSupabase.SupabaseSheet.LoadVersions | src/components/DataTableSupabase.jsx:54-68 | the versions are the ids as received, latest first from the backend, and the first is chosen when none is; a failed read changes nothing |
| DataTableSupabase.SupabaseSheet.FetchRows | src/components/DataTableSupabase.jsx:88-102 | on success the rows and both maps are rebuilt from the stored rows; on failure nothing changes |
| DataTableSupabase.SupabaseSheet.constructor | src/components/DataTableSupabase.jsx:34-39 | the page starts with no versions, no selection, and an empty table |
| DataTable.FirestoreSheet.LoadVersions | src/components/DataTable.jsx:54-65 | the versions are the ids sorted and reversed; the first is chosen when none is |
| Strings.SortedDescendingSpec | src/components/DataTable.jsx:58 | `sort().reverse()` gives a permutation of the ids, from greatest to least as text; the drops report (src/components/TodayDropsReport.jsx line 140) sorts its available dates the same way |
| DataTable.FirestoreSheet.OnSnapshot | src/components/DataTable.jsx:72-88 | the rows and both maps are rebuilt from the stored documents |
| DataTable.FirestoreSheet.HandleStatusChange | src/components/DataTable.jsx:94-100 | only the stored documents change, by a merge, when the write succeeds; the table waits for the next snapshot |
| DataTable.FirestoreSheet.HandleNameChange | src/components/DataTable.jsx:101-107 | the same for the name |
| DataTable.MergeShown | src/components/DataTable.jsx:94-107 | after the merge and its snapshot, the row shows the new value and its cells, whether or not it existed; every other row and the other drop-down are unchanged |
| DataTable.FirestoreSheet.constructor | src/components/DataTable.jsx:37-42 | the page starts with no versions, no selection, no documents and an empty table |
| ZoomcarTracker.TimeOptions | src/components/ZoomcarTracker.jsx:19-23 | there are 48 choices |
| ZoomcarTracker.TimeOptionChars | src/components/ZoomcarTracker.jsx:19-23 | choice i is the two digits of i/2, a colon, and "00" or "30" by the parity of i |
| ZoomcarTracker.TimeOptionsSpec | src/components/ZoomcarTracker.jsx:19-23 | the choices strictly increase as text, and choice i reads back as 30·i minutes |
| ZoomcarTracker.ToggleOtp | src/components/ZoomcarTracker.jsx:92-93 | flips the visibility of that booking's OTP only |
| ZoomcarTracker.ToggleTwice | src/components/ZoomcarTracker.jsx:92-93 | toggling twice restores every visibility |
| ZoomcarTracker.BookingDataSpec | src/components/ZoomcarTracker.jsx:101-115 | start and end split at the space into the date and time typed; the mail date only has its first "T" replaced; earnings are 0 for text that is not a plain digit string, and so never negative under the number reading described under Left out; the booking passes the date filter for its own start date |
| ZoomcarTracker.FilteredBookingsSpec | src/components/ZoomcarTracker.jsx:153-174 | the shown bookings keep the fetched order and are exactly those passing every set criterion, each as many times as fetched |
| ZoomcarTracker.ChoicesSelect | src/components/ZoomcarTracker.jsx:150-152 | the model, booking-status and ride-status drop-downs offer a non-empty value exactly when choosing it alone leaves at least one booking shown |
| ZoomcarTracker.ResetKeepsAll | src/components/ZoomcarTracker.jsx:404-411 | after a reset every booking shows, in order |
| ZoomcarTracker.EarningsPartition | src/components/ZoomcarTracker.jsx:175-178 | the shown total plus the hidden total is the total of all bookings; after a reset the shown total is that total |
| ZoomcarTracker.SetStatus | src/components/ZoomcarTracker.jsx:525-539 | a failed update changes nothing; otherwise only the bookings with that id change, and only in the edited field |
| ZoomcarTracker.SetStatusSpec | src/components/ZoomcarTracker.jsx:568-582 | a status change keeps the total earnings, and the changed booking passes the filter on the new status |
| TodayDropsReport.PickStatusColor | src/components/TodayDropsReport.jsx:34-45 | Other's colour for an empty status; a key's own colour; no colour exactly when no earlier rule applies and the text contains "pause", or contains "pend" but not "extend" |
| TodayDropsReport.PausedHasNoColor | src/components/TodayDropsReport.jsx:40 | a status "Paused" gets no colour |
| TodayDropsReport.PickStatusColorCorrected | src/components/TodayDropsReport.jsx:34-45 | agrees with the page's colour wherever the page gives one |
| TodayDropsReport.CorrectedColorIsAStatusColor | src/components/TodayDropsReport.jsx:18-25 | the corrected choice always gives one of the six status colours |
| TodayDropsReport.DropIndex | src/components/TodayDropsReport.jsx:73-76 | the first header containing "drop", or -1 exactly when there is none |
| TodayDropsReport.FirstKeyIndex | src/components/TodayDropsReport.jsx:78-87 | -1 exactly when no header contains any of the keys |
| TodayDropsReport.PickupIndex | src/components/TodayDropsReport.jsx:78-87 | the loop returns the first header matching the earliest key that any header matches |
| TodayDropsReport.PickupKeysShadowed | src/components/TodayDropsReport.jsx:80 | "drop location" and "pickup_location" never decide the column: the result is that of the other four keys |
| TodayDropsReport.DatesMetSpec | src/components/TodayDropsReport.jsx:133-138 | the date set holds each non-empty drop date of the rows once, and nothing else |
| TodayDropsReport.AvailableDates | src/components/TodayDropsReport.jsx:133-139 | the loop builds the date set (empty without a drop column) and returns it sorted and reversed |
| TodayDropsReport.AvailableDatesSpec | src/components/TodayDropsReport.jsx:133-139 | the offered dates hold no repeat, run from greatest to least as text, and are exactly the non-empty drop dates, none without a drop column |
| TodayDropsReport.FilteredRowsSpec | src/components/TodayDropsReport.jsx:153-161 | all rows for "all" or without a drop column; otherwise, in order, exactly the rows whose date before "T" is the chosen one, each as many times as loaded |
| TodayDropsReport.CountStatuses | src/components/TodayDropsReport.jsx:165-169 | the first loop counts every row under its status, or "Other" |
| TodayDropsReport.ListCommon | src/components/TodayDropsReport.jsx:170-171 | the second loop lists each missing common status at 0 |
| TodayDropsReport.StatusCounts | src/components/TodayDropsReport.jsx:163-172 | the status counts are the rows tallied by status, with the common statuses listed |
| TodayDropsReport.StatusTallySpec | src/components/TodayDropsReport.jsx:163-172 | the counts sum to the row count; each is the number of rows with that status; the six common statuses are all listed; no status is listed twice |
| TodayDropsReport.EnsureAllSpec | src/components/TodayDropsReport.jsx:170-171 | listing statuses at 0 changes no count and no total, and adds exactly those keys |
| TodayDropsReport.ZeroAgents | src/components/TodayDropsReport.jsx:176 | the first loop sets every master agent to 0 |
| TodayDropsReport.ZeroesSpec | src/components/TodayDropsReport.jsx:176 | every master agent is listed once, at 0, in master order |
| TodayDropsReport.CountAgents | src/components/TodayDropsReport.jsx:177-180 | the second loop counts every row under its name, or "Unassigned" |
| TodayDropsReport.AgentCounts | src/components/TodayDropsReport.jsx:174-182 | the agent counts are the rows tallied by name on top of the master list at 0 |
| TodayDropsReport.AgentTallySpec | src/components/TodayDropsReport.jsx:174-182 | the counts sum to the row count; each is the number of rows with that name; every master agent is listed, first and in master order; nothing is listed twice |
| TodayDropsReport.AgentMasterSpec | src/components/TodayDropsReport.jsx:100-102 | the master list is sorted by the given order, repeats no agent, and holds exactly the names read ("Unassigned" for none) |
| TodayDropsReport.Colored | src/components/TodayDropsReport.jsx:191-195 | each entry keeps its place and count and takes palette colour idx mod 10 |
| TodayDropsReport.CountLocations | src/components/TodayDropsReport.jsx:185-189 | the counter after the loop is the tally of the pickup cells in row order ("Unknown" for none) |
| TodayDropsReport.LocationCounts | src/components/TodayDropsReport.jsx:184-195 | the loop tallies the rows by pickup cell ("Unknown" for none) and colours the entries by position |
| TodayDropsReport.LocationTallySpec | src/components/TodayDropsReport.jsx:184-195 | the counts sum to the row count; each is the number of rows at that place; the places are listed once each, in first-met order |
| TodayDropsReport.NoPickupColumn | src/components/TodayDropsReport.jsx:186-189 | without a pickup column, every row is counted under "Unknown" and nothing else is counted |

## Left out

- Network I/O is not modelled: every Supabase and Firestore read and write, and the
  realtime subscriptions. A fetched table is a sequence. Each write the model covers takes
  its outcome as a parameter (`ok`; `updated` and `inserted` for the two writes of
  `addPause`); where the page ignores an error, the model does the rest of the handler
  either way. The ordering of fetches and refetches is left out, as are the `mounted` guards.
- A Mark Paid button does not wait for `markPaid`. The model applies the button's own list
  update first and the write's afterwards (`PayPending.PayPendingPage.PressMarkPaid`). Both
  give the same list, so the order in which the two updates land does not matter.
- The follow-up window of the Pay Pending page is not modelled: which record it shows, and
  its closing by the Mark Paid button inside it (`PayPendingPage.jsx:679`), are left out.
- Clipboard copying, the "copied" timers, and the Blob, URL and anchor step of the CSV
  download are left out. The model stops at the CSV text.
- Spreadsheet ingestion (`FileUpload.jsx`, `FileUploadSupabase.jsx`) is not part of this model.
- Rendering, styling, charts, dark mode and routing are left out.
- Time zones are not modelled. `new Date(y, m, d, h, mi)` is taken in UTC. `format12Hour`
  receives its calendar fields as a parameter (`PayPending.DateFields`) instead of reading
  them from an ISO text.
- Lower-casing covers ASCII letters only. Text order is code-point order, while JavaScript
  compares UTF-16 code units. The two differ only beyond the Basic Multilingual Plane.
- `localeCompare` (`TodayDropsReport.jsx:102`) is an ordering parameter. Sortedness is
  proved for any total, transitive one.
- `Number` and `parseFloat` read only plain digit strings. Any other numeral (sign,
  decimals, exponent, spaces) reads as not-a-number, and so as 0 where the page uses 0.
  Amounts fetched from the tables are already numbers (`Option<real>`). The booking form's
  earnings are read from text under this rule.
- ZoomcarTracker.BookingDataSpec: earnings are never negative only under that reading of
  numbers. `Number("-5") || 0` stores -5, which the model reads as not-a-number and so as 0.
- PayPending.Prepared: the three amounts typed into the collections form
  (`PayPendingPage.jsx:336-340`) are taken as already parsed (`Option<real>`, none
  counting as 0, as `numeric` counts not-a-number). The `parseFloat` of that text inside
  `numeric` (`PayPendingPage.jsx:19`) is not modelled, so a typed text such as "12abc",
  which `parseFloat` reads as 12, has no counterpart.
- Floating point is not modelled: amounts are exact reals. `toFixed` and
  `toLocaleString` formatting are left out, as is the bar-colour ratio of the drops report.
- `Object.entries` lists integer-like keys first, in numeric order. The counters keep plain
  insertion order for every key.
- A counter key that names an `Object.prototype` property is counted like any other key
  by the model. On the page, `map[k] || 0` for "constructor", "toString", "valueOf" and the
  like reads the inherited function, so the count stored is a text such as
  `"function Object() { [native code] }1"`; for "__proto__" the assignment goes to the
  prototype setter, which ignores a number, so that row is not counted at all. For such
  keys the sums and per-key counts below fail on the page. The members concerned:
- Tally.TabulateSpec: per-key counts and the total hold for keys that are not
  `Object.prototype` property names only.
- Dashboard.VehiclesByLocation: a vehicle location such as "constructor" or "__proto__"
  (`Dashboard.jsx:67-69`) is counted normally by the model, not by the page.
- Dashboard.ComputeTotals: its location counts summing to the fleet size rests on the same
  assumption about location names.
- TodayDropsReport.CountStatuses: a status such as "constructor" or "__proto__"
  (`TodayDropsReport.jsx:166-168`) is counted normally by the model, not by the page.
- TodayDropsReport.StatusTallySpec: its sum and per-status counts assume no status names an
  `Object.prototype` property; `ListCommon` is unaffected, since its six keys are plain.
- TodayDropsReport.ZeroAgents: a master agent named "__proto__" gets no zero entry on the
  page (`TodayDropsReport.jsx:176`); the model lists it.
- TodayDropsReport.CountAgents: a name such as "constructor" or "__proto__"
  (`TodayDropsReport.jsx:178-180`) is counted normally by the model, not by the page.
- TodayDropsReport.AgentTallySpec: its sum and per-name counts assume no agent name is an
  `Object.prototype` property name.
- TodayDropsReport.CountLocations: a pickup cell such as "constructor" or "__proto__"
  (`TodayDropsReport.jsx:187-189`) is counted normally by the model, not by the page.
- TodayDropsReport.LocationTallySpec: its sum and per-place counts assume no pickup place is
  an `Object.prototype` property name.
- `STATUS_COLOR_MAP[status]` also finds inherited object keys such as "constructor". The
  model looks up only the six keys the map defines.
- Sheet cells are text. A numeric cell of a sheet is compared and exported by its text.
- `DataTable.Merge` creates a document for an unknown row id and places it last. The order
  Firestore gives new documents in a snapshot is not modelled.
- PauseVehicle.ChoicesSpec: the pause page's model and location choices keep `null` as a
  choice, as `new Set` does there (unlike the other pages, it applies no `filter(Boolean)`).
- The drops report reads `dropIndex` from the render that started the row load. When the
  headers change, the dates are computed again once the new `dropIndex` re-runs the load.
  The model computes the dates from the `dropIndex` it is given.
- The drops report's version list is the backend's descending order. Only its auto-select
  rule is modelled (`UploadSheet.AutoSelect`).

## Findings

| source | as written | input that shows it | evidently intended | confidence | as-written member | corrected member |
|---|---|---|---|---|---|---|
| src/components/TodayDropsReport.jsx:40,42 | the "pause" and "pend" rules return `STATUS_COLOR_MAP.Paused` and `STATUS_COLOR_MAP.Pending`, keys the map does not define, so the result is `undefined` | status "Paused" at any index gets no colour | every status gets one of the map's colours, and statuses without a colour of their own fall through to the index rule | not executed | TodayDropsReport.PausedHasNoColor | TodayDropsReport.CorrectedColorIsAStatusColor |
