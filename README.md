# Stress-test tracker, modelled in Dafny

This project models the logic of a small web application for tracking device
stress tests. A technician records each device under test: its IMEI, serial
number, model, OS version, battery readings before and after, the 12-hour
"h:mm AM" times the test started and ended, a status, remarks, notes and an
assignee. The application:

- computes how long each test ran;
- classifies a finished test as Pass or Fail and writes the verdict back to
  the record store;
- exports the records to a spreadsheet and, on a separate page, free-text rows
  to a PDF;
- filters and counts devices on several screens.

Modules follow the source files:

| module | source file | what it holds |
|---|---|---|
| `Text` | (JavaScript built-ins) | `split`, `includes`, ASCII case mapping, `padStart(2, "0")`, number printing, UTF-16 length, `Number(text)` |
| `Seqs` | (JavaScript built-ins) | `filter` and counts by `filter(...).length` |
| `Options` | — | `Option` |
| `Records` | app/stresstest/page.tsx | the stored record, `Device`, and the "stresstest" collection as the class `StressStore` over a map from id to record |
| `StressTable` | app/stresstest/device-table.tsx (and its copy in components/dashboard-header.tsx) | `parseTime`, `getDuration`, `getCondition` with its store write, `getStatusColor`, the search filter, one render pass |
| `ExportSheet` | components/dashboard-header.tsx | the export columns, row building, column widths |
| `DeviceForm` | app/stresstest/device-form.tsx | `amPmTo24h`, `formatToAmPm`, the form state and `handleSubmit` |
| `ImeiExport` | app/xport/page.tsx | `diffHHmm`, `draftDuration`, the draft and editing state, the PDF body |
| `StressPage` | app/stresstest/page.tsx | the device list and its add, edit, delete and fetch handlers |
| `Inventory` | app/device/devicetable.tsx | the search, model and assignment filters and `stats` |
| `Metrics` | components/metrics-cards.tsx | the status and assignment counts and the four cards |
| `Team` | components/team-collaboration.tsx | the avatar colour, the avatar letter, status defaulting |

How the environment is represented:

- Instants are integer milliseconds from today's midnight. `new Date()` becomes
  a `now` parameter.
- `parseTime` returns `Option<Instant>`, where `Instant = At(ms) | InvalidDate`.
  A non-numeric hour gives an Invalid Date. Invalid Date is truthy, so
  `getDuration` then gives the label "NaNh NaNm", and the verdict is Fail.
- Each Firestore collection is a class with one `map` field. Each store call
  takes a `reachable` flag that says whether the call succeeds. `updateDoc`
  merges the fields it is sent and is rejected for a missing document.
- `Number(text)` is modelled on digit-only text (where "" gives 0), read as an
  exact whole number, and on text holding a printable ASCII character that no
  numeric literal contains (which gives NaN). `NumberModelled` admits only
  those texts. Double rounding of very long digit texts is not modelled (see
  "## Left out").
- `parseTime` and `getDuration` in components/dashboard-header.tsx (lines 40-57
  and 59-72) are the same text as in app/stresstest/device-table.tsx, so
  `StressTable.ParseTime` and `StressTable.GetDuration` model both copies.
- The optional `assigned` and `model` fields are `Option<string>`. A missing
  field and an empty string differ: the metrics count `assigned !== ""`, while
  the inventory tests truthiness. `assigned` is a reserved word in Dafny, so the
  field is called `assignee`.

Where the code's behaviour is surprising:

- A record with a time-out whose duration is unknown is classified Fail, and
  the verdict is written to the store. This holds when either time cannot be
  read, or the test does not end after it started.
- `parseTime` accepts a non-numeric hour (see above).
- `formatToAmPm` adds no leading zero to the hour.
- `amPmTo24h` adds 12 to a PM hour above 12. `parseTime` does not.

## Model

| member | source | states |
|---|---|---|
| StressTable.ParseTime | app/stresstest/device-table.tsx:20-37 | null exactly when the first or second space-separated token is missing (so for ""); Invalid Date exactly when the hour is NaN (the `Date` range limit is left out); otherwise a non-negative whole minute of today |
| StressTable.HourOfDay | app/stresstest/device-table.tsx:30-31 | NaN stays NaN; an hour 1..12 with AM/PM lands in 0..23 and is ≥12 exactly for PM; an unknown modifier and PM hours ≥12 keep the hour |
| StressTable.ParseClockText | app/stresstest/device-table.tsx:20-37 | parsing "h:mm M" gives (HourOfDay(h, M)·60 + m) minutes |
| StressTable.ParseClockTextAt | app/stresstest/device-table.tsx:20-37 | for a known hour of day, "h:mm M" is read as that hour·60 + m minutes |
| StressTable.MinutesOf | app/stresstest/device-table.tsx:28-34 | missing or non-numeric minutes are 0; numeric minutes are their decimal value |
| StressTable.ParseHourOnly | app/stresstest/device-table.tsx:24-34 | "h M" without ':' reads as minute 0 of HourOfDay(h, M) |
| StressTable.ParseNonNumericMinutes | app/stresstest/device-table.tsx:28-34 | "h:x M" with non-numeric minutes x reads as minute 0 of HourOfDay(h, M) |
| StressTable.ParseMidnight | app/stresstest/device-table.tsx:31 | "12:00 AM" is instant 0 |
| StressTable.ParseNoon | app/stresstest/device-table.tsx:30 | "12:00 PM" keeps hour 12 |
| StressTable.ParseAfternoon | app/stresstest/device-table.tsx:30 | a PM hour below 12 gains 12 |
| StressTable.ParseLastMinute | app/stresstest/device-table.tsx:28-34 | "11:59 PM" is 23:59 |
| StressTable.NonNumericHourIsInvalidDate | app/stresstest/device-table.tsx:28-36 | a non-numeric hour is not rejected: the result is an Invalid Date |
| StressTable.Elapsed | app/stresstest/device-table.tsx:43-51 | NaN exactly when an endpoint is invalid; "—" exactly when end ≤ start; otherwise minutes < 60 and hours·60 + minutes = whole minutes elapsed |
| StressTable.GetDuration | app/stresstest/device-table.tsx:39-52 | "—" when either endpoint is null; the end is `now` when `timeOut` is empty, else the parsed `timeOut` |
| StressTable.GetDurationIgnoresNow | app/stresstest/device-table.tsx:41 | with a time-out, the current instant plays no part |
| StressTable.ElapsedAdditive | app/stresstest/device-table.tsx:45-51 | consecutive spans between whole-minute instants add up |
| StressTable.Policy | app/stresstest/device-table.tsx:62 | Pass exactly when the duration is a span of at least 6 hours and the after-battery reading is above 30 |
| StressTable.PolicyBoundaries | app/stresstest/device-table.tsx:62-71 | 6h0m with 31 passes; 5h59m with 100, 6h1m with 30, "—" and NaN fail |
| StressTable.Condition | app/stresstest/device-table.tsx:55-72 | no verdict exactly when `timeOut` is empty; Pass exactly when the span from time-in to time-out is ≥ 6 h and the battery is > 30 |
| StressTable.UnknownDurationFails | app/stresstest/device-table.tsx:43-46 | a set time-out with an unknown or non-positive duration is a Fail, not "no verdict" |
| StressTable.EvaluateCondition | app/stresstest/device-table.tsx:55-72 | returns the verdict and writes exactly `{result: verdict}` to that document, nothing when there is no time-out |
| StressTable.AfterEvaluation | app/stresstest/device-table.tsx:63-64 | no key added or removed, other documents unchanged, the device's document gets the verdict |
| StressTable.EvaluationIdempotent | app/stresstest/device-table.tsx:63-69 | evaluating twice leaves the store as evaluating once |
| StressTable.DurationBetween | app/stresstest/device-table.tsx:39-52 | readings `start` and `end` minutes after midnight, end later, last (end − start) split into hours and minutes below 60 |
| StressTable.MorningToAfternoonDuration | app/stresstest/device-table.tsx:39-52 | hIn o'clock AM to hOut o'clock PM lasts exactly hOut + 12 − hIn whole hours |
| StressTable.MorningToAfternoon | app/stresstest/device-table.tsx:55-72 | such a record is judged by the policy on that whole-hour span |
| StressTable.MorningAndAfternoonTexts | app/stresstest/device-table.tsx:20-37 | "8:00 AM", "3:00 PM" and "2:00 PM" are the canonical clock texts of those hours |
| StressTable.WholeHourLabels | app/stresstest/device-table.tsx:51 | 7 and 6 whole hours are labelled "7h 0m" and "6h 0m" |
| StressTable.EightToThreePasses | app/stresstest/device-table.tsx:48-51 | 8:00 AM to 3:00 PM is "7h 0m", a Pass with 40 left |
| StressTable.EightToTwoFailsOnBattery | app/stresstest/device-table.tsx:58-71 | 8:00 AM to 2:00 PM is "6h 0m", a Fail with 20 left |
| StressTable.NonNumericHourFails | app/stresstest/device-table.tsx:43-51 | a non-numeric hour gives "NaNh NaNm" and a Fail |
| StressTable.StatusColor | app/stresstest/device-table.tsx:86-99 | grey exactly for a status outside the four known ones |
| StressTable.StatusColorsDistinct | app/stresstest/device-table.tsx:86-99 | distinct known statuses get distinct colours |
| StressTable.SearchIsSubsequence | app/stresstest/device-table.tsx:100-108 | the search result is an order-preserving subsequence of the devices |
| StressTable.EmptySearchKeepsAll | app/stresstest/device-table.tsx:100-108 | an empty term keeps every device |
| StressTable.SearchIgnoresTermCase | app/stresstest/device-table.tsx:101 | the term's case does not matter |
| StressTable.EvaluateAllResult | app/stresstest/device-table.tsx:150-169 | after a render pass each document carries the verdict of the last shown device with its id; nothing else changes |
| StressTable.RenderIdempotent | app/stresstest/device-table.tsx:150-169 | rendering the same devices again leaves the store identical |
| StressTable.RowsView | app/stresstest/device-table.tsx:150-169 | one row view per shown device, in order |
| StressTable.RenderRow | app/stresstest/device-table.tsx:150-169 | the device's row view, and its verdict written to the store |
| StressTable.Render | app/stresstest/device-table.tsx:149-169 | one row per device kept by the search, in order, each with its duration, verdict and colour; the store is updated by each verdict in turn; only the shown devices' times need be readable |
| Records.WithResult | app/stresstest/device-table.tsx:63-64 | a one-field merge: same keys, that document's `result` set, others unchanged, a missing document left missing |
| Records.WithResultIdempotent | app/stresstest/device-table.tsx:68-69 | writing the same verdict twice is writing it once |
| Records.Merge | app/stresstest/page.tsx:55-56 | the sent fields replace the stored ones; an optional field not sent keeps its stored value |
| Records.StressStore.Add | app/stresstest/page.tsx:41 | on success the record is stored under the new, unused id; no document is overwritten |
| Records.StressStore.Update | app/stresstest/page.tsx:56 | succeeds exactly when reachable and the document exists; merges |
| Records.StressStore.Delete | app/stresstest/page.tsx:75 | on success the id is gone, other documents unchanged |
| ExportSheet.LabelsDistinct | components/dashboard-header.tsx:25-39 | 13 columns, pairwise distinct labels, no "Condition" |
| ExportSheet.FieldCell | components/dashboard-header.tsx:95-101 | Duration is `getDuration(...).label`; batteries stay numbers; a missing model or assignee is "" |
| ExportSheet.BuildRow | components/dashboard-header.tsx:94-102 | exactly the 13 label/cell pairs in column order |
| ExportSheet.Lookup | components/dashboard-header.tsx:113 | `row[label]` is found exactly when a pair carries that label, and is that pair's cell |
| ExportSheet.LookupColumn | components/dashboard-header.tsx:95-101 | looking a column's label up in a built row gives that column's cell |
| ExportSheet.DurationCell | components/dashboard-header.tsx:96-97 | the Duration cell equals the label of `getDuration(timeIn, timeOut)` |
| ExportSheet.MissingFieldCells | components/dashboard-header.tsx:99 | a missing model or assignee is exported as "" |
| ExportSheet.BatteryCells | components/dashboard-header.tsx:99 | a battery reading is exported as that number, 0 included |
| ExportSheet.NoConditionCell | components/dashboard-header.tsx:25-39 | a row has no Condition cell |
| ExportSheet.CellLength | components/dashboard-header.tsx:113 | falsy cells ("" and 0) count 0, truthy cells at least 1 |
| ExportSheet.MaxLength | components/dashboard-header.tsx:113 | at least the floor and every cell's length, and equal to one of them |
| ExportSheet.ColumnWidth | components/dashboard-header.tsx:112-114 | ≥ label length + 2, ≥ every cell length + 2, and equal to one of these |
| ExportSheet.FalsyCellsIgnored | components/dashboard-header.tsx:113 | with only falsy cells the width is the label length + 2 |
| ExportSheet.ExportRows | components/dashboard-header.tsx:87-114 | one row per fetched device in fetch order; widths follow from the rows and are ≥ label + 2 |
| DeviceForm.AmPmTo24h | app/stresstest/device-form.tsx:38-45 | "" exactly for "" |
| DeviceForm.AmPmTo24hOfClockText | app/stresstest/device-form.tsx:40-44 | "h:mm M" becomes the padded "HH:MM" of To24(h, M): 12 AM → 00, PM with h ≠ 12 adds 12 |
| DeviceForm.Hour24 | app/stresstest/device-form.tsx:42-43 | a NaN hour stays NaN; a numeric hour is converted as `To24` converts it |
| DeviceForm.AmPmTo24hOfPieces | app/stresstest/device-form.tsx:38-45 | a time whose hour and minute texts print h and m converts to the padded "HH:MM" of To24(h, M) |
| DeviceForm.PmAboveTwelveConverted | app/stresstest/device-form.tsx:42 | `amPmTo24h` adds 12 to a PM hour above 12 |
| DeviceForm.PmAboveTwelveParsed | app/stresstest/device-table.tsx:30 | `parseTime` keeps a PM hour above 12 |
| DeviceForm.PmAboveTwelve | app/stresstest/device-form.tsx:42 | a PM hour above 12 gains 12 here but is kept by `parseTime` |
| DeviceForm.FormatToAmPm | app/stresstest/device-form.tsx:69-74 | never "" |
| DeviceForm.FormatClock24 | app/stresstest/device-form.tsx:69-74 | "HH:MM" becomes "h:mm M" with M = PM exactly when h ≥ 12, hour mod 12 shown with 0 as 12, unpadded; minute padded |
| DeviceForm.Clock24Split | app/stresstest/device-form.tsx:70 | "HH:MM" splits at ':' into its two padded numbers |
| DeviceForm.Clock24RoundTrip | app/stresstest/device-form.tsx:38-45 | for h ≤ 23, `amPmTo24h(formatToAmPm("HH:MM"))` is "HH:MM" |
| DeviceForm.ClockTextRoundTrip | app/stresstest/device-form.tsx:69-74 | for 1 ≤ h ≤ 12, `formatToAmPm(amPmTo24h("h:mm M"))` is "h:mm M" |
| DeviceForm.To24OfHour12 | app/stresstest/device-form.tsx:42-43 | the 24→12→24 hour conversion is the identity below 24 |
| DeviceForm.Hour12OfTo24 | app/stresstest/device-form.tsx:71-72 | the 12→24→12 hour conversion is the identity on 1..12 with AM/PM |
| DeviceForm.TableReadsFormattedTime | app/stresstest/device-form.tsx:78 | the table's `parseTime` reads a submitted time as the hour and minute entered |
| DeviceForm.ParseTwelveHourReading | app/stresstest/device-table.tsx:20-37 | the text `formatToAmPm` makes of h:m (h < 24) is read by `parseTime` as h·60 + m minutes |
| DeviceForm.HourOfDayOfHour12 | app/stresstest/device-table.tsx:30-31 | `parseTime`'s hour mapping undoes `formatToAmPm`'s below 24 |
| DeviceForm.FormOf | app/stresstest/device-form.tsx:47-61 | a missing assignee or model becomes ""; the time-out is "" exactly when stored as "" |
| DeviceForm.SetText | app/stresstest/device-form.tsx:91-93 | only the named text field changes; batteries unchanged |
| DeviceForm.SetBattery | app/stresstest/device-form.tsx:91-93 | only the named battery field changes; text fields unchanged |
| DeviceForm.Formatted | app/stresstest/device-form.tsx:76-80 | time-in always reformatted, an empty time-out stays "", every other field kept |
| DeviceForm.Overlay | app/stresstest/device-form.tsx:84 | every form field replaces the record's: the result is the new-device record of the form with the stored `result` kept |
| DeviceForm.NewRecord | app/stresstest/device-form.tsx:86 | a new record carries no verdict |
| DeviceForm.Submitted | app/stresstest/device-form.tsx:82-87 | a new device exactly when none was edited; an edit keeps the id and is the stored device overridden by the formatted form |
| DeviceForm.CanonicalTimeRoundTrip | app/stresstest/device-form.tsx:54-55 | a canonical stored time survives load-and-submit |
| DeviceForm.ResubmitUnchanged | app/stresstest/device-form.tsx:47-87 | opening a device and saving it unchanged gives back the same device |
| DeviceForm.DeviceFormState.constructor | app/stresstest/device-form.tsx:22-35 | status "Active", both batteries 0, all other text "" |
| DeviceForm.DeviceFormState.Load | app/stresstest/device-form.tsx:47-63 | the form is filled from the edited device |
| DeviceForm.DeviceFormState.HandleChange | app/stresstest/device-form.tsx:91-93 | `formData` becomes SetText of the old form |
| DeviceForm.DeviceFormState.HandleBatteryChange | app/stresstest/device-form.tsx:91-93 | `formData` becomes SetBattery of the old form |
| DeviceForm.DeviceFormState.HandleSubmit | app/stresstest/device-form.tsx:66-88 | hands back Submitted(form, device): an edit exactly when a device was given |
| ImeiExport.EmptyRowCells | app/xport/page.tsx:25-40 | the empty row has all 14 columns empty and no id |
| ImeiExport.DiffHHmm | app/xport/page.tsx:42-58 | "" exactly when an input is empty or unparsable or the end is before the start |
| ImeiExport.DiffHHmmReadBack | app/xport/page.tsx:50-54 | a non-empty result reads back as h and m, with m < 60 and two digits, and h·60 + m = whole minutes elapsed |
| ImeiExport.EqualInstants | app/xport/page.tsx:48-49 | equal instants give "00:00" where `getDuration` gives "—" |
| ImeiExport.ZeroMinutes | app/xport/page.tsx:53-54 | zero minutes print as "00:00" |
| ImeiExport.DraftDuration | app/xport/page.tsx:73-76 | a typed-in Duration wins, otherwise the computed one |
| ImeiExport.WithDuration | app/xport/page.tsx:83 | only the Duration cell changes, to the draft duration |
| ImeiExport.WithDurationIdempotent | app/xport/page.tsx:83 | sending a draft twice sends the same row |
| ImeiExport.MergeRow | app/xport/page.tsx:95-98 | sent cells replace stored ones, the rest stay; an id is written only when sent |
| ImeiExport.SnapshotRow | app/xport/page.tsx:68 | a document's own `id` property overrides the document id |
| ImeiExport.Body | app/xport/page.tsx:115 | one line per row, exactly 14 cells in column order, missing cells "" |
| ImeiExport.DurationColumn | app/xport/page.tsx:6-21 | 14 columns, "Duration" exactly the ninth |
| ImeiExport.AddedRowExported | app/xport/page.tsx:83-84 | an added draft exports with its duration in the Duration column and its other cells unchanged |
| ImeiExport.ImeiPage.AddRow | app/xport/page.tsx:82-86 | on success the draft with its duration is stored and the draft reset; on failure the draft is kept |
| ImeiExport.ImeiPage.StartEdit | app/xport/page.tsx:88-91 | editing id is the row's id, draft is the row |
| ImeiExport.ImeiPage.SaveEdit | app/xport/page.tsx:93-101 | a no-op without an editing id; otherwise merges and then clears editing and the draft |
| ImeiExport.ImeiPage.CancelEdit | app/xport/page.tsx:164 | editing cleared, draft reset |
| ImeiExport.ImeiPage.UpdateDraft | app/xport/page.tsx:78-80 | one cell of the draft changes |
| ImeiExport.ImeiPage.constructor | app/xport/page.tsx:61-63 | no rows, the empty draft, nothing being edited |
| ImeiExport.ImeiPage.OnSnapshot | app/xport/page.tsx:66-71 | for a snapshot listing each document once, the rows become the collection's documents in snapshot order; draft and editing untouched |
| ImeiExport.ImeiPage.DeleteRow | app/xport/page.tsx:103-105 | on success the document is gone, others unchanged |
| ImeiExport.ImeiPage.ExportBody | app/xport/page.tsx:115 | the PDF body of the current rows |
| ImeiExport.DevicesCollection.Snapshot | app/xport/page.tsx:66-71 | for a listing of each document once: as many rows as documents, in listing order, each as SnapshotRow makes it, every document present |
| StressPage.ReplaceById | app/stresstest/page.tsx:57 | same length; every entry with the id is the device, others unchanged |
| StressPage.ReplaceKeepsIds | app/stresstest/page.tsx:57 | the ids are unchanged by a replace |
| StressPage.ReplaceIdempotent | app/stresstest/page.tsx:57 | replacing twice is replacing once |
| StressPage.RemoveById | app/stresstest/page.tsx:76 | keeps exactly the entries whose id differs |
| StressPage.RemoveKeepsOthers | app/stresstest/page.tsx:76 | order kept; removed count plus kept count is the length; the id is gone |
| StressPage.RemoveUndoesAdd | app/stresstest/page.tsx:43-76 | removing a freshly added device gives back the list |
| StressPage.RemoveAbsent | app/stresstest/page.tsx:76 | removing an unlisted id changes nothing |
| StressPage.CollectDevices | app/stresstest/page.tsx:94-97 | one device per document, tagged with its id, in snapshot order |
| StressPage.DeviceManagement.constructor | app/stresstest/page.tsx:34-36 | an empty list, the form closed, nothing being edited |
| StressPage.DeviceManagement.Load | app/stresstest/page.tsx:91-101 | for a snapshot listing each document once, the list has one device per stored document, in snapshot order, every document present |
| StressPage.DeviceManagement.HandleAddDevice | app/stresstest/page.tsx:38-49 | on success the store gains the record under the new unused id, one device with that id is appended and the form closes; on failure nothing changes |
| StressPage.DeviceManagement.HandleEditDevice | app/stresstest/page.tsx:51-65 | all fields but the id are merged into the store; on success entries with the id are replaced and the form closes; on failure nothing changes |
| StressPage.DeviceManagement.HandleDeleteDevice | app/stresstest/page.tsx:67-88 | a declined confirm does nothing; a successful delete removes every entry with the id |
| StressPage.DeviceManagement.OpenForAdd | app/stresstest/page.tsx:122-125 | form open, nothing being edited |
| StressPage.DeviceManagement.OpenForEdit | app/stresstest/page.tsx:136-139 | form open on the device |
| StressPage.DeviceManagement.CancelForm | app/stresstest/page.tsx:154-157 | form closed, nothing being edited |
| StressPage.DeviceManagement.OnSave | app/stresstest/page.tsx:146-153 | an edit when a device is being edited, an add otherwise, with that handler's success condition, store write and list update; the form closes on success and is untouched on failure |
| Inventory.FilteredDevices | app/device/devicetable.tsx:20-35 | a device is kept exactly when it matches the search, the model select and the assignment select |
| Inventory.FilteredIsSubsequence | app/device/devicetable.tsx:20-35 | the result is an order-preserving subsequence |
| Inventory.EmptyTermMatches | app/device/devicetable.tsx:22-26 | an empty term matches every device |
| Inventory.NoFilterKeepsAll | app/device/devicetable.tsx:20-35 | "" / "all" / "all" keeps the whole list |
| Inventory.UnknownAssignmentKeepsNothing | app/device/devicetable.tsx:29-32 | an unknown assignment value keeps nothing |
| Inventory.AssignmentPartition | app/device/devicetable.tsx:29-32 | "assigned" plus "unassigned" counts equal the "all" count |
| Inventory.ImeiCaseSensitive | app/device/devicetable.tsx:24 | the IMEI is matched exactly as typed |
| Inventory.TableSearchIsWider | app/device/devicetable.tsx:22-26 | with a lower-case term and a non-empty model, whatever this search keeps the stress-test table's search keeps too |
| Inventory.ComputeStats | app/device/devicetable.tsx:38-45 | total is the length; assigned ≤ total; unassigned = total − assigned = number without an assignee; p2 + v2 ≤ total |
| Inventory.AssignedMatchesFilter | app/device/devicetable.tsx:29-40 | the assigned count is the size of the "assigned" view |
| Metrics.FetchStats | components/metrics-cards.tsx:39-43 | total is the length; active + running + failed is the count of those three statuses and ≤ total; assigned ≤ total |
| Metrics.MissingAssigneeCounts | components/metrics-cards.tsx:43 | documents without the field count as assigned |
| Metrics.InventoryAssignedAtMost | components/metrics-cards.tsx:43 | the inventory's assigned count never exceeds the card's |
| Metrics.CompletedOnlyInTotal | components/metrics-cards.tsx:39-43 | a Completed device adds 1 to the total, nothing to the three status counts, and 1 to the assigned count exactly when its assignee is not "" |
| Metrics.Cards | components/metrics-cards.tsx:57-82 | four cards: total, active, assigned, failed |
| Metrics.CardsIgnoreRunning | components/metrics-cards.tsx:57-82 | the running-test count is not shown |
| Team.FirstCodeUnit | components/team-collaboration.tsx:51 | a UTF-16 code unit; 0 for an empty email; the character itself below U+10000 |
| Team.ColorForEmail | components/team-collaboration.tsx:50-53 | one of the six colours, at index first code unit mod 6 |
| Team.EmptyEmailColor | components/team-collaboration.tsx:51 | an empty email gets "bg-blue-500" |
| Team.ColorByFirstChar | components/team-collaboration.tsx:51 | only the first character decides the colour |
| Team.ColorPeriod | components/team-collaboration.tsx:50-53 | characters six apart share a colour, neighbours do not |
| Team.ToMember | components/team-collaboration.tsx:36-43 | a missing or empty status becomes "Offline", others kept |
| Team.ToMemberIdempotent | components/team-collaboration.tsx:41 | defaulting twice is defaulting once |
| Team.AvatarLetter | components/team-collaboration.tsx:69 | "" exactly for an empty email, else the first character upper-cased |
| Team.StatusBadge | components/team-collaboration.tsx:10-15 | a badge class exactly for the four known statuses |
| Team.DefaultedStatusHasBadge | components/team-collaboration.tsx:41 | a defaulted status always has a badge |
| Text.Split | app/stresstest/device-table.tsx:24 | at least one piece, none containing the separator |
| Text.JoinSplit | app/stresstest/device-table.tsx:24 | joining the pieces gives back the string |
| Text.JsNumber | app/stresstest/device-table.tsx:28 | a number exactly for digit-only text, with its decimal value |
| Text.Pad2 | app/stresstest/device-form.tsx:44 | at least two characters, the text at the end, zeros before |
| Text.PaddedValue | app/stresstest/device-form.tsx:44 | a padded printed number reads back as the number |
| Seqs.ListsEachOnceSize | app/stresstest/page.tsx:94-97 | a listing that names every document once is as long as the collection |
| Seqs.FilterIsSubsequence | app/device/devicetable.tsx:21 | `filter` keeps order |
| Seqs.CountDisjoint | components/metrics-cards.tsx:40-42 | counts of exclusive predicates add up |

## Left out

- Firestore is a map per collection. The model does not capture asynchrony,
  ordering between calls, or the real-time subscription's timing. The
  un-awaited `updateDoc` in `getCondition` is taken to succeed, and a write to
  a missing document changes nothing.
- JavaScript `Date` is replaced by integer milliseconds from today's midnight.
  Time zones and daylight-saving time are not modelled. A test that crosses
  midnight falls into the "—" branch, as in the source.
- The order in which a query snapshot lists documents is a parameter
  (`order`). It is required to name every document of the collection once,
  as a Firestore snapshot does; which order Firestore picks is not modelled.
- `new Date(iso)` in `diffHHmm` is a parsing function passed in as a parameter.
- `Number(text)` is stated only for the texts `NumberModelled` admits. Signs,
  decimals, exponents, hexadecimal, "Infinity" and surrounding whitespace are
  excluded by a precondition, because their values are not whole numbers of
  the modelled form.
- Text.JsNumber: a digit-only text is read as an exact unbounded whole
  number. JavaScript reads it as a double, so above 2^53 the value is rounded,
  and from 1e21 up it prints in exponent form ("1e+21"); neither is modelled.
- StressTable.ParseTime: the hour is taken as an exact whole number and
  `setHours` is taken to succeed for every hour. `Date` holds at most 8.64e15
  ms either side of 1970, so an hour of about 2.4e9 or more gives an Invalid
  Date (and a NaN duration) in the source but a valid instant in the model.
  StressTable.GetDuration and StressTable.Render inherit both limits, and
  DeviceForm.AmPmTo24h the first.
- Inventory.FilteredDevices and Inventory.ComputeStats are computed from the
  current device list. In app/device/devicetable.tsx the `useMemo` dependency
  lists (lines 36 and 45) omit `devices`, so the source keeps the filtered
  list from the last filter change and the stats from the first render, even
  after the device list arrives or changes. The model does not capture this
  staleness.
- `toLowerCase` and `toUpperCase` are modelled on ASCII letters only.
- Team.AvatarLetter: a first character beyond U+FFFF is excluded by a
  precondition. `charAt(0)` then yields a lone surrogate, which a Dafny string
  cannot hold.
- DeviceForm: the battery inputs are integers. The form's string-typed values
  and JavaScript's coercion when comparing them are not modelled.
- DeviceForm.AmPmTo24h and DeviceForm.FormatToAmPm require a ':' in the time.
  Without one the source throws a TypeError.
- StressPage: a document's own `id` property overriding the document id is
  modelled only for the export page, because stress-test documents never
  carry one.
- ImeiExport.ImeiPage.SaveEdit and AddRow: a rejected call is modelled as
  leaving the state unchanged. The source's unhandled rejection is not.
- Toasts, `window.confirm` (a `confirmed` flag instead), the `loading` flag
  around the spreadsheet download, the generated files (XLSX, PDF), rendering,
  timers, authentication and navigation are not modelled.
- The minute timer that refreshes `now` in the stress-test table is not
  modelled. `now` is a parameter of each render.
- app/device/page.tsx is not part of this model. Its handlers are a copy of
  the stress-test page's, and nothing on that screen calls them.
