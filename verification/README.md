# Copilot premium-request usage analyzer — a Dafny model

The analyzer is a single-page dashboard. It reads the CSV export of GitHub
Copilot premium-request usage: one row per request batch, with a timestamp,
a user, a model, the number of requests used, whether the monthly quota was
exceeded, and the user's total monthly quota. From those rows it draws:

- a compliant/exceeding chart by day;
- a per-model bar chart by day;
- a per-model summary with plan limits;
- a power-user breakdown.

The model covers:

- the upload path: the file-type gates of the picker and the drop zone; the
  checks on the text read; the parse; the error classification that turns a
  thrown error into a toast; and the reset of every view after a failure;
- the dashboard state that a load produces, and the invariant tying each
  view to the loaded records;
- the view logic of the dashboard component: the two chart series, the
  list of model names, the plan-limit column, the chart legend, and the
  power-user breakdown narrowed to a selected user;
- the engine functions the dashboard's tests exercise: the percentage
  primitive and its display format, the status summary, the per-model
  summary with shares, the count of users beyond quota, and the CSV parser;
- every example the three test files check, restated as lemmas about the
  model; the integration fixture is stated on the parse of its whole text.

Modules, in dependency order:

| module | file | what it holds |
|---|---|---|
| `Outcomes` | outcomes.dfy | `Option`, `Result` |
| `Grouping` | grouping.dfy | filtering, projection, sums, first-seen de-duplication |
| `Ordering` | ordering.dfy | code-unit string order and an insertion sort by key |
| `Decimal` | decimal.dfy | decimal numerals |
| `Usage` | usage.dfy | the usage record and its volume sums |
| `Percentage` | percentage.dfy | `calculatePercentage` and `formatPercentage`, with `toFixed` |
| `StatusSummary` | status.dfy | `getRequestStatusSummary` |
| `ModelSummary` | models.dfy | `getModelUsageSummaryWithPercentages` |
| `QuotaUsers` | quota.dfy | `getUniqueUsersExceedingQuota` |
| `Ingest` | ingest.dfy | `parseCSV`: line split, quoted tokenizer, header check, per-row validation |
| `Export` | export.dfy | files in the export's own layout, and that they parse back |
| `DailyCharts` | daily.dfy | `chartData` and `barChartData` |
| `Views` | views.dfy | unique models, plan limit, legend, filtered power-user breakdown |
| `Upload` | upload.dfy | file-type gates, pre-parse checks, error classification |
| `Dashboard` | dashboard.dfy | the state a load produces, and its consistency |
| `PercentageExamples`, `TestExamples`, `IntegrationFixture`, `FixtureSummaries` | *_examples.dfy, fixture_*.dfy | the test files' examples |

The engine functions that the dashboard calls but no test exercises are
parameters of `Dashboard.Engine`. These are the daily aggregation, the model
summary without shares, the daily model data, the power users and their
breakdown, and the last date. The Dashboard's properties hold for every
choice of them.

## Model

| member | source | states |
|---|---|---|
| Percentage.CalculatePercentage | src/test/percentage-calculations.test.ts:12-24 | the share is `value*100/total` (`p * total == value * 100`), and 0 for a zero total rather than a fault |
| Percentage.PercentageAdditive | src/test/percentage-calculations.test.ts:70-74 | the shares of two parts of one total add up to the share of their sum |
| Percentage.PercentageBounded | src/test/percentage-calculations.test.ts:91-95 | a part between 0 and a whole is between 0% and 100% of it |
| Percentage.WholeIsHundredPercent | src/test/percentage-calculations.test.ts:13-14 | a non-zero whole is 100% of itself |
| Percentage.NoPartIsZeroPercent | src/test/percentage-calculations.test.ts:22-24 | zero is 0% of any total, including a zero total |
| Percentage.RoundHalfUp | src/test/integration-percentage-display.test.ts:69-72 | the integer chosen is within half a unit of the input, and a tie goes up |
| Percentage.FormatPercentage | src/test/percentage-calculations.test.ts:28-36 | one decimal unless the caller asks for `d`; the text ends in `%`, and what precedes it reads back, as a fixed-point numeral, as the value scaled by 10^d and rounded half up |
| Percentage.ToFixedReadsBack | src/test/percentage-calculations.test.ts:28-36 | the `toFixed` numeral reads back as the sign, the rounded scaled magnitude and exactly `d` fraction digits |
| Percentage.DisplayedValueIsNearest | src/test/integration-percentage-display.test.ts:67-72 | the displayed number is within half a unit of the last shown place of the true value |
| PercentageExamples.CalculatePercentageExamples | src/test/percentage-calculations.test.ts:12-24 | 25 of 100 is 25, 50 of 100 is 50, 1 of 3 is within 0.000005 of 33.333333, 10 of 0 is 0, and 0 of 100 is 0 |
| PercentageExamples.FormatDefaultDecimals | src/test/percentage-calculations.test.ts:28-31 | with the default decimals, 25.678 is shown as "25.7%" |
| PercentageExamples.FormatDefaultDecimalsThird | src/test/percentage-calculations.test.ts:28-31 | with the default decimals, 33.333333 is shown as "33.3%" |
| PercentageExamples.FormatNoDecimals | src/test/percentage-calculations.test.ts:33-36 | with no decimals, 25.678 is shown as "26%" |
| PercentageExamples.FormatTwoDecimals | src/test/percentage-calculations.test.ts:33-36 | with two decimals, 25.678 is shown as "25.68%" |
| PercentageExamples.FormatPadsWholeNumbers | src/test/integration-percentage-display.test.ts:67 | 75 is shown as "75.0%" |
| PercentageExamples.FormatPadsQuarter | src/test/integration-percentage-display.test.ts:68 | 25 is shown as "25.0%" |
| PercentageExamples.FormatRoundsHalfUp | src/test/integration-percentage-display.test.ts:69 | 31.25 is shown as "31.3%" |
| PercentageExamples.FormatKeepsOneDecimal | src/test/integration-percentage-display.test.ts:70 | 87.5 is shown as "87.5%" |
| PercentageExamples.FormatKeepsOneDecimalAgain | src/test/integration-percentage-display.test.ts:71 | 12.5 is shown as "12.5%" |
| PercentageExamples.FormatRoundsHalfUpAgain | src/test/integration-percentage-display.test.ts:72 | 18.75 is shown as "18.8%" |
| StatusSummary.Tally | src/test/percentage-calculations.test.ts:68-72 | a single pass yields the total, the compliant volume and the exceeding volume |
| StatusSummary.GetRequestStatusSummary | src/test/percentage-calculations.test.ts:39-96 | the total is the sum of requests used; compliant plus exceeding equals the total; each part's percentage is its share of the total |
| StatusSummary.StatusSharesSumToHundred | src/test/integration-percentage-display.test.ts:24-29 | with any volume, the compliant and exceeding shares add up to 100% |
| StatusSummary.StatusSharesBounded | src/test/percentage-calculations.test.ts:68-74 | on valid records both shares lie in [0%, 100%] |
| StatusSummary.AllCompliantStatus | src/test/percentage-calculations.test.ts:77-96 | with no record over quota, the exceeding volume is 0 and the compliant shares are 100% / 0% |
| TestExamples.ThreeRecordsStatus | src/test/percentage-calculations.test.ts:40-75 | the three-record example gives 30 / 25 / 5, with shares within 0.005 of 83.33% and 16.67% |
| TestExamples.OneCompliantRecordStatus | src/test/percentage-calculations.test.ts:77-96 | one compliant record of 10 gives 10 / 10 / 0 and 100% / 0% |
| ModelSummary.SortByTotal | src/test/percentage-calculations.test.ts:132-146 | the result is descending by total and a permutation of the input |
| ModelSummary.GetModelUsageSummaryWithPercentages | src/test/percentage-calculations.test.ts:99-151 | one entry per distinct model and every record's model listed; each entry is that model's own records summarised, with its share of the grand total; descending by total; ties in order of first appearance |
| ModelSummary.ModelTotalsSumToGrandTotal | src/test/integration-percentage-display.test.ts:32-63 | the per-model totals add up to the grand total |
| ModelSummary.ModelSharesSumToHundred | src/test/integration-percentage-display.test.ts:35-59 | with any volume, the per-model shares add up to 100% |
| ModelSummary.ModelSplitConserves | src/test/integration-percentage-display.test.ts:38-63 | within each model, compliant plus exceeding is the total, and their shares add up to 100% |
| ModelSummary.ModelWithoutCompliantVolume | src/test/percentage-calculations.test.ts:143-150 | a model whose records all exceed quota shows 0 compliant / 0% and 100% exceeding |
| TestExamples.TwoModelSummary | src/test/percentage-calculations.test.ts:100-151 | the two-model example gives gpt-4 first (30, 75%, 20 / 10, 200/3 % / 100/3 %), then gpt-3.5 (10, 25%, 0 / 10, 0% / 100%) |
| QuotaUsers.ExceedingUserList | src/test/users-exceeding-quota.test.ts:57-66 | the distinct users with an exceeding record, each once, and no one else |
| QuotaUsers.UniqueUsersExceedingQuota | src/test/users-exceeding-quota.test.ts:57-128 | the count is the size of the set of users with at least one exceeding record |
| QuotaUsers.NoneExceedingCountsZero | src/test/users-exceeding-quota.test.ts:68-95 | with no exceeding record, including no record at all, the count is 0 |
| QuotaUsers.CompliantRecordAddsNothing | src/test/users-exceeding-quota.test.ts:60-64 | a record within quota never changes the count |
| QuotaUsers.ExceedingRecordCountsUserOnce | src/test/users-exceeding-quota.test.ts:97-128 | an exceeding record raises the count by one exactly when its user was not counted yet |
| QuotaUsers.CountBoundedByExceedingRecords | src/test/users-exceeding-quota.test.ts:57-66 | the count never exceeds the number of exceeding records |
| QuotaUsers.OneUserCountsOnce | src/test/users-exceeding-quota.test.ts:97-128 | any number of exceeding records of one user count as 1 |
| TestExamples.QuotaRecordsCount | src/test/users-exceeding-quota.test.ts:6-66 | the mixed example counts 2 |
| TestExamples.NobodyExceedingCountsZero | src/test/users-exceeding-quota.test.ts:68-95 | the compliant-only example and the empty list count 0 |
| TestExamples.PowerUserCountsOnce | src/test/users-exceeding-quota.test.ts:97-128 | three exceeding records of one user count 1 |
| Ingest.Tokenize | src/test/integration-percentage-display.test.ts:10-16 | a line always yields at least one field |
| Ingest.TokenizeEncodeRow | src/test/integration-percentage-display.test.ts:10-16 | a row written with every field quoted, with quotes doubled, splits back into exactly its fields |
| Ingest.JoinLinesOfLines | src/test/integration-percentage-display.test.ts:10-16 | cutting a text at its line feeds and re-joining it gives the text back |
| Ingest.LinesOfJoinLines | src/test/integration-percentage-display.test.ts:10-16 | joining lines without line feeds and cutting again gives the lines back |
| Ingest.TrimEmptyIffBlank | src/App.tsx:101-103 | trimming leaves nothing exactly when the text is all white space |
| Ingest.MissingFrom | src/App.tsx:151-152 | a label is reported missing exactly when no trimmed, case-folded header field matches it; nothing is missing exactly when every label is matched |
| Ingest.ReadRequests | src/App.tsx:155-156 | a count that is read is non-negative |
| Ingest.ReadWholeRequests | src/test/integration-percentage-display.test.ts:11-16 | a whole number written in decimal reads back as itself |
| Ingest.ReadPointedRequests | src/App.tsx:155-156 | a count written with any number of decimals reads back as exactly its value |
| Ingest.ReadNegativeRequests | src/App.tsx:155-156 | a count written with a minus sign is refused, unless its digits are all zero, when it reads as 0 |
| Ingest.ReadFlag | src/App.tsx:157-158 | the flag is true exactly for "True" and false exactly for "False" |
| Ingest.CheckFields | src/App.tsx:153-158 | a six-field row becomes a record exactly when it is well formed; otherwise the first failed check (timestamp, requests, flag, blank user or model) is the error, naming the row's line |
| Ingest.ParseRecord | src/App.tsx:159-160 | a row that does not split into six fields is a row-format error; otherwise as `CheckFields` |
| Ingest.RowParses | src/test/integration-percentage-display.test.ts:11-16 | a row written from a valid timestamp, a non-blank user and model, a whole count and a flag reads back as that record |
| Ingest.NumberedRows | src/test/integration-percentage-display.test.ts:10-16 | the rows carried forward are exactly the non-blank lines, in file order (strictly increasing numbers), each paired with the line its number names |
| Ingest.NumberedRowsAllText | src/test/integration-percentage-display.test.ts:10-16 | with no blank line, every line is a row, numbered consecutively |
| Ingest.ParseRows | src/App.tsx:153-160 | all rows parse, in order, or the error is that of the first faulty row |
| Ingest.ParseTable | src/App.tsx:151-160 | success exactly when the header names every required column and every data row reads as a record; then record `i` is data row `i` read, in order; otherwise the missing columns, or else the error of the first data row at fault |
| Ingest.Parse | src/App.tsx:96-105 | an all-white-space text is the empty-input error; a NUL is the binary-content error; otherwise, over the numbered non-blank lines, success exactly when the first names every required column and every later one reads as a record, the records being those lines read in file order, and failure the missing columns or the first faulty line's error |
| Export.CleanFileIsTable | src/test/integration-percentage-display.test.ts:10-21 | a file of clean lines passes the whole-file checks and reads as the table of its lines numbered from 1 |
| Export.ParseLines | src/test/integration-percentage-display.test.ts:10-21 | a complete header line, followed by clean lines that each read as a record, parses to those records in file order |
| IntegrationFixture.HeaderComplete | src/test/integration-percentage-display.test.ts:10 | the fixture's header names every required column |
| IntegrationFixture.Row0 | src/test/integration-percentage-display.test.ts:11 | the first data line reads as user1 / gpt-4 / 20 / within quota on 2024-01-01 |
| IntegrationFixture.Row1 | src/test/integration-percentage-display.test.ts:12 | the second data line reads as user2 / gpt-3.5-turbo / 10 / over quota |
| IntegrationFixture.Row2 | src/test/integration-percentage-display.test.ts:13 | the third data line reads as user1 / gpt-4 / 15 / within quota |
| IntegrationFixture.Row3 | src/test/integration-percentage-display.test.ts:14 | the fourth data line reads as user3 / gpt-3.5-turbo / 5 / over quota |
| IntegrationFixture.Row4 | src/test/integration-percentage-display.test.ts:15 | the fifth data line reads as user2 / coding-agent / 25 / within quota, quota "Unlimited" |
| IntegrationFixture.Row5 | src/test/integration-percentage-display.test.ts:16 | the sixth data line reads as user1 / gpt-4 / 5 / over quota |
| IntegrationFixture.FixtureParses | src/test/integration-percentage-display.test.ts:10-21 | the whole fixture file, header and six data lines, parses to the six expected records in file order |
| FixtureSummaries.StatusFixture | src/test/integration-percentage-display.test.ts:24-29 | the fixture file parses, and its records give 80 / 60 / 20 and 75% / 25% |
| FixtureSummaries.ModelSummaryFixture | src/test/integration-percentage-display.test.ts:32-63 | the fixture file's parsed records give three entries: gpt-4 (40, 50%, 35 / 5, 87.5% / 12.5%), coding-agent (25, 31.25%, 25 / 0, 100% / 0%), gpt-3.5-turbo (15, 18.75%, 0 / 15, 0% / 100%) |
| DailyCharts.DayPointIsGroupSum | src/App.tsx:244-256 | a date's accumulated point is the pair of sums over exactly that date's rows |
| DailyCharts.GroupByDate | src/App.tsx:242-256 | each date once, every row's date present, and each date's point its sums |
| DailyCharts.ChartData | src/App.tsx:238-261 | empty for no rows; otherwise one point per distinct date, ascending by date, each holding that date's compliant and exceeding sums |
| DailyCharts.ChartConservesTotals | src/App.tsx:238-261 | the chart shows exactly the compliant and exceeding volume of its rows |
| DailyCharts.LastWriteWins | src/App.tsx:292-295 | the fill pass leaves in a cell the volume of the last entry for that date and model, and 0 when there is none |
| DailyCharts.BarChartData | src/App.tsx:264-300 | empty for no entries; otherwise one row per distinct date, ascending by date; every row has a cell for every model named anywhere, holding the last write to it or 0 |
| DailyCharts.BarCellsAsPrescribed | src/App.tsx:286-295 | every cell holds what it must: 0 for a (date, model) pair no entry names, otherwise the volume of the last entry naming it |
| Views.UniqueModels | src/App.tsx:109 | each model of the records exactly once, no other, in order of first appearance |
| Views.UniqueModelsCount | src/App.tsx:109 | the list is as long as the set of models |
| Views.UniqueModelsSnoc | src/App.tsx:109 | one more record appends its model unless it is already listed |
| Views.PlanLimit | src/App.tsx:331-349 | "Unlimited" exactly when the multiplier is 0; otherwise the selected tier's limit, and the business limit for an unknown selection |
| Views.UnknownPlanFallsBackToBusiness | src/App.tsx:343-344 | an unrecognised selection, and the initial one, show what Business shows |
| Views.ZeroMultiplierIgnoresPlan | src/App.tsx:347-348 | a 0x model shows "Unlimited" under every plan |
| Views.DataKey | src/App.tsx:356-360 | the two display names map to their data keys, and any other key is kept |
| Views.HandleLegendClick | src/App.tsx:351-363 | "all" shows both bars; any other click shows exactly the clicked bar's data key |
| Views.ShowAllOption | src/App.tsx:378-381 | "All Requests" is offered exactly when one bar is visible |
| Views.LegendOffersAllAfterSingling | src/App.tsx:351-381 | after a click, "All Requests" is offered exactly when the click was not on it |
| Views.AllRestoresInitialView | src/App.tsx:351-353 | clicking "all" restores the starting bars, for which the option is not offered |
| Views.DisplayNameAndDataKeyAgree | src/App.tsx:356-361 | clicking a bar's display name and clicking its data key select the same bar |
| Views.FilteredPowerUserBreakdown | src/App.tsx:63-70 | the stored breakdown when no user is selected or no data is loaded; otherwise the breakdown recomputed for the selected user alone |
| Views.EmptySelectionIsNoSelection | src/App.tsx:64 | selecting the empty name is the same as selecting nobody |
| Upload.CsvNameOrTextTypeAccepted | src/App.tsx:76 | a `.csv` name, or a MIME type starting with "text/", passes both the picker's gate and the drop zone's gate |
| Upload.DropGateWithinPickerGate | src/App.tsx:76 | every file the drop zone accepts, the picker's gate accepts too |
| Upload.PickerGateWiderThanDropGate | src/App.tsx:76 | `application/csv` on a name without `.csv` passes the picker's gate but not the drop zone's |
| Upload.BinaryFileRejected | src/App.tsx:76-78 | an octet-stream `.xlsx` file is turned away by both gates |
| Upload.PreCheck | src/App.tsx:92-103 | the text passes exactly when it is present, non-empty, free of NUL and not all white space; otherwise the first failed check's message, in that order |
| Upload.PreCheckedTextPassesWholeFileChecks | src/App.tsx:93-105 | text that passes the checks never meets the parser's empty-input or binary-content error |
| Upload.EmptyReadBeatsBlank | src/App.tsx:93-103 | the empty string, though all white space, is reported as a failed read, not as an empty file; spaces around a NUL are binary |
| Upload.FirstRule | src/App.tsx:151-169 | the chosen rule is the first, in order, whose keyword the message contains |
| Upload.ErrorMessage | src/App.tsx:144-169 | a non-Error shows the fallback; an Error shows its own message, behind the prefix of the first matching rule or alone |
| Upload.FirstMatchingRuleDecides | src/App.tsx:151-166 | a message is shown behind the prefix of the first rule it matches, whatever later rules it also matches |
| Upload.UnmatchedMessageShownAsIs | src/App.tsx:167-168 | a message matching no rule is shown unchanged |
| Upload.MissingColumnsFirst | src/App.tsx:151-152 | a missing-columns report is always shown as a format problem |
| Upload.PreCheckMessagesShownAsIs | src/App.tsx:93-103 | the three pre-parse messages reach the toast unchanged |
| Upload.BinaryMessageClassified | src/App.tsx:161-162 | the binary-file message first matches the "binary" rule |
| Upload.EmptyMessageClassified | src/App.tsx:163-164 | the empty-file message first matches the "empty" rule |
| Dashboard.Start | src/App.tsx:76-81 | a file that passes the gate starts processing and changes nothing else; a rejected file only raises the error toast |
| Dashboard.PickFiles | src/App.tsx:188-199 | ignored while busy or when no file is chosen; otherwise the first file is started |
| Dashboard.DropFiles | src/App.tsx:220-235 | ignored while busy or when nothing is dropped; the drop zone's own gate is applied before the file is started |
| Dashboard.DroppedFileIsRead | src/App.tsx:220-235 | a file the drop zone lets through always reaches the reader |
| Dashboard.BusyIgnoresUploads | src/App.tsx:189 | a busy dashboard ignores both the picker and the drop zone |
| Dashboard.ReadFailed | src/App.tsx:85-88 | a reader failure stops processing and raises its toast; nothing else changes |
| Dashboard.Fail | src/App.tsx:142-181 | a failure clears every view, stops processing and shows the classified message; the model names, plan and visible bars are kept |
| Dashboard.Succeed | src/App.tsx:105-141 | a success stores the records, clears the selected power user, stops processing and toasts the record count; plan and visible bars are kept |
| Dashboard.Loaded | src/App.tsx:90-181 | records are stored exactly when the pre-checks and the parse pass, and they are the parsed records; a failed pre-check or parse shows its message as classified |
| Dashboard.InitialConsistent | src/App.tsx:72-186 | the starting state is consistent: nothing loaded and every view empty |
| Dashboard.LoadedConsistent | src/App.tsx:105-181 | after any load every view is the engine applied to the stored records, or empty when nothing is stored |
| Dashboard.OtherStepsKeepConsistent | src/App.tsx:188-235 | starting an upload, a reader failure and a legend click keep the state consistent |
| Dashboard.FailureKeepsModelNames | src/App.tsx:172-181 | a failed load after a successful one clears the data but keeps the earlier model names |
| Dashboard.ShownModelNamesAreCurrent | src/App.tsx:482 | while the analysis is on display, the model names are those of the loaded records |
| Dashboard.NothingLoadedShowsNothing | src/App.tsx:238-300 | with nothing loaded both chart series and the power-user breakdown are empty |
| Dashboard.SuccessToastCountsRecords | src/App.tsx:141 | after a load that stores records, the success toast carries a decimal numeral whose value is the number of records loaded |
| Dashboard.BinaryTextRejected | src/App.tsx:96-98 | a text containing NUL is reported as binary, nothing is stored, and the state stays consistent |

## Left out

- The engine module: its source is not part of this model. Its behaviour
  here follows the dashboard's calls and its tests. Timestamps,
  `getPowerUsers`, `getPowerUserDailyBreakdown`, `aggregateDataByDay`,
  `getDailyModelData`, the summary without shares and `getLastDateFromData`
  are parameters of `Dashboard.Engine`, and nothing is assumed about them.
- The parser's own error texts. `Dashboard.Engine.describe` maps each parse
  error to the message it throws, because those texts live in the engine.
  The classification of any message is modelled in full in `Upload`.
- Exceptions thrown by engine functions other than the parser. They are not
  modelled, so `Dashboard.Succeed` assumes those calls return.
- Timestamps. A record keeps the date (the first ten characters of the ISO
  timestamp). A timestamp must be a `YYYY-MM-DD` calendar date, with month
  01-12 and day 01-31. The model does not cover JavaScript `Date`
  parsing, time zones or day-of-month validity.
- `localeCompare`. It is modelled as code-unit order, which agrees with it on
  the `YYYY-MM-DD` dates the charts sort.
- Request counts. They are exact reals, not IEEE doubles. This is why the
  tests' `toBeCloseTo` values (83.33, 66.67) are stated as the exact ratios
  250/3 and 200/3.
- Number formatting. `formatPercentage` is modelled as `toFixed` on the exact
  value. `toLocaleString` of the plan limit is kept as the integer
  (`Views.Limit`).
- Ingest.ReadRequests: the count grammar is `[-]digits[.digits]`, read
  exactly. Numerals that JavaScript's number parsing would also take, such as
  ".5", "+5", "1e3" or a count padded with spaces, are refused here.
- Ingest.ParseTable: the header check is presence only, as the error it
  reports names only missing columns; the fields of a data row are then read
  by position, in the export's column order. A header that names every column
  in another order is accepted and its rows are read positionally; the model
  does not reject it.
- DailyCharts.BarChartData: a bar row keeps its date apart from its map of
  model values. In the source both share one plain object, so a model named
  "date" would overwrite the date with 0 (and the date sort would then
  throw), and a model named "__proto__" would get no cell. Model names that
  clash with the date key or with `Object.prototype` are not modelled.
- Model colours (`getModelColors`), drag-over highlighting, the exceeded-
  request details dialog, tabs and the rest of the rendering.
- The file input's value reset, the `FileReader` itself (its result is a
  parameter of `Dashboard.Loaded`), `console.error` and toast timing.
- Views.DataKey: a legend key that names a property of `Object.prototype`
  (such as "constructor") would make the source's map lookup return a
  function. Legend keys come from the chart library's fixed payload, so this
  is not modelled.
- `uniqueModels` is not reset on failure (App.tsx:172-181), as in the source.
  `Dashboard.Consistent` therefore leaves it unconstrained while nothing is
  loaded. `Dashboard.ShownModelNamesAreCurrent` shows that the stale list is
  never on display.
