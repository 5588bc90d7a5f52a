# Sleep-tracking dashboard: a verified model of its decision rules

The dashboard of the intelligent sleep-tracking system shows a patient's
vital signs (temperature, heart rate, SpO2 and sleep posture), raises alerts,
summarises recent history, draws a sleep-posture chart, exports and e-mails a
health report, keeps caregiver notes, and sits behind a one-code access gate.
This project models the logic of that front end in Dafny and proves what it
computes:

- `VitalsOverview`: the alert list for the latest reading, and the trends summary (mean temperature, most common posture, flag).
- `PostureDistribution`: the date window of the posture query and the three-slice pie chart.
- `ReportGeneration`: the report file name, the vitals and trend cells, the posture table, the health summary, the CSV export and the preview figures.
- `CaregiverNotes`: saving and loading the notes kept in local storage.
- `AuthProvider`: the access gate, as a flag mirrored under one storage key.
- `ReportEmail`: the e-mail route's checks, the message it builds, and the request the report screen sends.

Shared modules:

- `JsValues`: JavaScript's `null` / `undefined` / truthiness rules and the reading rows.
- `Text`: trim, whitespace collapsing, decimal text, join and split.
- `Tally`: the `Record` counting loop, the stable sort that picks the most common key, and rounded percentages.
- `Storage`: `localStorage`.
- `JsonStrings`: `JSON.stringify` and `JSON.parse` on string arrays.
- `Base64`: the browser's encoder and Node's decoder.

Fetched rows, the current time and locale formatting are inputs. The text
JavaScript prints for a number or a timestamp is a function parameter
(`num`, `time`). Numbers are exact reals, so `> 37.5` and `< 95` are exact.

Stateful code keeps its form:

- The `forEach` tally loop is the method `Tally.CountKeys`, proved against the predicate `IsTallyOf`.
- The alert list built by successive `push` calls is the method `AlertsSection`.
- Storage, the notes panel, the access gate and the mail transport are classes whose methods state their whole new state.

The posture tally loop occurs four times in `report-generation.tsx` (180-183,
359-362, 504-507, 683-686). The four loops are identical, so `PostureTally`
models all of them. The tables built from them differ only in their header
("Percentage" or "Percent") and in passing the count as a number or as its
`toString()`, which the table prints alike; `PostureTable` models their rows.
The vitals cells occur four times (129-134, 337-340, 454-457, 661-664) and
are modelled by `VitalsCells`. The `?:` trend rows occur twice (157-160,
481-484) and are modelled by `TrendRows`. The `??` fallback trend rows occur
twice (350-353, 674-677) and are modelled by `FallbackTrendRows`.

### Posture labels

- The chart's total counts every fetched row, recognised or not (`sleep-posture-distribution.tsx:43-46`).
- The chart labels its third slice "Supine Position" (`sleep-posture-distribution.tsx:7`), while the alert rule treats only "Supine" as normal (`vitals-overview.tsx:25`).
- So rows labelled "Supine" enter the chart's total but no slice (`UnlistedRowCountsOnlyInTotal` in general, `SupineRowsCountOnlyInTotal` for one example), and a reading labelled "Supine Position" raises the abnormal-posture alert (`SupinePositionLabelIsAbnormal`).

## Model

Paths are relative to the repository root.

| member | source | states |
|---|---|---|
| VitalsOverview.AlertsSection | frontend-dashboard/components/vitals-overview.tsx:13-26 | the pushed alerts are exactly the checks that fire, in the fixed check order (`Raised`) |
| VitalsOverview.RaisedMembership | frontend-dashboard/components/vitals-overview.tsx:15-25 | an alert is in the list iff its condition holds for the reading |
| VitalsOverview.MissingBeforeThreshold | frontend-dashboard/components/vitals-overview.tsx:18-25 | the list is in check order without repeats, and every missing-field alert precedes every threshold alert |
| VitalsOverview.NoVitalsAlone | frontend-dashboard/components/vitals-overview.tsx:15-16 | with no reading at all the list is exactly the one alert "No vitals data available." |
| VitalsOverview.MessageInjective | frontend-dashboard/components/vitals-overview.tsx:16-25 | the nine alert texts are pairwise distinct |
| VitalsOverview.MissingFieldAlerts | frontend-dashboard/components/vitals-overview.tsx:18-21 | each field's missing alert fires iff that field is null or undefined, independently of the others |
| VitalsOverview.TemperatureAlerts | frontend-dashboard/components/vitals-overview.tsx:22-23 | high iff temperature > 37.5 (37.5 does not fire); for a number, low iff < 35; never both |
| VitalsOverview.NullTemperatureIsLow | frontend-dashboard/components/vitals-overview.tsx:18-23 | a null temperature raises both the missing and the low alert; an undefined one raises only the missing alert |
| VitalsOverview.SpO2Alerts | frontend-dashboard/components/vitals-overview.tsx:20-24 | low SpO2 iff SpO2 is a number < 95; never together with the SpO2-missing alert |
| VitalsOverview.PostureAlerts | frontend-dashboard/components/vitals-overview.tsx:21-25 | abnormal posture iff the posture is non-empty and not Supine/Left/Right; never together with posture-missing |
| VitalsOverview.SupinePositionLabelIsAbnormal | frontend-dashboard/components/vitals-overview.tsx:25 | the chart's label "Supine Position" raises the abnormal-posture alert; "Supine" does not |
| VitalsOverview.NormalReadingRaisesNothing | frontend-dashboard/components/vitals-overview.tsx:17-26 | a complete reading within all thresholds raises no alert |
| VitalsOverview.AnyFlagged | frontend-dashboard/components/vitals-overview.tsx:51 | true iff some row has temperature > 37.5 or SpO2 < 95 |
| VitalsOverview.TrendsSummaryCard | frontend-dashboard/components/vitals-overview.tsx:43-51 | nothing for an empty history; otherwise the mean of the temperatures (missing and 0 as 0) over all rows, the most common truthy posture (ties to the first seen) or "--", and the flag iff some row is flagged |
| VitalsOverview.NullSpO2Flags | frontend-dashboard/components/vitals-overview.tsx:51 | a null SpO2 flags the row (it compares as 0); an undefined SpO2 does not |
| JsValues.MeanTemperature | frontend-dashboard/components/vitals-overview.tsx:45 | the mean times the row count is the sum of temperatures with missing and 0 counted as 0 |
| JsValues.TruthyPositionsMembership | frontend-dashboard/components/vitals-overview.tsx:48 | a posture is tallied iff some row carries it as a non-empty string |
| JsValues.MissingTemperatureLowersMean | frontend-dashboard/components/vitals-overview.tsx:45 | a missing temperature counts as 0 and drags the mean below the common value of the other rows |
| Tally.CountKeys | frontend-dashboard/components/sleep-posture-distribution.tsx:42-45 | the loop leaves one key per distinct element, in first-appearance order, with its number of occurrences |
| Tally.TallyKeysDistinct | frontend-dashboard/components/report-generation.tsx:189 | the tally's entries have pairwise distinct keys |
| Tally.TallyTotal | frontend-dashboard/components/sleep-posture-distribution.tsx:46 | the counts add up to the number of elements tallied |
| Tally.LeaderIsMode | frontend-dashboard/components/vitals-overview.tsx:50 | the first entry after the stable descending sort is the most common element, ties going to the earliest; there is none iff nothing was tallied |
| Tally.ModeUnique | frontend-dashboard/components/report-generation.tsx:216 | the most common element, so defined, is unique |
| Tally.Percent | frontend-dashboard/components/sleep-posture-distribution.tsx:48 | 0 for a zero total; otherwise the nearest integer to 100·count/total with halves rounded up, at most 100 when count ≤ total |
| PostureDistribution.QueryWindow | frontend-dashboard/components/sleep-posture-distribution.tsx:26-34 | 7d and 30d bound the time from below by now − 7 and now − 30 days in ms; custom bounds both sides only when both dates are non-empty |
| PostureDistribution.WindowsNest | frontend-dashboard/components/sleep-posture-distribution.tsx:26-34 | every row the 7-day window admits the 30-day one admits; a half-filled custom range filters nothing; 7d admits iff the row is at most 604 800 000 ms old |
| PostureDistribution.PostureChart | frontend-dashboard/components/sleep-posture-distribution.tsx:41-51 | three entries in the fixed order Right, Left, Supine Position, each with the exact count of its label, the name "label (p%)" with p its rounded share of all rows, and its colour |
| PostureDistribution.ChartBounded | frontend-dashboard/components/sleep-posture-distribution.tsx:46-49 | the three values sum to at most the rows fetched, and every percentage lies in 0..100 |
| PostureDistribution.EmptyChart | frontend-dashboard/components/sleep-posture-distribution.tsx:43-49 | no data gives three zero slices named "label (0%)" |
| PostureDistribution.UnlistedRowCountsOnlyInTotal | frontend-dashboard/components/sleep-posture-distribution.tsx:43-49 | a row whose position is none of the three labels leaves every slice's value unchanged, and each slice's percentage is then taken of one more row |
| PostureDistribution.SupineRowsCountOnlyInTotal | frontend-dashboard/components/sleep-posture-distribution.tsx:7 | for Right, Right, Left, Supine the slices read 50%, 25% and 0%: "Supine" rows enlarge the total but no slice |
| PostureDistribution.PercentExact | frontend-dashboard/components/sleep-posture-distribution.tsx:48 | a share that is a whole percentage is shown as exactly that number |
| ReportGeneration.ReportBaseName | frontend-dashboard/components/report-generation.tsx:76 | "health_report" without a patient; otherwise "health_report_" followed by the name with every whitespace run replaced by "_"; never any whitespace |
| ReportGeneration.ExportFileNames | frontend-dashboard/components/report-generation.tsx:376-391 | the PDF and the CSV are the base name with ".pdf" and ".csv" |
| ReportGeneration.SameFileNameBothWays | frontend-dashboard/components/report-generation.tsx:700 | the PDF that `sendToDoctor` saves locally gets the export name (the mailed attachment is named from the patient id, see `BuildMail`) |
| ReportGeneration.FileNameIgnoresSpaceRuns | frontend-dashboard/components/report-generation.tsx:76 | names differing only in the length or kind of a whitespace run give the same file name |
| ReportGeneration.UnitCell | frontend-dashboard/components/report-generation.tsx:130-132 | "--" iff the value is falsy (missing or 0); otherwise the number followed by its unit |
| ReportGeneration.PostureCell | frontend-dashboard/components/report-generation.tsx:133 | the posture when it is a non-empty string, "--" otherwise |
| ReportGeneration.VitalsCells | frontend-dashboard/components/report-generation.tsx:129-134 | four cells; each of temperature, heart rate and SpO2 is "--" iff that value is falsy, and otherwise the number followed by "°C", " bpm" or "%"; the fourth is the posture cell |
| ReportGeneration.ZeroShownAsMissing | frontend-dashboard/components/report-generation.tsx:130-132 | a temperature or SpO2 of 0 is shown as "--" |
| ReportGeneration.TrendRows | frontend-dashboard/components/report-generation.tsx:157-160 | one row per reading in order: the time or "--", and the temperature with "°C" or "--" when falsy |
| ReportGeneration.FallbackTrendRows | frontend-dashboard/components/report-generation.tsx:350-353 | one row per reading in order, with `??`: only a null or undefined temperature becomes "--" |
| ReportGeneration.TrendBranchesDisagreeOnlyAtZero | frontend-dashboard/components/report-generation.tsx:159 | the two trend tables disagree on "--" exactly for a temperature of 0 |
| ReportGeneration.PostureTally | frontend-dashboard/components/report-generation.tsx:180-183 | the loop tallies exactly the truthy postures of the history (none without one) |
| ReportGeneration.PostureTableIsTableOf | frontend-dashboard/components/report-generation.tsx:184-193 | one row per distinct posture in first-appearance order, with its count and its rounded share of the total followed by "%" |
| ReportGeneration.PostureTableRow | frontend-dashboard/components/report-generation.tsx:189-193 | each row holds its posture, the decimal count and the rounded percentage; the "0%" branch never shows, since a row implies a non-zero total |
| ReportGeneration.PostureTableCountsAddUp | frontend-dashboard/components/report-generation.tsx:184-191 | the count cells, read as numbers, add up to the number of postures tallied |
| ReportGeneration.TemperatureStatus | frontend-dashboard/components/report-generation.tsx:213 | "Elevated Temperature" iff the temperature is a number > 37.5, "Normal Temperature" otherwise (also when missing) |
| ReportGeneration.HeartRateBand | frontend-dashboard/components/report-generation.tsx:214 | "Not Available" iff falsy; otherwise "Elevated" iff > 100, "Low" iff < 60, "Normal" iff within 60..100 |
| ReportGeneration.SpO2Band | frontend-dashboard/components/report-generation.tsx:215 | "Not Available" iff falsy; otherwise "Below Normal" iff < 95, "Normal" iff ≥ 95 |
| ReportGeneration.MostCommonPositionIsMode | frontend-dashboard/components/report-generation.tsx:216 | "Not Available" for an empty tally; otherwise the most common posture, ties to the first seen |
| ReportGeneration.SummaryLines | frontend-dashboard/components/report-generation.tsx:211-217 | always five lines, each a "• " bullet |
| ReportGeneration.ReportAgreesWithTrendsCard | frontend-dashboard/components/report-generation.tsx:216 | when some reading has a posture, the report's most common position is the one the trends card shows for the same history |
| ReportGeneration.CsvLines | frontend-dashboard/components/report-generation.tsx:378-386 | the header line "Time,Temperature,Position", then one comma-joined line per reading, in order |
| ReportGeneration.CsvLineCount | frontend-dashboard/components/report-generation.tsx:386 | when no cell holds a line break, splitting the CSV at line breaks gives back exactly its lines, readings + 1 of them |
| ReportGeneration.CsvRecordFields | frontend-dashboard/components/report-generation.tsx:380-386 | a record whose cells hold no comma reads back as its three cells |
| ReportGeneration.CommaInTimeShiftsColumns | frontend-dashboard/components/report-generation.tsx:381-386 | cells are not quoted: a time text containing a comma splits into more than three fields |
| ReportGeneration.PreviewAverage | frontend-dashboard/components/report-generation.tsx:809 | none ("--") for a missing or empty history; otherwise the mean with missing and 0 counted as 0 |
| ReportGeneration.PreviewFlag | frontend-dashboard/components/report-generation.tsx:810 | true iff some reading's temperature exceeds 37.5 |
| ReportGeneration.PreviewFlagWeakerThanTrendsFlag | frontend-dashboard/components/report-generation.tsx:810 | the preview flag implies the trends flag, but a reading with SpO2 94 sets only the latter |
| Text.TrimEmptyIffAllSpace | frontend-dashboard/app/dashboard/page.tsx:178 | a draft trims to "" iff it is whitespace only |
| Text.TrimIdempotent | frontend-dashboard/app/dashboard/page.tsx:179 | trimming a trimmed note changes nothing |
| Text.CollapseSpaces | frontend-dashboard/components/report-generation.tsx:76 | the result holds no whitespace and is no longer than the input; `Text.CollapseWithoutSpace` (text without whitespace is unchanged) and `Text.CollapseRun` (a whitespace run becomes one "_") pin down the replacement |
| Text.CollapseIdempotent | frontend-dashboard/components/report-generation.tsx:76 | collapsing twice gives what collapsing once gives |
| Text.DecimalRoundTrip | frontend-dashboard/components/report-generation.tsx:191 | the decimal text of a count reads back as that count |
| Text.SplitJoin | frontend-dashboard/components/report-generation.tsx:386 | splitting a join gives the parts back when no part holds the separator |
| Text.SplitCount | frontend-dashboard/components/report-generation.tsx:386 | a split gives one piece more than there are separators |
| CaregiverNotes.NotesPanel.SaveNote | frontend-dashboard/app/dashboard/page.tsx:177-184 | a blank draft changes nothing; otherwise the trimmed draft is prepended, storage holds the JSON of exactly the new list (other keys untouched), the draft is cleared, and the stored list reads back as the new list |
| CaregiverNotes.NotesPanel.Load | frontend-dashboard/app/dashboard/page.tsx:160-161 | a non-empty stored text that parses replaces the list; an absent or empty one keeps it; an unparsable one fails and keeps it |
| CaregiverNotes.NotesPanel.constructor | frontend-dashboard/app/dashboard/page.tsx:136-137 | the page starts with an empty draft and no notes |
| CaregiverNotes.StoredNotes | frontend-dashboard/app/dashboard/page.tsx:160-161 | a list is found only under the notes key, as the parse of the stored text |
| CaregiverNotes.SaveThenLoad | frontend-dashboard/app/dashboard/page.tsx:181 | whatever list a save writes, the next load reads back the same list |
| CaregiverNotes.PrependedNote | frontend-dashboard/app/dashboard/page.tsx:178-179 | the new list is one longer, its head is the trimmed, non-blank draft, and the earlier notes follow unchanged |
| JsonStrings.Stringify | frontend-dashboard/app/dashboard/page.tsx:181 | the JSON text is bracketed and never empty, so a saved list is always found on load |
| JsonStrings.ParseStringify | frontend-dashboard/app/dashboard/page.tsx:161 | `JSON.parse` of `JSON.stringify(xs)` gives xs back, including quotes, backslashes and control characters |
| JsonStrings.StringifyInjective | frontend-dashboard/app/dashboard/page.tsx:181 | distinct note lists are stored as distinct texts |
| Storage.LocalStorage.GetItem | frontend-dashboard/components/auth-provider.tsx:18 | the stored value, or none for a key not set |
| Storage.LocalStorage.SetItem | frontend-dashboard/components/auth-provider.tsx:27 | the key gets the value and no other key changes |
| Storage.LocalStorage.RemoveItem | frontend-dashboard/components/auth-provider.tsx:35 | the key is gone and no other key changes |
| AuthProvider.Gate.constructor | frontend-dashboard/components/auth-provider.tsx:15 | the provider starts signed out |
| AuthProvider.Gate.Init | frontend-dashboard/components/auth-provider.tsx:17-22 | the flag is set iff the stored mark is exactly "true"; from the initial state the flag then agrees with storage |
| AuthProvider.Gate.Login | frontend-dashboard/components/auth-provider.tsx:24-31 | succeeds iff the code is exactly "afreentaj"; success sets the flag and stores "true" under "healthmonitor_auth"; failure changes nothing; agreement with storage is kept |
| AuthProvider.Gate.Logout | frontend-dashboard/components/auth-provider.tsx:33-36 | clears the flag and removes only the mark; agreement holds afterwards; a second logout changes nothing |
| AuthProvider.UseAuth | frontend-dashboard/components/auth-provider.tsx:42-48 | outside a provider the error "useAuth must be used within an AuthProvider"; inside, the provider's context |
| AuthProvider.ReloadAfterLogin | frontend-dashboard/components/auth-provider.tsx:15-31 | after a login attempt, a fresh provider over the same storage is signed in iff the code was right or the mark was already stored |
| AuthProvider.ReloadAfterLogout | frontend-dashboard/components/auth-provider.tsx:15-36 | after a logout, a fresh provider over the same storage is signed out |
| Base64.Encode | frontend-dashboard/components/report-generation.tsx:704 | the text is 4·⌈n/3⌉ characters long (RFC 4648 section 4 with padding) |
| Base64.DecodeEncode | frontend-dashboard/app/api/send-report-email/route.ts:30 | Node's decoder gives back exactly the bytes the browser encoded |
| Base64.EncodeEmpty | frontend-dashboard/components/report-generation.tsx:704 | only the empty byte sequence encodes to the empty text |
| ReportEmail.MailText | frontend-dashboard/app/api/send-report-email/route.ts:26 | "Doctor Remarks: " and the remarks when they are non-empty, else "Patient report attached." |
| ReportEmail.BuildMail | frontend-dashboard/app/api/send-report-email/route.ts:22-34 | sent to the given address, subject "Patient Report for ID: " + id, and exactly one attachment "health_report_" + id + ".pdf" of type application/pdf holding the decoded base64 |
| ReportEmail.ErrorText | frontend-dashboard/app/api/send-report-email/route.ts:40 | the error's message when non-empty, else "Failed to send email"; never empty |
| ReportEmail.Mailer.SendMail | frontend-dashboard/app/api/send-report-email/route.ts:36 | the transport accepts the message into its outbox or throws its error, sending nothing |
| ReportEmail.Post | frontend-dashboard/app/api/send-report-email/route.ts:4-41 | an unreadable body gives 500; a missing or empty email, patientId or pdfBase64 gives 400 "Missing required fields" and sends nothing; otherwise exactly the built message is sent and the answer is success, or 500 with the transport's error text and nothing sent |
| ReportEmail.ClientRequest | frontend-dashboard/components/report-generation.tsx:707-714 | the recipient is the doctor's e-mail, or doctor@example.com when that is empty, so never empty; the patient id and remarks pass through unchanged; the PDF travels as its base64 encoding |
| ReportEmail.ClientMessage | frontend-dashboard/components/report-generation.tsx:716-719 | "Report sent successfully!" iff the route answered success; otherwise "Failed to send: " with the route's error or "Unknown error", or, when the request or reading the answer threw, with the error's message or nothing |
| ReportEmail.ClientRequestAccepted | frontend-dashboard/components/report-generation.tsx:708-713 | the route refuses the screen's request iff the patient id or the PDF is empty |
| ReportEmail.SendFromScreen | frontend-dashboard/components/report-generation.tsx:700-717 | with a patient id and a non-empty PDF and a transport that accepts, one message reaches the (possibly default) address with one attachment holding exactly the PDF bytes; with a transport that throws, the answer is 500 with its error text and nothing is sent; without a patient id or PDF the answer is 400 and nothing is sent |

## Left out

- Data-store I/O. All queries, the realtime subscription and their error paths are left out. Fetched rows, `Date.now()` and the data store's date parsing (`toMs`) are inputs.
- The report screen's own fetch range (`report-generation.tsx:47-65`) is left out. It is the same seven-day rule as `QueryWindow`.
- Rendering is left out: React state and re-render order, the 5-second alert timer, recharts, and the jsPDF layout (the `y` cursor, fonts, colours, page breaks, the constant report sections), plus blob and anchor downloads.
- Locale and number text are parameters, not modelled: `toLocaleString`, `toFixed(1)` and the text of a number (`${x}`).
- Floating point is not modelled. Values are exact reals, and `Math.round(c / t * 100)` is exact round-half-up, which binary floating point can miss by one at an exact half. NaN values are not modelled.
- Object keys that look like array indices are not modelled. JavaScript enumerates such keys ("0", "1", …) before other keys; the model keeps pure insertion order, which is right for posture labels.
- The ML backend, the PDF-parsing service and the prediction upload (`report-generation.tsx:724-744`) are left out.
- The SMTP transport configuration (`route.ts:12-20`) is left out. Its outcome is the `failure` field of `Mailer`, and the sender address is the parameter `from`.
- The `String.fromCharCode(...bytes)` spread is not modelled. It can overflow the call stack for a large PDF.
- The JSON transport of the request body is left out; the body is passed as a value.
- TrendsSummaryCard: takes the history as a sequence, so the `!historical` test for a null history is not modelled (the page always passes an array).
- ClientRequest: takes the patient id directly. Without a patient, `sendToDoctor` returns before building the PDF, sending anything or showing a status line (`report-generation.tsx:398`), so that path has no request to model.
- SendFromScreen: stops at the route's answer and the messages sent. The status line shown for that answer is `ClientMessage`. A network failure of `fetch` is not modelled beyond the `Threw` outcome of `ClientMessage`.
- JsonStrings.Parse: refuses escaped surrogates, since Dafny characters are scalar values; `JSON.parse` combines a pair of them. It also treats valid JSON of another shape as a failure, whereas the page would store that value as its notes.
- Base64.Decode: models Node's decoder as skipping characters outside both alphabets and stopping at the first `=`. How Node sizes its output buffer for such ill-formed text, and how that differs across Node versions, is not modelled.
- UseAuth: returns an error value instead of throwing.
- SummaryLines: its own contract states only the line count and the bullet prefix. The content of each line is stated by TemperatureStatus, HeartRateBand, SpO2Band and MostCommonPositionIsMode.
