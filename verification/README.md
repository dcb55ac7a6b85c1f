# Report-directory maintenance scripts, modelled in Dafny

This project models the four Node scripts that keep the Cucumber report directory of the
report viewer in order, and proves what they promise:

- `cleanup-reports.js` deletes every canonical report (`gct-*.json`) that holds no tests. Of
  the reports that share one `YYYYMMDD-HHMMSS` key, it also deletes all but the largest.
- `rename-to-short-format.js` gives every long report name that embeds an ISO time stamp its
  canonical `gct-YYYYMMDD-HHMMSS.json` name. It never overwrites a file, and it appends one
  batch describing the renames to `.rename-log.json`.
- `process-new-uploads.js` handles each uploaded `report-*.json` in one of three ways:
  - leaves it alone when it is not a report;
  - deletes it when it is a misplaced rename log;
  - renames it to the canonical name, built from the local time of its first scenario.
- `make-100-percent.js` counts the step statuses of one report, marks every step that has not
  passed as passed, and writes the result to a new file.

The reports directory is a map from file name to `FileEntry(size, content)`. The content is a
parsed JSON value, a parse failure or a read failure. The map is the field of a `Directory`
class whose `Unlink`, `Rename` and `Write` methods stand for `fs.unlinkSync`, `fs.renameSync`
and `fs.writeFileSync`.

The parsed value is a generic `Json` datatype, not a typed feature/scenario/step record. The
scripts test shapes that a typed record cannot express: `Array.isArray`, truthiness,
`feature.elements` on anything, `data[0].timestamp`. JavaScript's property reads and
truthiness are the functions `Field`, `Index0` and `Truthy`.

Each script is an imperative method proved against a specification function of the directory
it starts from: `Cleanup.Doomed`, `Rename.RenameEffect`, `Uploads.UploadEffect` or
`ForcePass.ForceEffect`. The properties each script promises are lemmas about those functions.
The module `Pipeline` proves how the scripts fit together: the names one writes are names the
others read.

The environment is passed in as parameters:
- the directory listing `fs.readdirSync` returns, in its order;
- the set of names whose unlink or rename fails;
- the clock values (`new Date().toISOString()`, or the local time of `new Date()`);
- `new Date(start_timestamp)` read in local time, as a function;
- the byte sizes of the files written.

Modules and files:

| file | modules |
|---|---|
| text.dfy | `Options` (Option datatype), `Text` (prefix/suffix tests, digits, `String(n)`, `padStart`, leftmost fixed-width match) |
| json.dfy | `Json` (values, property reads, truthiness), `Cucumber` (scenarios of a feature, steps of a scenario) |
| storage.dfy | `Storage` (file contents, the `Directory` class) |
| cleanup.dfy | `Cleanup` |
| rename.dfy | `Rename` |
| uploads.dfy | `Uploads` |
| force_pass.dfy | `ForcePass` |
| pipeline.dfy | `Pipeline` |

## Model

| member | source | states |
|---|---|---|
| Text.FirstWindowIsLeftmost | cucumber-report-viewer/public/TestResultsJsons/rename-to-short-format.js:18 | The fixed-width window search finds a match, and finds the leftmost one. It finds none exactly when no window matches, which is how an unanchored `String.prototype.match` behaves. |
| Text.Decimal | cucumber-report-viewer/public/TestResultsJsons/process-new-uploads.js:51-56 | `String(n)` is all digits and denotes `n`. It has no leading zero and has 1, 2, 3 or 4 characters in the matching decimal range. |
| Text.PadStart2 | cucumber-report-viewer/public/TestResultsJsons/process-new-uploads.js:52-56 | `padStart(2, '0')` keeps a string of two or more characters. A shorter one becomes two characters: zeros, then the string. |
| Text.PadStart2Value | cucumber-report-viewer/public/TestResultsJsons/process-new-uploads.js:52-56 | Padding a digit string keeps it all digits and keeps the number it denotes. |
| Text.TwoDigitField | cucumber-report-viewer/public/TestResultsJsons/process-new-uploads.js:52-56 | A number below 100, written and padded, is a two-digit field denoting that number. |
| Storage.Directory.Unlink | cucumber-report-viewer/public/TestResultsJsons/cleanup-reports.js:130 | Succeeds exactly when the name exists and does not fail. The name is then gone and nothing else changes. |
| Storage.Directory.Rename | cucumber-report-viewer/public/TestResultsJsons/rename-to-short-format.js:67 | Succeeds exactly when the source exists and does not fail. The content then moves to the new name, replacing any file there. |
| Storage.Directory.Write | cucumber-report-viewer/public/TestResultsJsons/make-100-percent.js:59 | The name holds the new entry afterwards and every other file is unchanged. |
| Cleanup.AllReports | cucumber-report-viewer/public/TestResultsJsons/cleanup-reports.js:17-29 | Exactly the `gct-*.json` names of the listing, each with its size. No name appears twice when the listing has no repeats. |
| Cleanup.AllReportsInOrder | cucumber-report-viewer/public/TestResultsJsons/cleanup-reports.js:18-19 | The reports keep the listing's order, which findDuplicates' first-seen tie-break depends on. |
| Cleanup.CountSteps | cucumber-report-viewer/public/TestResultsJsons/cleanup-reports.js:54-58 | The inner loop throws exactly when a scenario is null. Otherwise it returns the step total, where scenarios without an array `steps` add nothing. |
| Cleanup.CountFeatures | cucumber-report-viewer/public/TestResultsJsons/cleanup-reports.js:51-60 | The nested loops throw exactly when a feature or one of its scenarios is null. Otherwise they return the scenario and step totals. |
| Cleanup.IsEmptyReport | cucumber-report-viewer/public/TestResultsJsons/cleanup-reports.js:32-69 | The verdict is the emptiness predicate of the content. |
| Cleanup.EmptyIffNoSteps | cucumber-report-viewer/public/TestResultsJsons/cleanup-reports.js:43-63 | An array report is empty exactly when counting throws or it has no step. The `length === 0` test and the `totalScenarios === 0` test never decide the verdict on their own. |
| Cleanup.StepsNeedScenarios | cucumber-report-viewer/public/TestResultsJsons/cleanup-reports.js:47-63 | A report with a step has a scenario, so "no steps" covers "no scenarios". |
| Cleanup.TotalsOutline | cucumber-report-viewer/public/TestResultsJsons/cleanup-reports.js:47-60 | Reports with the same outline (nulls, scenario counts and step counts) have the same totals. |
| Cleanup.EmptinessIgnoresSteps | cucumber-report-viewer/public/TestResultsJsons/cleanup-reports.js:51-60 | Step contents, statuses included, never change the emptiness verdict. |
| Cleanup.DuplicateKey | cucumber-report-viewer/public/TestResultsJsons/cleanup-reports.js:78-80 | A key is 8 digits, '-', then 6 digits. |
| Cleanup.DuplicateKeyIsFirstMatch | cucumber-report-viewer/public/TestResultsJsons/cleanup-reports.js:78-80 | A name has no key exactly when no window of it matches `gct-\d{8}-\d{6}\.json`. Otherwise the key is the two groups of the leftmost match. |
| Cleanup.KeptUnique | cucumber-report-viewer/public/TestResultsJsons/cleanup-reports.js:82-90 | At most one report is kept per key. |
| Cleanup.KeptExists | cucumber-report-viewer/public/TestResultsJsons/cleanup-reports.js:76-95 | Every key present has a kept report. It is the largest in its group, and it is strictly larger than every earlier one, so a tie goes to the first seen. |
| Cleanup.SoleReportKept | cucumber-report-viewer/public/TestResultsJsons/cleanup-reports.js:91-93 | A report whose key no other report has is never a duplicate. |
| Cleanup.PushedAll | cucumber-report-viewer/public/TestResultsJsons/cleanup-reports.js:76-95 | After the loop, a report is in the list exactly when it has a key and is not the kept one. The list length plus the number of distinct keys is the number of matching reports. |
| Cleanup.FindDuplicates | cucumber-report-viewer/public/TestResultsJsons/cleanup-reports.js:72-98 | The `dateMap` loop returns inputs only, each once. A report is returned exactly when it has a key and is not the kept one. Length = matching reports − distinct keys. |
| Cleanup.EmptyReports | cucumber-report-viewer/public/TestResultsJsons/cleanup-reports.js:109 | The filter keeps exactly the empty reports, each once. |
| Cleanup.Union | cucumber-report-viewer/public/TestResultsJsons/cleanup-reports.js:118 | `[...new Set([...a, ...b])]` holds the elements of both lists, each once, with `a` first. |
| Cleanup.DeleteReports | cucumber-report-viewer/public/TestResultsJsons/cleanup-reports.js:127-136 | Every listed name that does not fail is unlinked, and a failure does not stop the loop. `deleted` counts the successes. |
| Cleanup.ToDeleteIsDoomed | cucumber-report-viewer/public/TestResultsJsons/cleanup-reports.js:118 | The union names exactly the reports that are empty or duplicates, each once. |
| Cleanup.CleanDirectory | cucumber-report-viewer/public/TestResultsJsons/cleanup-reports.js:101-150 | Once the doomed reports are gone, no canonical report is empty and no two share a key. |
| Cleanup.CleanDirectoryAfter | cucumber-report-viewer/public/TestResultsJsons/cleanup-reports.js:127-136 | The same holds of the directory after the deletion loop when no unlink fails. |
| Cleanup.CleanupReports | cucumber-report-viewer/public/TestResultsJsons/cleanup-reports.js:101-150 | The script removes exactly the doomed names that do not fail. `deleted` is their number and `remaining` = total − deleted. With no failures, the directory left has no empty canonical report and no two canonical reports with one key. |
| Rename.ParseTimestamp | cucumber-report-viewer/public/TestResultsJsons/rename-to-short-format.js:16-24 | The groups found are decimal digits of widths 4, 2, 2, 2, 2, 2. |
| Rename.ParseTimestampIsFirstMatch | cucumber-report-viewer/public/TestResultsJsons/rename-to-short-format.js:16-24 | The result is null exactly when no window matches the ISO pattern. Otherwise it is the six groups of the leftmost match. |
| Rename.ShortName | cucumber-report-viewer/public/TestResultsJsons/rename-to-short-format.js:27-30 | Every short name starts with `gct-` and ends with `.json`. |
| Rename.ShortNameLayout | cucumber-report-viewer/public/TestResultsJsons/rename-to-short-format.js:27-30 | For well-formed groups the name has 24 characters, with each group at its fixed place. |
| Rename.ShortNameInjective | cucumber-report-viewer/public/TestResultsJsons/rename-to-short-format.js:27-30 | Different well-formed time stamps get different short names. |
| Rename.Candidates | cucumber-report-viewer/public/TestResultsJsons/rename-to-short-format.js:34-38 | A name is a candidate exactly when it ends in `.json`, is neither `index.json` nor `stats.json`, and does not start with `gct-`. The candidates keep their listing order, and distinctness is kept. |
| Rename.RenameTarget | cucumber-report-viewer/public/TestResultsJsons/rename-to-short-format.js:47-75 | A candidate moves only when it has a time stamp, its short name does not exist yet, and the rename does not fail. It moves to that short name. |
| Rename.RenameCounts | cucumber-report-viewer/public/TestResultsJsons/rename-to-short-format.js:46-76 | renamed + skipped = number of candidates. |
| Rename.EntriesSound | cucumber-report-viewer/public/TestResultsJsons/rename-to-short-format.js:66-71 | Every log entry pairs a candidate that did not fail with the short name of its time stamp. |
| Rename.KeepsOthers | cucumber-report-viewer/public/TestResultsJsons/rename-to-short-format.js:46-76 | A file that was not renamed keeps its content, whether it was skipped or never a candidate. |
| Rename.OnlyTargetsAppear | cucumber-report-viewer/public/TestResultsJsons/rename-to-short-format.js:46-76 | The only new names are rename targets. |
| Rename.MovedIntact | cucumber-report-viewer/public/TestResultsJsons/rename-to-short-format.js:59-71 | Each target did not exist before, and it ends up holding the content of its source. No file is overwritten. |
| Rename.SourcesGone | cucumber-report-viewer/public/TestResultsJsons/rename-to-short-format.js:66-67 | A renamed file is gone from its old name. |
| Rename.OneToOne | cucumber-report-viewer/public/TestResultsJsons/rename-to-short-format.js:59-71 | No two log entries share a source, and no two share a target. |
| Rename.NothingToRename | cucumber-report-viewer/public/TestResultsJsons/rename-to-short-format.js:49-64 | When no candidate can move, every candidate is skipped and the directory is unchanged. |
| Rename.Settled | cucumber-report-viewer/public/TestResultsJsons/rename-to-short-format.js:59-64 | A candidate that has a time stamp and did not fail, yet was not renamed, finds its short name present afterwards. |
| Rename.LogUntouched | cucumber-report-viewer/public/TestResultsJsons/rename-to-short-format.js:46-76 | The rename loop never touches `.rename-log.json`. |
| Rename.RenameReportsCounts | cucumber-report-viewer/public/TestResultsJsons/rename-to-short-format.js:101 | The returned counts add up to the candidates, and `renamed` is the number of entries. The script throws exactly when something was renamed and the log is unreadable or not an array. |
| Rename.RenameReportsLog | cucumber-report-viewer/public/TestResultsJsons/rename-to-short-format.js:85-99 | With no renames the log is left as it was, present or absent. With renames and earlier batches that can be read, the log holds those batches followed by the new `{timestamp, renames}` batch. |
| Rename.RenameLogWritten | cucumber-report-viewer/public/TestResultsJsons/rename-to-short-format.js:85-99 | With renames and no log yet, the new log is the one new batch. With renames and a log that is a JSON array, the new log is that array followed by the new batch. |
| Rename.SettledRun | cucumber-report-viewer/public/TestResultsJsons/rename-to-short-format.js:46-76 | After a failure-free run, every candidate left with a time stamp has its short name present. |
| Rename.SecondRunRenamesNothing | cucumber-report-viewer/public/TestResultsJsons/rename-to-short-format.js:33-102 | An immediate second failure-free run changes nothing, appends no batch and skips every candidate. |
| Rename.RenameAll | cucumber-report-viewer/public/TestResultsJsons/rename-to-short-format.js:42-76 | The imperative loop leaves the directory, counts and entries of the specification loop. |
| Rename.RenameReports | cucumber-report-viewer/public/TestResultsJsons/rename-to-short-format.js:33-102 | The script leaves the directory and outcome of the specification function. |
| Uploads.UploadName | cucumber-report-viewer/public/TestResultsJsons/process-new-uploads.js:51-58 | The new name starts with `gct-` and ends with `.json`. |
| Uploads.UploadNameLayout | cucumber-report-viewer/public/TestResultsJsons/process-new-uploads.js:51-58 | For a four-digit year the name has 24 characters. Its fields are digit groups denoting the year, month (1-based), day, hours, minutes and seconds. |
| Uploads.Uploads | cucumber-report-viewer/public/TestResultsJsons/process-new-uploads.js:7-8 | A name is processed exactly when it starts with `report-`, ends with `.json` and does not contain `100percent`. The uploads keep their listing order. |
| Uploads.UploadIsNotCanonical | cucumber-report-viewer/public/TestResultsJsons/process-new-uploads.js:8 | An upload name never has the canonical prefix. |
| Uploads.Classify | cucumber-report-viewer/public/TestResultsJsons/process-new-uploads.js:23-48 | Not a report exactly when the content parses to something other than a non-empty array. It throws exactly on a parse error or a null first element. It is a rename log exactly when the first element is not null and has truthy `timestamp` and `renames`. A report's time is `start_timestamp` of its first scenario when that chain is truthy, else the current time. |
| Uploads.ClassifyReadsFirstOnly | cucumber-report-viewer/public/TestResultsJsons/process-new-uploads.js:33-48 | Only the first element of a report decides its verdict. |
| Uploads.FateOf | cucumber-report-viewer/public/TestResultsJsons/process-new-uploads.js:20-67 | An upload only ever moves to a `gct-` name. |
| Uploads.StepKeepsLater | cucumber-report-viewer/public/TestResultsJsons/process-new-uploads.js:17-68 | Handling one upload leaves the later uploads, and what will happen to them, unchanged. |
| Uploads.CrashesOnlyOnRead | cucumber-report-viewer/public/TestResultsJsons/process-new-uploads.js:21-23 | The loop throws exactly when some upload cannot be read. Parse, unlink and rename errors are caught. |
| Uploads.StaysPut | cucumber-report-viewer/public/TestResultsJsons/process-new-uploads.js:27-30 | These uploads stay in place with their content: an upload that is not a report, one that throws inside the `try`, and one whose unlink or rename fails. |
| Uploads.Untouched | cucumber-report-viewer/public/TestResultsJsons/process-new-uploads.js:17-68 | A file that is not among the uploads, and that no upload is renamed to, keeps its content. |
| Uploads.LeaversGone | cucumber-report-viewer/public/TestResultsJsons/process-new-uploads.js:33-62 | Without a throw, deleted rename logs and renamed reports are gone from their old names. |
| Uploads.GoneStaysGone | cucumber-report-viewer/public/TestResultsJsons/process-new-uploads.js:17-68 | A removed name that is neither upcoming nor canonical never reappears. |
| Uploads.LastRenameWins | cucumber-report-viewer/public/TestResultsJsons/process-new-uploads.js:59-62 | When every upload can be read: there is no existence check, so a renamed report lands under its new name even when a file was there, and the last rename to a name wins. |
| Uploads.FirstRenameLands | cucumber-report-viewer/public/TestResultsJsons/process-new-uploads.js:59-62 | The first upload's rename survives when no later upload takes the same name. |
| Uploads.UploadEffectSummary | cucumber-report-viewer/public/TestResultsJsons/process-new-uploads.js:7-68 | On a directory listing the script exits early exactly when there are no uploads, and throws exactly when an upload is unreadable. Other files keep their content. Every name the run adds is the new name of a renamed upload. When no listed name is an upload, the directory is unchanged. Without a throw, deleted logs and renamed reports are gone. |
| Uploads.NewNamesAreTargets | cucumber-report-viewer/public/TestResultsJsons/process-new-uploads.js:17-68 | A name that appears during the loop is the new name of an upload renamed by it. |
| Uploads.ProcessUpload | cucumber-report-viewer/public/TestResultsJsons/process-new-uploads.js:18-67 | One turn of the loop performs the specified step, or reports the uncaught read error. |
| Uploads.ProcessNewUploads | cucumber-report-viewer/public/TestResultsJsons/process-new-uploads.js:7-68 | The script leaves the directory and outcome of the specification function. |
| ForcePass.StepsBounded | cucumber-report-viewer/public/TestResultsJsons/make-100-percent.js:22-27 | `totalSteps` counts every step, and passed + failed + skipped ≤ total. |
| ForcePass.FeaturesBounded | cucumber-report-viewer/public/TestResultsJsons/make-100-percent.js:20-29 | passed + failed + skipped ≤ total over the whole report. |
| ForcePass.CountStep | cucumber-report-viewer/public/TestResultsJsons/make-100-percent.js:23-26 | One step raises `total`, plus the one counter its status names exactly. |
| ForcePass.CountStepStatuses | cucumber-report-viewer/public/TestResultsJsons/make-100-percent.js:22-27 | The inner loop succeeds exactly when every step's result can be read, and then returns the step tally. |
| ForcePass.CountScenarioStatuses | cucumber-report-viewer/public/TestResultsJsons/make-100-percent.js:21-28 | The middle loop succeeds exactly when every scenario has an array of readable steps, and then returns the tally. |
| ForcePass.CountStatuses | cucumber-report-viewer/public/TestResultsJsons/make-100-percent.js:20-29 | The outer loop succeeds exactly when every feature has an array of countable scenarios, and then returns the tally. |
| ForcePass.ForceResult | cucumber-report-viewer/public/TestResultsJsons/make-100-percent.js:42-47 | A passed or non-object result is unchanged. Any other result gets status "passed", keeps a truthy duration or else gets 1000000000, and keeps every other field. |
| ForcePass.ForceStep | cucumber-report-viewer/public/TestResultsJsons/make-100-percent.js:41-48 | Only a step's `result` changes. |
| ForcePass.ForceScenario | cucumber-report-viewer/public/TestResultsJsons/make-100-percent.js:40-49 | A scenario's steps are forced one by one and nothing else changes. |
| ForcePass.ForceFeature | cucumber-report-viewer/public/TestResultsJsons/make-100-percent.js:39-50 | A feature's scenarios are forced one by one and nothing else changes. |
| ForcePass.ForcedStepStatus | cucumber-report-viewer/public/TestResultsJsons/make-100-percent.js:42-43 | A forced step has status "passed" when its original result is an object, and no status otherwise. |
| ForcePass.ForcedOutline | cucumber-report-viewer/public/TestResultsJsons/make-100-percent.js:39-51 | The feature count, the scenarios per feature and the steps per scenario are unchanged. Every step is its forced original. |
| ForcePass.AllForcedPassed | cucumber-report-viewer/public/TestResultsJsons/make-100-percent.js:39-51 | Every output step whose result is an object has status "passed". |
| ForcePass.ForcedTally | cucumber-report-viewer/public/TestResultsJsons/make-100-percent.js:39-51 | Counting the output finds the same total, with no failed and no skipped step. |
| ForcePass.ForcedShapeOk | cucumber-report-viewer/public/TestResultsJsons/make-100-percent.js:39-51 | A report the script can count stays countable after forcing. |
| ForcePass.ForceIdempotent | cucumber-report-viewer/public/TestResultsJsons/make-100-percent.js:42-48 | Forcing the output again changes nothing. |
| ForcePass.ForceStepsLoop | cucumber-report-viewer/public/TestResultsJsons/make-100-percent.js:41-48 | The in-place step loop yields the forced steps. |
| ForcePass.ForceScenariosLoop | cucumber-report-viewer/public/TestResultsJsons/make-100-percent.js:40-49 | The scenario loop yields the forced scenarios. |
| ForcePass.ForceFeaturesLoop | cucumber-report-viewer/public/TestResultsJsons/make-100-percent.js:39-51 | The feature loop yields the forced features. |
| ForcePass.SanitizeSpec | cucumber-report-viewer/public/TestResultsJsons/make-100-percent.js:54 | `.replace(/[:.]/g, '-')` keeps the length and turns exactly the ':' and '.' characters into '-'. Applying it again changes nothing. |
| ForcePass.ForcePassName | cucumber-report-viewer/public/TestResultsJsons/make-100-percent.js:54-55 | The output name starts with `GeoCall-Automation-Test-Results-Report-` and ends with `.json`. |
| ForcePass.SourceOnlyRead | cucumber-report-viewer/public/TestResultsJsons/make-100-percent.js:11-59 | Without an argument, or when the script throws, nothing changes. Otherwise only the output file is added or replaced. Every file other than the output keeps its content, the source too, unless it has the output's name. |
| ForcePass.Make100Percent | cucumber-report-viewer/public/TestResultsJsons/make-100-percent.js:5-59 | The script leaves the directory and outcome of the specification function. |
| Pipeline.ShortNameKey | cucumber-report-viewer/public/TestResultsJsons/cleanup-reports.js:78-80 | A short name is a canonical report name that the rename script skips. Its duplicate key is year+month+day-hour+minute+second of its time stamp. |
| Pipeline.ShortNameKeyInjective | cucumber-report-viewer/public/TestResultsJsons/cleanup-reports.js:78-82 | Two renamed reports share a duplicate key only when their time stamps are equal. |
| Pipeline.UploadNameIsShortName | cucumber-report-viewer/public/TestResultsJsons/process-new-uploads.js:51-58 | An upload's new name is `generateShortName` of its padded fields, so the rename script leaves it alone. |
| Pipeline.UploadNameKey | cucumber-report-viewer/public/TestResultsJsons/process-new-uploads.js:58 | With a four-digit year, the upload's new name carries the duplicate key of its local time. |
| Pipeline.ForcePassNameRenamed | cucumber-report-viewer/public/TestResultsJsons/make-100-percent.js:54-55 | The 100% report is not an upload, but it is a rename candidate. parseTimestamp finds in its name the date and time groups of the ISO string. |
| Pipeline.RenameLogRecognised | cucumber-report-viewer/public/TestResultsJsons/process-new-uploads.js:33-37 | A log written by the rename script is classified as a rename log. Under its own name it is neither an upload nor a canonical report. |
| Pipeline.ForcedEmptiness | cucumber-report-viewer/public/TestResultsJsons/make-100-percent.js:39-51 | Cleanup judges the 100% report empty exactly when it judges the original empty. |
| Pipeline.TotalIsStepCount | cucumber-report-viewer/public/TestResultsJsons/make-100-percent.js:20-29 | `totalSteps` equals the step total that isEmptyReport computes. |
| Pipeline.NoStepsIsEmpty | cucumber-report-viewer/public/TestResultsJsons/make-100-percent.js:14-59 | A processed report with no steps is empty for cleanup, and so is the 100% file made from it. |

## Left out

- JSON text: `JSON.parse` and `JSON.stringify`, and so whitespace and key order, are not modelled. A file's content is the parsed value or a parse failure. The byte size of a written file is a parameter.
- Clocks and dates are parameters of the model:
  - `new Date()`, `toISOString()` and `new Date(start_timestamp)` with its local-time getters;
  - an `Invalid Date`, which would give a `NaN` file name, is excluded by the `LocalTime` subset type;
  - years outside 1000 to 9999 are modelled but not proved canonical.
- Console output is left out, and so are the pass-rate percentage (floating point, display only) and the "regenerate the index" hints.
- File-system failures are modelled only for unlink and rename, as a set of failing names. Failures of `readdirSync`, `statSync` and `writeFileSync` are left out, and so are directories in the listing.
- `path.join`: the script argument of make-100-percent is taken to be a file name in the reports directory. A path reaching elsewhere is not modelled.
- In-place mutation of the parsed tree in make-100-percent is modelled as rebuilding each step, scenario and feature with its field replaced. The tree is not aliased, so the result is the same.
- Termination of the process: `process.exit` and an uncaught exception become outcome values (`UsageError`, `Crashed`, `ReadCrash`, `NoUploads`).
- JavaScript property reads are modelled for the keys the scripts use. None of them is defined by a built-in prototype.
- auto-update-index.js, vue.config.js and extract-local-reports.js are not part of this model. They run other processes, configure the build, or only print instructions.

Behaviours of the scripts that their names, messages or comments do not suggest:

- make-100-percent accepts only a bare array of features. An object wrapping the features under `features` has no `forEach`, so the script throws.
- make-100-percent names its output `GeoCall-Automation-Test-Results-Report-<ISO>.json`, not a canonical `gct-` name. The rename script later gives it the canonical name of the UTC write time (`Pipeline.ForcePassNameRenamed`). The name never contains `100percent`, the marker the upload filter reserves for such files.
- Only non-passed steps are touched. A non-passed step gets the default duration when its duration is falsy, so a duration of 0 is replaced too. A step that already passed keeps a missing duration.
- A step whose `result` is not an object (a boolean, a number, a string or an array) is counted but not marked passed. The assignments to a primitive are silently ignored, and properties put on an array are lost on output. The closing message still claims that every step passed.
- process-new-uploads leaves a file whose JSON does not parse in place, and only logs the error. It is not discarded.
- The rename script counts `.rename-log.json` as a candidate that it skips, because it ends in `.json` and carries no time stamp.
