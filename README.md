# Clinical Code Editor: a verified model of its core logic

The Clinical Code Editor turns a clinical-trial derivation specification into
an R script. Each row of the specification becomes a *derivation task* with a
seeded prompt. The user edits and approves the tasks. The approved prompts
are combined into one numbered prompt inside a fixed template and sent to the
Gemini model. The first fenced `r` code block of the reply becomes the
generated code. A separate table component shows a result data set, sorted
by one column and split into pages of ten rows.

This project models three parts of that system in Dafny and proves
properties of them:

- the session of the application: tasks, combined prompt, generated code,
  active view, busy flags and log, changed by the handlers of `App.tsx`;
- the client of `services/geminiService.ts`: the key check, the regular
  expression `/```r\s*([\s\S]*?)\s*```/` with its ECMAScript backtracking
  choice of match, the trimmed fallback, and the error wrapping;
- the table of `components/DataTable.tsx`: headers, the copy-then-sort with
  its comparator, page slicing with `Array.prototype.slice` clamping, the
  page count, and the Previous/Next clamps.

Files and modules:

- `wrappers.dfy` (`Wrappers`): `Option` and `Result`.
- `text.dfy` (`Text`): the ECMAScript white-space set shared by `\s` and
  `String.prototype.trim`, `Trim`, decimal rendering of numbers, and `join`.
- `gemini_service.dfy` (`GeminiService`): the matcher and `generateRCode`.
- `tasks.dfy` (`Tasks`): the pure task helpers of `App.tsx`.
- `app.dfy` (`App`): the `Session` class, whose methods are the handlers.
- `data_table.dfy` (`DataTable`): rows, sorting, pages and the
  `DataTableView` class.

Notes on the model:

- The backend call of `handleGenerate` is split at its `await`.
  `GenerateStart` is the part before the call and `GenerateFinish` the part
  after it settles. `Generate` runs both, using `GenerateRCode` as the backend.
- `createFinalPrompt` is `CreateFinalPrompt`, which is `CombinedPrompt`
  applied to `FinalTemplate`, the exact text of `App.tsx`. The session
  calls `CombinedPrompt` with its `template`, a constant that the `Session`
  constructor sets to `FinalTemplate`. The lemmas about the combined prompt
  hold for every template, and `CreateFinalPromptContents` states them for
  the fixed text.
- `Session.Valid()` is the session's invariant: the stored prompt is empty
  or the template around a non-empty list. Every handler keeps it.
- The regular expression is computed by a scan, `FirstMatch`. Two lemmas
  prove that the scan returns the match a backtracking matcher reports,
  and nothing when the pattern matches nowhere.
- The sort is specified by a functional stable insertion sort, `SortRows`.
  The in-place array sort `SortInPlace` is proved to compute it. The engine
  sort is stable, so when every row has the key, the order the comparator
  imposes is unique and this is exactly what the engine produces.

What the code does, as modelled:

- `handleFileChange` accepts any file name ending in `.xlsx` and keeps every
  row with the row's own id. No rows are dropped, and ids are not
  renumbered.
- `generateRCode` calls one provider and has no fallback chain: without a
  key it fails, and otherwise it reports the single provider outcome.

## Model

| member | source | states |
|---|---|---|
| Text.SkipSpace | services/geminiService.ts:26 | the greedy `\s*` after a position: it stops at the first non-white-space character and covers only white space |
| Text.BackSpace | services/geminiService.ts:26 | the white-space run ending at a position, reaching back no further than a bound, is all white space and is maximal |
| Text.Trim | services/geminiService.ts:30-34 | the result has no white space at either end and is the input with white-space runs removed at both ends |
| Text.TrimUnique | services/geminiService.ts:30-34 | any cut of the input into leading white space, a trimmed middle and trailing white space gives exactly the trimmed result |
| Text.TrimOfTrimmed | services/geminiService.ts:30 | trimming a string without white space at its ends changes nothing |
| Text.TrimIdempotent | services/geminiService.ts:30-34 | trimming twice is trimming once |
| Text.NatToString | App.tsx:52 | decimal rendering of a count: non-empty, only digits, no leading zero |
| Text.DecimalRoundTrip | App.tsx:82 | reading back the decimal rendering of n gives n |
| Text.NatToStringInjective | App.tsx:82 | different line numbers render differently |
| Text.Join | App.tsx:83 | `join` of no strings is empty, and of one string is that string |
| GeminiService.FindOpen | services/geminiService.ts:26-27 | the first "```r" marker at or after a position, or none anywhere after it |
| GeminiService.FindFence | services/geminiService.ts:26-27 | the first "```" at or after a position, or none anywhere after it |
| GeminiService.FirstMatch | services/geminiService.ts:26-27 | the scanned match is a match of the pattern: marker, white space, group, white space, closing fence |
| GeminiService.FirstMatchPreferred | services/geminiService.ts:26-27 | the scanned match is preferred to every other match in backtracking order: leftmost, longest first `\s*`, shortest group, longest second `\s*` |
| GeminiService.FirstMatchComplete | services/geminiService.ts:26-27 | when the scan finds nothing, the pattern matches nowhere in the reply |
| GeminiService.ExtractRCode | services/geminiService.ts:26-34 | the extracted code never has white space at either end |
| GeminiService.FirstGroupTrimmed | services/geminiService.ts:26-30 | the group of the reported match is already trimmed, so the lazy group and the two `\s*` leave nothing for `trim` |
| GeminiService.ExtractUsesReportedMatch | services/geminiService.ts:27-34 | with the reported match given, a non-empty group is the result exactly, and an empty group gives the whole reply trimmed |
| GeminiService.ExtractFallback | services/geminiService.ts:29-34 | a reply the pattern does not match gives the whole reply trimmed |
| GeminiService.ExtractWithoutMarker | services/geminiService.ts:33-34 | a reply with no "```r" marker gives the whole reply trimmed |
| GeminiService.ExtractFixedPoint | services/geminiService.ts:30-34 | a result that holds no "```r" marker is returned unchanged when extracted again |
| GeminiService.GenerateRCode | services/geminiService.ts:12-41 | no key gives the missing-key error; a reply gives the extracted code; a thrown `Error` gives "Gemini API Error: " and its message; any other thrown value gives the unknown-error message; a success is trimmed and every failure is an `Error` |
| GeminiService.NoKeyNoProviderCall | services/geminiService.ts:13-15 | without a key the outcome is the same whatever the provider would have replied |
| Tasks.CreateSinglePrompt | App.tsx:25-27 | the prompt is the fixed opening, the variable, the fixed middle, the derivation and the fixed closing, each at its own position |
| Tasks.TaskFromRow | App.tsx:42-46 | the task keeps the row's id, variable, label and derivation, gets the seeded single prompt and is not approved |
| Tasks.QuoteClosesVariable | App.tsx:25-27 | in a single prompt, the first double quote after the fixed opening is the one that closes the variable name |
| Tasks.SinglePromptInjective | App.tsx:25-27 | two single prompts are equal only for the same variable and derivation, when the variable names contain no double quote |
| Tasks.IngestRows | App.tsx:42-46 | one task per row in order, each keeping the row's id, variable, label and derivation, with the seeded single prompt and not approved |
| Tasks.UpdatePrompt | App.tsx:60-64 | same length; each task with the id gets the new prompt and nothing else changes; tasks with other ids are unchanged |
| Tasks.UpdatePromptUnknownId | App.tsx:60-64 | an id no task carries leaves the list identical |
| Tasks.UpdatePromptLastWins | App.tsx:60-64 | two edits of the same id amount to the later one |
| Tasks.ToggleApproval | App.tsx:68-70 | same length; each task with the id has its approval flipped and nothing else changes; tasks with other ids are unchanged |
| Tasks.ToggleInvolution | App.tsx:66-70 | toggling the same id twice restores the list |
| Tasks.FindById | App.tsx:71 | nothing iff no task carries the id; otherwise the first task carrying it |
| Tasks.Approved | App.tsx:80-81 | the filter is no longer than the list and holds only approved tasks |
| Tasks.ApprovedIndices | App.tsx:80-81 | the approved positions are positions of the list |
| Tasks.ApprovedIsOrderedSubsequence | App.tsx:80-81 | the filter is exactly the approved tasks in their original order: its j-th entry is the task at the j-th approved position, the positions increase, and a position is listed iff its task is approved |
| Tasks.ApprovedEmptyIff | App.tsx:113-114 | the filter is empty iff no task is approved |
| Tasks.NumberedLines | App.tsx:82 | one numbered line per approved task |
| Tasks.NumberedLineAt | App.tsx:82 | line k of the list is "k. " followed by the prompt of the k-th approved task |
| Tasks.CombinedPrompt | App.tsx:79-110 | the combined prompt for a template is "" iff no task is approved, and otherwise the template around a non-empty list |
| Tasks.CreateFinalPrompt | App.tsx:79-110 | `createFinalPrompt`: "" iff no task is approved, and otherwise the fixed template text around a non-empty list |
| Tasks.CreateFinalPromptContents | App.tsx:79-110 | `createFinalPrompt` is "" iff no task is approved; otherwise it is the template text of App.tsx:87-102, the joined numbered list and the text of App.tsx:104-108 |
| Tasks.ApprovedListEmptyIff | App.tsx:80-85 | the joined list is empty iff no task is approved |
| Tasks.FinalPromptContents | App.tsx:79-110 | the combined prompt is "" iff no task is approved; otherwise it is the template's opening, the joined numbered list and the template's closing |
| Tasks.FinalPromptShape | App.tsx:85-109 | a non-empty combined prompt is the template around a non-empty list |
| Tasks.IngestApprovesNothing | App.tsx:42-46 | freshly ingested tasks have no approved task, so their combined prompt is empty |
| Tasks.UpdatePromptKeepsApproval | App.tsx:60-64 | a prompt edit changes neither the approved positions nor whether any task is approved |
| Tasks.IndicesDetermined | App.tsx:80-81 | the approved positions depend only on the approval flags |
| Tasks.OnlySecondApproved | App.tsx:79-110 | with only the second of three tasks approved, the list of the combined prompt is the single line "1. " and that task's prompt |
| App.Session.constructor | App.tsx:10-16 | the initial state: no logs, no tasks, empty prompt and code, the spec view, not busy, and the template of `createFinalPrompt` |
| App.Session.Files | App.tsx:173-177 | three entries, available iff there are tasks, a prompt and code respectively; under the invariant, an available prompt file holds a combined prompt |
| App.Session.GenerateEnabled | App.tsx:179 | Generate is enabled iff some task is approved, which is iff the combined prompt is non-empty |
| App.Session.ExecuteEnabled | App.tsx:180 | Execute is enabled iff there is code |
| App.Session.FileChange | App.tsx:29-58 | no file changes nothing; a `.xlsx` name ingests the rows, clears prompt and code, shows the spec view and logs two entries; any other name only logs the error |
| App.Session.LoadSpec | App.tsx:32-52 | the accepted upload: tasks ingested from the rows, the spec view, empty prompt and code, and the processed and created log entries |
| App.Session.PromptChange | App.tsx:60-64 | the tasks become the keyed prompt update of the old tasks |
| App.Session.ApproveToggle | App.tsx:66-77 | the tasks become the keyed toggle; a log entry naming the new state is added iff some task carries the id |
| App.ToggleFindsFlipped | App.tsx:66-73 | after a toggle, the first task with the id is the old first one with its approval flipped |
| App.Session.GenerateStart | App.tsx:112-124 | with no approved task only an error is logged; otherwise the prompt becomes the combined prompt, the prompt view is shown, the session is busy and the prompt is sent |
| App.Session.GenerateFinish | App.tsx:125-137 | success stores the code and shows it; failure keeps the old code, logs the message and shows the prompt; the session is no longer busy either way |
| App.Session.Generate | App.tsx:112-138 | the whole handler: the refusal case; or the combined prompt stored, not busy afterwards, the extracted code stored on success or the old code kept on failure, and the log extended by the sending entry and then the success entry or the failure message |
| App.ErrorText | App.tsx:132 | the message of a thrown `Error`, and the rendering of any other thrown value |
| App.FailureLogText | App.tsx:131-133 | the logged failure text for each failure of `generateRCode`: the missing-key message, "Gemini API Error: " and the provider's message, or the unknown-error message; with a key, only a thrown provider reply fails |
| App.Session.Execute | App.tsx:140-146 | without code only an error is logged; with code the session is executing and the simulation start is logged |
| App.Session.EditGeneratedCode | App.tsx:210 | the editor replaces the code |
| App.Session.SelectView | App.tsx:201 | the explorer switches the view |
| DataTable.Headers | components/DataTable.tsx:17-20 | no headers for no rows; otherwise exactly the first row's keys, without repetition |
| DataTable.Compare | components/DataTable.tsx:25-33 | a non-zero answer means both rows have the key with different values; the answer is -1, 0 or 1 |
| DataTable.Insert | components/DataTable.tsx:25-33 | one insertion step of the sort adds exactly one row |
| DataTable.SortRows | components/DataTable.tsx:25-33 | the sort under the comparator keeps the number of rows |
| DataTable.SortedSpec | components/DataTable.tsx:22-36 | `sortedData`: the data itself without a configuration, and always a permutation of the data |
| DataTable.InsertPermutes | components/DataTable.tsx:25 | one insertion step adds its row to the multiset of rows |
| DataTable.SortPermutes | components/DataTable.tsx:22-36 | sorting is a permutation of the rows |
| DataTable.CompareTransitive | components/DataTable.tsx:25-33 | among rows that have the key, the comparator is transitive |
| DataTable.InsertHasKey | components/DataTable.tsx:25 | an insertion step keeps every row carrying the key |
| DataTable.InsertAtMost | components/DataTable.tsx:25 | an insertion step keeps every row comparing at most 0 against a bound |
| DataTable.InsertSorted | components/DataTable.tsx:25 | an insertion step keeps rows sorted under the comparator |
| DataTable.SortedIsOrdered | components/DataTable.tsx:25-33 | sorted under the comparator means ordered on the key in the requested direction |
| DataTable.SortSorted | components/DataTable.tsx:25-33 | the sorted rows are sorted under the comparator when all rows have the key |
| DataTable.SortOrdered | components/DataTable.tsx:25-33 | when all rows have the key, the result is non-decreasing for ascending and non-increasing for descending |
| DataTable.WithCellSnoc | components/DataTable.tsx:25 | the rows with a given cell of a list with one row appended |
| DataTable.InsertStable | components/DataTable.tsx:25 | an insertion step keeps the order of rows with equal cells |
| DataTable.SortStable | components/DataTable.tsx:25-33 | for each cell value, the rows carrying it keep their input order |
| DataTable.SortedSpecProperties | components/DataTable.tsx:22-36 | the sorted data is a permutation of the data, equal to it without a configuration, ordered when every row has the key, and stable |
| DataTable.InsertAt | components/DataTable.tsx:25 | the insertion step places the row after the last row comparing at most 0 against it |
| DataTable.ShiftGreater | components/DataTable.tsx:25 | the inner loop shifts the rows comparing greater one place right and returns the gap |
| DataTable.InsertInPlace | components/DataTable.tsx:25 | one in-place step turns the prefix into the insertion of the next row and leaves the rest alone |
| DataTable.SortInPlace | components/DataTable.tsx:25 | the in-place sort leaves in the array the stable sort of its old contents |
| DataTable.SortedData | components/DataTable.tsx:22-36 | the copy-then-sort returns the sorted data, leaving the input as it was |
| DataTable.Slice | components/DataTable.tsx:40 | `Array.prototype.slice`: the exact range for bounds inside the sequence, nothing for an empty range, and always a contiguous part of the sequence |
| DataTable.PageRows | components/DataTable.tsx:38-41 | at most 10 rows; page p from 1 is the rows from (p - 1) * 10 up to p * 10, clamped to the data |
| DataTable.TotalPages | components/DataTable.tsx:43 | the fewest pages of 10 rows that hold all rows; zero iff there are no rows |
| DataTable.PagesUpToPrefix | components/DataTable.tsx:38-43 | the first k pages together are the first 10 * k rows, or all of them |
| DataTable.PagesCover | components/DataTable.tsx:38-43 | pages 1 to the page count, concatenated, give back the sorted rows exactly |
| DataTable.RowOnItsPage | components/DataTable.tsx:38-43 | row i is on page i / 10 + 1 at position i % 10, and that page exists |
| DataTable.NextSortConfig | components/DataTable.tsx:45-51 | the clicked key, descending iff the current configuration is that key ascending |
| DataTable.SortClicksAlternate | components/DataTable.tsx:45-51 | clicking the same header twice in a row flips the direction |
| DataTable.DataTableView.constructor | components/DataTable.tsx:12-14 | the component starts unsorted on page 1 |
| DataTable.DataTableView.RequestSort | components/DataTable.tsx:45-51 | the configuration becomes the next sort configuration for the clicked key |
| DataTable.DataTableView.PreviousPage | components/DataTable.tsx:96 | one page back, never below 1, keeping the page in range |
| DataTable.DataTableView.NextPage | components/DataTable.tsx:99 | one page on, never past the page count, keeping the page in range |
| DataTable.DataTableView.Render | components/DataTable.tsx:53-55 | the no-data notice iff there are no rows; otherwise the headers, the current page of the sorted rows, the page number, the page count and the row count |

## Left out

- Timestamps of log entries (`new Date().toLocaleTimeString()`) and all `console.error` output: clock and I/O. A log entry holds only its message and kind.
- The provider call, the `GoogleGenAI` client and the read of `process.env.API_KEY`: foreign library, network and environment. The key is a parameter and the provider's outcome is a `ProviderReply` value.
- A reply whose `text` is undefined: calling `match` on it throws a `TypeError` inside the `try`. That case is covered only as a provider `Threw(ErrorObject(...))` reply; the exact `TypeError` message is not modelled.
- The 500 ms delay in `handleGenerate`, and the timers of `handleExecute` that log the execution steps and clear `isExecuting`: asynchronous scheduling. Only the guard, the first log entry and `isExecuting := true` are modelled.
- The interleaving of other handlers while `handleGenerate` awaits: concurrency. The two halves `GenerateStart` and `GenerateFinish` are separate methods, so any sequence of calls between them can be stated. `Generate` runs them back to back.
- The hard-coded sample rows that stand in for parsing the spreadsheet: the rows are an input of `FileChange`. Their `type` column plays no part and is not modelled.
- `labelText` is the field `label` of the source under another name, because `label` is a reserved word in Dafny.
- Table cells are integers or missing. Strings and mixed-type cells, with JavaScript's coercing `<` and `>`, are not modelled.
- Object key order: `Object.keys` puts integer-like keys first. A row carries its keys in enumeration order as data, and that order is not derived.
- DataTable.SortedData: when some row lacks the sort key, the comparator is not a consistent order, and the engine's result is implementation-defined. The model then fixes the result of the stable insertion sort. Only the permutation and stability properties are claimed for that case, and the ordering property asks that all rows have the key.
- The `data` property of the table is a constant of a `DataTableView`. A change of `data` while the component stays mounted, which keeps `currentPage`, is not modelled.
- DataTable.DataTableView.NextPage: it requires a non-empty table, because the Next button is rendered only then.
- Strings are sequences of code points; JavaScript's UTF-16 code units are not modelled. No character of the templates or patterns lies outside the Basic Multilingual Plane.
- React rendering and the double invocation of state updaters in development mode: UI. The `disabled` flags of the explorer buttons are not modelled, so `SelectView` accepts any view.
- The header, editor panel, file explorer and log panel layout, `vite.config.ts` and `server/main.py`: UI, build configuration and an HTTP endpoint.
- A proxy or provider fallback chain, a mock mode, a JSON interpreter of execution results, a debug loop and language conversion: no code implements them. `ExecutionError` and `ConvertedCode` are type declarations only.
