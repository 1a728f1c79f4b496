# Care Ranch intake questionnaire — a verified model of its core

This project models the behaviour of the intake questionnaire (a Next.js
application) that can be stated and checked, and proves properties of it:

- **The auto-save hook** (`auto_save.dfy`): a debounced save state machine with
  status `idle | saving | saved | error`. The hook's refs are fields of the
  class `AutoSave.AutoSave`. React renders, timer callbacks, promise settling,
  manual `save`/`reset` and unmounting are methods. The class invariant says
  the statuses other than `idle` alternate `saving` / terminal, that a save is
  in flight exactly when the last of them is `saving`, that each `saving` went
  with one call of `onSave`, and that the callback heard every status set
  while mounted. Scenario methods show what the code does rather than what an
  idealised controller would do: edits coalesce into one save; a re-render with
  equal data cancels a pending save for good; a save that fires while another
  is in flight is dropped; and a stale back-to-idle timer can overwrite `saving`.
- **The response storage rules** (`response_store.dfy`): classification of an
  answer into one of six value fields, the upsert (create vs. update), the
  read-back priority, and the submission life cycle over a database held as
  maps in the class `ResponseStore.Store`. Get-or-create, save, page
  read-back, submit and progress are its operations.
- **Question-type mapping and option parsing** (`question_type_mapping.dfy`,
  on a JSON value type in `js_values.dfy`).
- **The widgets' answer-update rules**: multiple choice, range, file upload,
  matrix, rating, phone, date, dropdown, and the progress timeline. Each has
  its own module.

`text.dfy` holds the decimal conversions these need, and `wrappers.dfy` holds
`Option` and `Result`.

JavaScript numbers are modelled as mathematical integers. Time (`new Date()`)
is a parameter, and timers are discrete events.

## Model

| member | source | states |
|---|---|---|
| AutoSave.AutoSave.constructor | src/hooks/useAutoSave.ts:42-46 | The first render starts `idle`, records the initial data as the snapshot, is mounted, has no save in flight and arms no timer. |
| AutoSave.AutoSave.Valid | src/hooks/useAutoSave.ts:42-86 | The status is the last one set. The statuses other than `idle` alternate, a save is in flight exactly when the last is `saving`, and each `saving` went with one `onSave` call. The callback heard every status set while mounted. A pending timer belongs to a mounted hook and carries the snapshot. |
| AutoSave.AutoSave.SetStatus | src/hooks/useAutoSave.ts:48-56 | The status is always recorded; `onStatusChange` hears it only when a callback exists and the hook is mounted. |
| AutoSave.AutoSave.Render | src/hooks/useAutoSave.ts:107-133 | When the effect re-runs, the previous cleanup cancels the pending timer. Then, only if enabled and the data serializes differently from the snapshot, the data becomes the snapshot and one timer of `delay` (default 500) is armed. Otherwise the snapshot is kept and nothing is armed. |
| AutoSave.AutoSave.Arm | src/hooks/useAutoSave.ts:115-132 | A changed value becomes the snapshot, one timer of the given delay is armed with it, and the effect returns its cleanup. Nothing else changes. |
| AutoSave.AutoSave.Disarm | src/hooks/useAutoSave.ts:107-113 | An early return of the effect leaves no timer pending and no cleanup armed. The snapshot is kept. |
| AutoSave.AutoSave.SetIdle | src/hooks/useAutoSave.ts:93 | Setting `idle` is allowed at any time and keeps the in-flight flag and the `onSave` calls as they were. |
| AutoSave.AutoSave.StartSave | src/hooks/useAutoSave.ts:58-64 | While a save is in flight nothing changes. Otherwise `saving` is set and emitted, and `onSave` is called once with the captured data. |
| AutoSave.AutoSave.DebounceFires | src/hooks/useAutoSave.ts:124-126 | The timer calls `save` with the data it captured. It is dropped while another save is in flight. |
| AutoSave.AutoSave.Save | src/hooks/useAutoSave.ts:58-86 | A manual save uses the latest rendered data, under the same in-flight guard. `saving` is reported only while mounted with a callback, and the pending timer, snapshot and effect cleanup are kept. |
| AutoSave.AutoSave.SaveResolves | src/hooks/useAutoSave.ts:64-85 | Resolution sets `saved` and arms a 2000 ms idle timer. Rejection sets `error` and arms a 3000 ms one. Either way the in-flight flag clears. |
| AutoSave.AutoSave.IdleTimerFires | src/hooks/useAutoSave.ts:68-72 | A back-to-idle timer sets `idle` only while mounted, and nothing cancels it. The latest data, the pending timer and the in-flight flag are kept. |
| AutoSave.AutoSave.Reset | src/hooks/useAutoSave.ts:88-94 | Cancels the pending timer and sets `idle`, even while a save is in flight. |
| AutoSave.AutoSave.Unmount | src/hooks/useAutoSave.ts:96-105 | Clears the mounted flag and cancels the pending timer. Status, latest data and what was reported stay as they were. |
| AutoSave.SaveTraceStep | src/hooks/useAutoSave.ts:59-85 | Setting `saving` only when no save is in flight, and a terminal status only when one is, keeps the statuses alternating and the count of `onSave` calls equal to the count of `saving`s. |
| AutoSave.NonIdle | src/hooks/useAutoSave.ts:48-53 | The statuses other than `idle`, never longer than the log. |
| AutoSave.AlternatesParity | src/hooks/useAutoSave.ts:59-85 | Statuses other than `idle` that take turns from `saving` on have `saving` at every even position and `saved` or `error` at every odd one. |
| AutoSave.ReportedStep | src/hooks/useAutoSave.ts:48-53 | What the callback heard is always a prefix of the statuses set, and all of them while mounted. |
| AutoSave.Returned | src/hooks/useAutoSave.ts:135-140 | `isLoading` holds exactly when the returned status is `saving`. |
| AutoSave.CoalescedEdits | src/hooks/useAutoSave.ts:111-126 | Three quick edits lead to one `onSave` call, with the last data. Only `saving` is reported. |
| AutoSave.UnchangedDataArmsNothing | src/hooks/useAutoSave.ts:111-113 | Data equal to the snapshot arms no timer and calls nothing. |
| AutoSave.EqualRenderCancelsPendingSave | src/hooks/useAutoSave.ts:113-132 | A re-render with equal data cancels the pending timer and re-arms none. The change stays recorded as the snapshot but is never saved. |
| AutoSave.SaveInFlightDropsNext | src/hooks/useAutoSave.ts:59 | A debounced save that fires during another save is dropped, and its data is not armed again. |
| AutoSave.StaleIdleTimer | src/hooks/useAutoSave.ts:68-72 | An earlier save's idle timer sets `idle` during a later save, so `isLoading` is false while a save is in flight. |
| AutoSave.SettleAfterUnmount | src/hooks/useAutoSave.ts:51-76 | After unmount a settling save still updates the status, but the callback hears nothing. |
| ResponseStore.Classify | src/server/api/routers/questionnaire.ts:338-356 | A string, number, boolean, Date or other non-null value writes exactly its one field. Null and undefined write all six fields as null. The file URL is never given a value. |
| ResponseStore.Upsert | src/server/api/routers/questionnaire.ts:359-376 | A field the patch gives takes the given value. Any other field keeps the existing record's value, or is null in a created record. |
| ResponseStore.WriteField | src/server/api/routers/questionnaire.ts:372-375 | A field left out of the update keeps its value, and a given one takes it. |
| ResponseStore.ReadBack | src/server/api/routers/questionnaire.ts:227-243 | The first non-null field in the order text, number, date, boolean, JSON, file URL is returned, or null for an all-null record. |
| ResponseStore.FreshRoundTrip | src/server/api/routers/questionnaire.ts:338-346 | Any non-null answer saved into a new record reads back unchanged. |
| ResponseStore.OverwriteReadBack | src/server/api/routers/questionnaire.ts:229-241 | Over an existing record, the new answer reads back exactly when no field read before its own is still set. |
| ResponseStore.NumberOverTextReadsText | src/server/api/routers/questionnaire.ts:372-375 | A number saved over an earlier text answer leaves the text in place, and the text is what is read back. |
| ResponseStore.ClearReadsNull | src/server/api/routers/questionnaire.ts:348-356 | A null or undefined answer clears the record whatever it held, and it then reads back as null. |
| ResponseStore.FileUrlNeverSet | src/server/api/routers/questionnaire.ts:347-356 | No answer gives the file URL field a value. |
| ResponseStore.QuestionIds | src/server/api/routers/questionnaire.ts:213 | A question id is on the page exactly when it is in one of the page's sections. |
| ResponseStore.ApplyEntry | src/server/api/routers/questionnaire.ts:322-376 | An entry for a question not on the page changes nothing. Otherwise its record is upserted with the classified answer. |
| ResponseStore.ApplyEntries | src/server/api/routers/questionnaire.ts:321-378 | The entries applied one after another, as the upserts of `Promise.all` in turn. |
| ResponseStore.ApplyEntriesFrame | src/server/api/routers/questionnaire.ts:322-326 | Records of other submissions, and of questions not on the page, are never touched. Only records of entries on the page can be added. |
| ResponseStore.UnknownQuestionsSkipped | src/server/api/routers/questionnaire.ts:323-326 | Entries whose question ids are all off the page change nothing. |
| ResponseStore.LastEntryWins | src/server/api/routers/questionnaire.ts:359-376 | Even with a repeated question id, the record is the upsert of that id's last entry over what came before. |
| ResponseStore.ApplyEntriesOtherQuestion | src/server/api/routers/questionnaire.ts:359-365 | Entries for other question ids leave a question's record as it was. |
| ResponseStore.EachEntryUpserted | src/server/api/routers/questionnaire.ts:322-376 | With distinct question ids, as a record's keys are, every entry for an on-page question leaves its record as the upsert of its answer into the record from before the save. |
| ResponseStore.Store.FindOrCreate | src/server/api/routers/questionnaire.ts:145-171 | Returns the submission of (form, user). Only when there is none does it create one, `IN_PROGRESS` with a fresh id. |
| ResponseStore.Store.GetSubmission | src/server/api/routers/questionnaire.ts:129-174 | Fails with "No active form found" without an active form. Otherwise returns the user's submission, created on first use. |
| ResponseStore.GetSubmissionTwice | src/server/api/routers/questionnaire.ts:145-171 | Two calls return the same submission and create exactly one. |
| ResponseStore.Store.Valid | src/server/api/routers/questionnaire.ts:284-290 | Submission ids are fresh: each is below the next id and no two submissions share one. |
| ResponseStore.Store.constructor | src/server/api/routers/questionnaire.ts:133-135 | A database with the given active form and pages, no submissions and no responses. |
| ResponseStore.Store.QuestionSet | src/server/api/routers/questionnaire.ts:313-318 | The nested loops collect exactly the ids of the page's questions. |
| ResponseStore.Store.UpsertAll | src/server/api/routers/questionnaire.ts:321-378 | The responses become those after applying every entry in turn. Nothing else changes. |
| ResponseStore.Store.SaveResponses | src/server/api/routers/questionnaire.ts:252-390 | Fails without an active form. Otherwise gets or creates the submission (a new one `IN_PROGRESS` with the next id), then fails with "Page not found" keeping it. On success every on-page entry is upserted, the submission records the page and the time, and no other submission changes. |
| ResponseStore.Store.RecordPage | src/server/api/routers/questionnaire.ts:312-387 | After the page is found: the responses become the entries applied in turn, each on-page entry is upserted, and only this submission changes, recording the page and the time. |
| ResponseStore.SaveToMissingPage | src/server/api/routers/questionnaire.ts:283-310 | A save to a missing page fails but leaves the submission created. |
| ResponseStore.Store.GetPageResponses | src/server/api/routers/questionnaire.ts:179-247 | Returns `{}` without a submission or without the page. Otherwise maps each of the page's questions that has a record to its read-back value. |
| ResponseStore.PageResponses | src/server/api/routers/questionnaire.ts:213-246 | Each of the page's question ids that has a record of the submission, mapped to the value read back from it. |
| ResponseStore.Store.SubmitForm | src/server/api/routers/questionnaire.ts:395-435 | Fails with "No active form found" or "Submission not found". Otherwise marks the submission `SUBMITTED` at the given time and changes nothing else. |
| ResponseStore.Store.Progress | src/server/api/routers/questionnaire.ts:440-491 | All zeros without an active form. Otherwise the total is the form's question count, the answered count is the submission's record count (0 without a submission), and the percentage is `Percentage` of the two. |
| ResponseStore.TotalQuestions | src/server/api/routers/questionnaire.ts:475-480 | The nested `reduce`: the number of questions over all the form's pages, 0 for none. |
| ResponseStore.Answered | src/server/api/routers/questionnaire.ts:482 | The submission's record count, cleared records included. |
| ResponseStore.Percentage | src/server/api/routers/questionnaire.ts:483-484 | No questions give 0. Otherwise the exact ratio rounded halves up, pinned by PercentageRounds and PercentageBounds. |
| ResponseStore.PercentageRounds | src/server/api/routers/questionnaire.ts:483-484 | The model's percentage is the exact ratio 100·answered/total rounded to the nearest integer, halves up. The source's floating-point product can fall one below at exact halves. |
| ResponseStore.PercentageBounds | src/server/api/routers/questionnaire.ts:483-484 | With answered ≤ total the percentage lies in 0..100. All answered gives 100 and none gives 0. |
| ResponseStore.ClearedAnswerCounts | src/server/api/routers/questionnaire.ts:482 | A record cleared to all-null still counts as answered. |
| QuestionTypeMapping.MapQuestionType | src/lib/questionTypeMapping.ts:7-26 | NUMBER and TIME map to short text, and no database type maps to matrix or range. |
| QuestionTypeMapping.MapQuestionTypeKebab | src/lib/questionTypeMapping.ts:8-23 | Every other database type maps to the kind spelled as its kebab-case name. |
| QuestionTypeMapping.ParseOptions | src/lib/questionTypeMapping.ts:31-51 | A falsy or non-array input gives `[]`. An array gives one option per element, in order, each with a value and a label. |
| QuestionTypeMapping.ParseOption | src/lib/questionTypeMapping.ts:36-44 | Every parsed option has both a value and a label. |
| QuestionTypeMapping.ParseOptionsAt | src/lib/questionTypeMapping.ts:37-43 | A string becomes {slug, original}. An object with value and label passes through. Anything else becomes {`option-<idx>`, String(elem)}. |
| JsValues.JsString | src/lib/questionTypeMapping.ts:43 | `String(j)`: arrays joined with commas, nested null as the empty string, objects as `[object Object]`. |
| JsValues.Falsy | src/lib/questionTypeMapping.ts:32 | JavaScript falsiness of a JSON value: null, false, 0 and the empty string. |
| QuestionTypeMapping.SlugShape | src/lib/questionTypeMapping.ts:38 | A slug has no whitespace and no upper-case letters. |
| QuestionTypeMapping.Slug | src/lib/questionTypeMapping.ts:38 | A string option's value: lower-cased, then every whitespace run replaced by `-`. |
| QuestionTypeMapping.LowerCase | src/lib/questionTypeMapping.ts:38 | Same length, and no upper-case letter is left. |
| QuestionTypeMapping.ReplaceWhitespaceRuns | src/lib/questionTypeMapping.ts:38 | Every maximal whitespace run becomes one `-`, pinned by ReplaceRunsJoin and ReplaceRunsIdentity. |
| QuestionTypeMapping.SlugIdempotent | src/lib/questionTypeMapping.ts:38 | Applying the slug rule to a slug gives it back. |
| QuestionTypeMapping.SlugOfWord | src/lib/questionTypeMapping.ts:38 | Text without whitespace is only lower-cased. |
| QuestionTypeMapping.ReplaceRunsJoin | src/lib/questionTypeMapping.ts:38 | A whitespace run between two words becomes a single `-`. |
| QuestionTypeMapping.SeedOptions | prisma/seed.ts:653 | The seeded options Acute, Chronic, Both, N/A parse to values acute, chronic, both, n/a with their original labels. |
| QuestionTypeMapping.ParseValidationRules | src/lib/questionTypeMapping.ts:56-82 | Gives the input unchanged exactly when it is an object (including an array), and undefined otherwise. |
| MultipleChoiceQuestion.HandleToggle | src/components/questionnaire/questions/MultipleChoiceQuestion.tsx:37-49 | `onChange` is skipped exactly when the option is disabled. A selected option is removed by the filter rule, the rest in order. An unselected one is appended at the end. |
| MultipleChoiceQuestion.Remove | src/components/questionnaire/questions/MultipleChoiceQuestion.tsx:42 | Removes every occurrence of the option and keeps the count of every other one. |
| MultipleChoiceQuestion.RemoveAppend | src/components/questionnaire/questions/MultipleChoiceQuestion.tsx:42 | Filtering a concatenation filters each part, so the remaining options keep their order. |
| MultipleChoiceQuestion.RemoveOne | src/components/questionnaire/questions/MultipleChoiceQuestion.tsx:42 | A single option is dropped exactly when it is the one removed. |
| MultipleChoiceQuestion.IsDisabled | src/components/questionnaire/questions/MultipleChoiceQuestion.tsx:78 | An unselected checkbox is disabled while a truthy cap is reached. |
| MultipleChoiceQuestion.ToggleKeepsSelectionValid | src/components/questionnaire/questions/MultipleChoiceQuestion.tsx:40-48 | A duplicate-free selection within the cap stays duplicate-free and within the cap. |
| MultipleChoiceQuestion.SelectionHint | src/components/questionnaire/questions/MultipleChoiceQuestion.tsx:52-61 | The hint text is non-empty exactly when a minimum or a maximum is set. |
| MultipleChoiceQuestion.CapOfTwo | src/components/questionnaire/questions/MultipleChoiceQuestion.tsx:45-78 | With a cap of two, a third option is disabled and not added, while a selected one can still be removed. |
| RangeQuestion.CurrentValue | src/components/questionnaire/questions/RangeQuestion.tsx:33-40 | Without an answer the range is the whole scale, by default 0..100. |
| RangeQuestion.HandleMinChange | src/components/questionnaire/questions/RangeQuestion.tsx:42-46 | The new lower end is clamped to the upper end, and the upper end is kept. |
| RangeQuestion.HandleMaxChange | src/components/questionnaire/questions/RangeQuestion.tsx:48-52 | The new upper end is clamped to the lower end, and the lower end is kept. |
| RangeQuestion.DefaultRange | src/components/questionnaire/questions/RangeQuestion.tsx:33-46 | The default range is 0..100. Moving its lower end to 150 gives 100..100. |
| FileUploadQuestion.Examined | src/components/questionnaire/questions/FileUploadQuestion.tsx:54-56 | At most the free slots are examined, and none when there are none. |
| FileUploadQuestion.Accepted | src/components/questionnaire/questions/FileUploadQuestion.tsx:59-73 | Every accepted entry is within the size limit and keeps its file. |
| FileUploadQuestion.Upload | src/components/questionnaire/questions/FileUploadQuestion.tsx:60-70 | An accepted entry keeps name, size and type, and gets a preview URL exactly for `image/` types. |
| FileUploadQuestion.AcceptedExactly | src/components/questionnaire/questions/FileUploadQuestion.tsx:59 | The accepted entries are exactly those made from files within the size limit. |
| FileUploadQuestion.AcceptedAppend | src/components/questionnaire/questions/FileUploadQuestion.tsx:56-73 | Files are accepted in input order. |
| FileUploadQuestion.HandleFiles | src/components/questionnaire/questions/FileUploadQuestion.tsx:50-79 | The loop emits the old list followed by the accepted files among the examined ones, or nothing when there are none. Defaults are 5 files and 10·1024·1024 bytes. |
| FileUploadQuestion.HandleFilesResult | src/components/questionnaire/questions/FileUploadQuestion.tsx:50-79 | The old list followed by the accepted files among the first `Examined`, or no call when none is accepted or there are no files. |
| FileUploadQuestion.IsImageType | src/components/questionnaire/questions/FileUploadQuestion.tsx:68 | A type is an image type when it starts with `image/`. |
| FileUploadQuestion.HandleFilesExtends | src/components/questionnaire/questions/FileUploadQuestion.tsx:76-78 | An emitted list extends the old one, and everything added is within the size limit. |
| FileUploadQuestion.HandleFilesWithinLimit | src/components/questionnaire/questions/FileUploadQuestion.tsx:36-56 | A list within the slot limit stays within it. |
| FileUploadQuestion.HandleFilesWhenFull | src/components/questionnaire/questions/FileUploadQuestion.tsx:54-76 | A full list never grows. |
| FileUploadQuestion.OversizedFileUsesSlot | src/components/questionnaire/questions/FileUploadQuestion.tsx:56-59 | An oversized file still uses up an examined position. |
| FileUploadQuestion.WithoutIndex | src/components/questionnaire/questions/FileUploadQuestion.tsx:97 | Drops exactly the element at the index. An index out of range changes nothing. |
| FileUploadQuestion.RemoveFile | src/components/questionnaire/questions/FileUploadQuestion.tsx:96-103 | Emits the list without entry `index`, the rest in order. The URL is revoked exactly when that entry has both a URL and a file. |
| FileUploadQuestion.RemoveUndoesAdd | src/components/questionnaire/questions/FileUploadQuestion.tsx:76-102 | Removing the entry just added restores the earlier list. |
| FileUploadQuestion.DropZone.Drop | src/components/questionnaire/questions/FileUploadQuestion.tsx:81-94 | A drop clears the highlight and hands the files to the add rule. |
| FileUploadQuestion.DropZone.constructor | src/components/questionnaire/questions/FileUploadQuestion.tsx:41 | The drop zone starts without the drag highlight. |
| FileUploadQuestion.DropZone.DragOver | src/components/questionnaire/questions/FileUploadQuestion.tsx:86-90 | Dragging over turns the highlight on. |
| FileUploadQuestion.DropZone.DragLeave | src/components/questionnaire/questions/FileUploadQuestion.tsx:92-94 | Leaving turns the highlight off. |
| MatrixQuestion.HandleCellClick | src/components/questionnaire/questions/MatrixQuestion.tsx:43-52 | The row gets the column, no other column of it is selected, and every other row is unchanged. |
| MatrixQuestion.IsSelected | src/components/questionnaire/questions/MatrixQuestion.tsx:50-52 | A cell is selected exactly when its row's stored column is this one. |
| MatrixQuestion.ClickIdempotent | src/components/questionnaire/questions/MatrixQuestion.tsx:43-48 | Clicking the same cell twice equals clicking it once. |
| MatrixQuestion.HintCountsForeignKeys | src/components/questionnaire/questions/MatrixQuestion.tsx:120 | The all-rows hint counts keys, so an answer under a non-row id can hide it while a row is unanswered. |
| MatrixQuestion.ShowAllRowsHint | src/components/questionnaire/questions/MatrixQuestion.tsx:120 | The hint shows when the question is required and the answer has fewer keys than there are rows. |
| RatingQuestion.Values | src/components/questionnaire/questions/RatingQuestion.tsx:34 | The offered values are min, min+1, …, max. There are max − min + 1 of them, or none. |
| RatingQuestion.ValuesMembership | src/components/questionnaire/questions/RatingQuestion.tsx:34 | A value is offered exactly when it lies between min and max. |
| RatingQuestion.ValuesIncreasing | src/components/questionnaire/questions/RatingQuestion.tsx:34 | The offered values strictly increase. |
| RatingQuestion.DefaultValues | src/components/questionnaire/questions/RatingQuestion.tsx:28-34 | The defaults give 0 through 10. |
| RatingQuestion.CheckedButton | src/components/questionnaire/questions/RatingQuestion.tsx:54 | At most one button is checked. One is checked exactly when the answer lies on the scale. |
| RatingQuestion.IsChecked | src/components/questionnaire/questions/RatingQuestion.tsx:54 | A button is checked when the answer equals its value. |
| RatingQuestion.OnButtonClick | src/components/questionnaire/questions/RatingQuestion.tsx:49-53 | Every value passed to `onChange` is on the scale. |
| PhoneQuestion.Sanitize | src/components/questionnaire/questions/PhoneQuestion.tsx:28-32 | The output holds only digits, `+`, `-`, `(`, `)` and space, and is never longer than the input. |
| PhoneQuestion.SanitizeAppend | src/components/questionnaire/questions/PhoneQuestion.tsx:30 | Sanitising a concatenation sanitises each part, so the kept characters stay in input order. |
| PhoneQuestion.SanitizeChar | src/components/questionnaire/questions/PhoneQuestion.tsx:30 | A single character is kept exactly when it is allowed. |
| PhoneQuestion.SanitizeCounts | src/components/questionnaire/questions/PhoneQuestion.tsx:30 | Each allowed character keeps its count and every other character is removed. |
| PhoneQuestion.SanitizeKeepsClean | src/components/questionnaire/questions/PhoneQuestion.tsx:30 | Input made only of allowed characters is unchanged. |
| PhoneQuestion.SanitizeIdempotent | src/components/questionnaire/questions/PhoneQuestion.tsx:30 | Sanitising twice equals sanitising once. |
| DateQuestion.DigitsOf | src/components/questionnaire/questions/DateQuestion.tsx:50 | Keeps only digits. |
| DateQuestion.TypedDate | src/components/questionnaire/questions/DateQuestion.tsx:50-67 | A value is emitted only when the input has exactly 8 digits. |
| DateQuestion.TypedDateReorders | src/components/questionnaire/questions/DateQuestion.tsx:52-62 | The emitted value is digits 5-8, `-`, digits 3-4, `-`, digits 1-2. |
| DateQuestion.TypedDateIsCanonical | src/components/questionnaire/questions/DateQuestion.tsx:58-62 | Every emitted value is a valid calendar date in yyyy-MM-dd form. |
| DateQuestion.ParseIso | src/components/questionnaire/questions/DateQuestion.tsx:35-36 | A stored value is accepted only when it is a valid date that formats back to itself. |
| DateQuestion.StoredToDisplay | src/components/questionnaire/questions/DateQuestion.tsx:32-40 | An empty stored value leaves the text alone. A parseable one is shown as dd-MM-yyyy. |
| DateQuestion.FormatIso | src/components/questionnaire/questions/DateQuestion.tsx:61 | yyyy-MM-dd with zero-padded fields. |
| DateQuestion.FormatDisplay | src/components/questionnaire/questions/DateQuestion.tsx:37 | dd-MM-yyyy with zero-padded fields. |
| DateQuestion.IsValidDate | src/components/questionnaire/questions/DateQuestion.tsx:59 | A real day of the Gregorian calendar, year 1 or later, with month lengths and leap years. |
| DateQuestion.DisplayRoundTrip | src/components/questionnaire/questions/DateQuestion.tsx:32-82 | Typing the displayed dd-MM-yyyy text emits the stored ISO value again. |
| DateQuestion.SeparatorsIgnored | src/components/questionnaire/questions/DateQuestion.tsx:50 | Non-digit separators between day, month and year do not change the result. |
| DateQuestion.MarchFifteenth | src/components/questionnaire/questions/DateQuestion.tsx:50-102 | `15031990`, `15-03-1990` and `15/03/1990` all emit `1990-03-15`. |
| DateQuestion.DateInput.ShowStored | src/components/questionnaire/questions/DateQuestion.tsx:32-82 | A valid stored value is shown as dd-MM-yyyy. Otherwise the display is unchanged. |
| DateQuestion.DateInput.Change | src/components/questionnaire/questions/DateQuestion.tsx:45-68 | The display is always the raw input. The emitted value is the typed-date rule's. |
| DateQuestion.DateInput.constructor | src/components/questionnaire/questions/DateQuestion.tsx:29 | The displayed text starts empty. |
| DropdownQuestion.ButtonText | src/components/questionnaire/questions/DropdownQuestion.tsx:33-102 | Shows the label of the first option holding the value, or the placeholder when there is none or its label is empty. |
| DropdownQuestion.FindOption | src/components/questionnaire/questions/DropdownQuestion.tsx:39 | The index of the first option holding the value, or none when no option does. |
| DropdownQuestion.Dropdown.constructor | src/components/questionnaire/questions/DropdownQuestion.tsx:36 | The dropdown starts closed. |
| DropdownQuestion.Dropdown.Click | src/components/questionnaire/questions/DropdownQuestion.tsx:82 | A click toggles it. |
| DropdownQuestion.Dropdown.Select | src/components/questionnaire/questions/DropdownQuestion.tsx:58-61 | Selecting emits the value and closes. |
| DropdownQuestion.Dropdown.KeyDown | src/components/questionnaire/questions/DropdownQuestion.tsx:63-70 | Escape closes. Enter or Space toggles. Any other key changes nothing. |
| DropdownQuestion.Dropdown.MouseDown | src/components/questionnaire/questions/DropdownQuestion.tsx:42-56 | A mousedown outside closes it. One inside changes nothing. |
| ProgressTimeline.StateOf | src/components/questionnaire/ProgressTimeline.tsx:24-26 | Each step is exactly one of completed (order < current), current (order = current) or upcoming. |
| ProgressTimeline.CheckAndFill | src/components/questionnaire/ProgressTimeline.tsx:36-45 | A check mark shows exactly when the step is completed. The circle is filled exactly when it is completed or current. |
| ProgressTimeline.Connectors | src/components/questionnaire/ProgressTimeline.tsx:63-69 | There are steps.length − 1 connectors. The one after a step is filled exactly when that step's order is below the current step. |
| ProgressTimeline.MobileTitle | src/components/questionnaire/ProgressTimeline.tsx:81 | The mobile title is that of the first step at the current number. It is absent when there is none. |
| ProgressTimeline.FindOrder | src/components/questionnaire/ProgressTimeline.tsx:81 | The index of the first step with the given order, or none when no step has it. |
| ProgressTimeline.CounterShowsNumbers | src/components/questionnaire/ProgressTimeline.tsx:83-84 | The counter reads "Step", the current step, "of", and the number of steps. |
| ProgressTimeline.Counter | src/components/questionnaire/ProgressTimeline.tsx:84 | "Step", the current step, "of", the number of steps, read back by CounterShowsNumbers. |

## Left out

- Rendering, styling, focus and ARIA attributes are not modelled. The drag highlight of the file drop zone is the only UI state kept.
- JavaScript numbers are modelled as unbounded integers: no fractions, NaN or infinities. Floating-point display values are left out: the scale and range track percentages and the file-size text.
- `JSON.stringify` is an abstract `serialize` function fixed per hook. Structural equality is equality of its results.
- Timers are discrete events whose order the caller chooses. Real durations are recorded (500, 2000 and 3000 ms) but not compared.
- AutoSave.AutoSave.Render: whether React re-runs the effect (a new `data`, `delay`, `enabled` or `save` identity) is a parameter. Reference identity is not modelled.
- AutoSave.AutoSave.constructor: `onStatusChange` and `onSave` are fixed for the hook's lifetime. Changing callbacks between renders is not modelled, and a thrown `onSave` is treated like a rejected promise. Console logging is left out.
- AutoSave.AutoSave.Unmount: React strict-mode double mounting is not modelled. Mounting happens once, in the constructor.
- ResponseStore.Percentage: rounds the exact ratio halves up. The source rounds the floating-point product `(answered / total) * 100`, which can fall just below a half: 23 of 40 gives 57.49999999999999 and so 57, where the model gives 58 (likewise 46 of 80, 29 of 200, 57 of 200). IEEE-754 division and multiplication are not modelled.
- ResponseStore.PercentageRounds: states halves-up rounding of the exact ratio, which the source's floating-point product can miss by one at exact halves, as the line above says.
- ResponseStore.Store.SaveResponses: `Promise.all` runs the upserts one after another. Their keys are distinct, since entries come from a record. The `lastSavedAt` clock is a parameter.
- ResponseStore.Store.GetSubmission: the `responses` and `deadline` relations included in the returned submission are not modelled.
- ResponseStore.Classify: Prisma's handling of a plain `null` for a JSON column is not modelled. Clearing writes an ordinary null to every field.
- Queries, ordering clauses, transactions, authentication and the tRPC plumbing are not modelled. Ids are naturals drawn from a counter.
- QuestionTypeMapping.LowerCase: only ASCII letters are lowered. JavaScript's full Unicode `toLowerCase` is not modelled.
- QuestionTypeMapping.ParseOptions: `String(x)` is modelled for JSON values only. A thrown exception inside the `try` cannot happen in the model.
- DateQuestion.ParseIso: date-fns `parse`, `format` and `isValid` are modelled by the Gregorian calendar rule. Only the canonical yyyy-MM-dd / dd-MM-yyyy forms are modelled, with years from 1. The lenient forms date-fns may also accept are not.
- FileUploadQuestion.HandleFiles: `acceptedTypes` is not checked by the source and is not modelled. `URL.createObjectURL` and `revokeObjectURL` are booleans.
- The pass-through widgets (short text, long text, email, single choice, yes/no), the auto-save indicator and the question renderer forward values unchanged or only display them.
