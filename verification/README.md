# PortfolioPal core, modelled in Dafny

PortfolioPal generates portfolio web pages. A React front end sends a
screenshot or a text description to a code generator, shows the result in a
preview pane and logs every finished page. A FastAPI back end keeps that
generation history and a daily attempt counter. This project models the
decision logic of both halves as pure functions over immutable data and
proves what each one promises:

- **The generation lifecycle** (`Commits`, `Orchestrator`). The screen
  moves INITIAL → CODING → CODE_READY over a version store: a map from hash
  to commit, plus a head. A generation builds a first version (`ai_create`)
  or an edit (`ai_edit`). Cancelling a first version resets everything.
  Cancelling an edit removes it and returns to its parent. Regenerate and
  update have their own guards. On the hosted build, a user's own OpenAI
  key is limited to a number of generations per day.
- **The preview pane** (`PreviewPane`). It shows the code of the head
  version's selected variant. It adds a script so that links open in a new
  tab, and it posts each completed page to the history log once.
- **Two daily counters.** `DailyAttempts` is the back end's attempt counter:
  it resets on a new day or on bad data, increments without a cap and
  clamps what remains. `ApiKeyCounter` is the front end's key quota, a
  bounded consume against a limit.
- **The history list** (`ThemeSave`). This is the back end's history file:
  a normaliser that tolerates legacy records, plus append, mark-saved and
  delete-by-id.
- **Two history calendars** (`Calendar`, `ThemeHistoryPage`,
  `ThemeHistory`). Entries are grouped by their `YYYY-MM-DD` prefix. Month
  navigation wraps around, a day cell toggles its selection, the month
  summary counts entries, today is auto-selected, and an admin can delete
  an entry.
- **String and selection helpers.**
  - `ScriptInjection` and `HashNavFix` insert a script before the first
    `</body>`, or append it when there is none.
  - `AstroFiles` splits text on `--- FILE: path ---` markers.
  - `Clipboard` extracts a pasted image, trying files first and then items.
  - `SidebarUpload` decides what the Generate button does. It also
    rewrites a data URL's media type: in the `data:` URL scheme of RFC 2397
    section 3, the media type follows the `data:` prefix.

Storage, the clock, the network and the browser are not modelled. The loaded
JSON value, today's date, the clock readings, a new commit's hash, the
server's answer and the history the store extracts all arrive as parameters.
`Wrappers` (Option), `Seqs` (Filter), `JsonValue` (loaded JSON) and `Text`
hold shared definitions:

- JavaScript `trim` and Python `strip` white space;
- `indexOf`;
- JavaScript's `String.prototype.replace` with a string pattern, including
  its `$` substitution patterns;
- decimal digits.

## Model

| member | source | states |
|---|---|---|
| Commits.AddCommit | frontend/src/App.tsx:268 | the commit is stored under its hash; every other entry and the head are untouched |
| Commits.RemoveCommit | frontend/src/App.tsx:207 | only that hash disappears; other entries and the head are untouched |
| Commits.SetHead | frontend/src/App.tsx:269 | the head names the given hash and the map is untouched |
| Commits.RemoveUndoesAdd | frontend/src/App.tsx:207-212 | removing a commit just added under a fresh hash restores the old map |
| Commits.AddAsHeadKeepsWellFormed | frontend/src/App.tsx:267-269 | adding a commit as head keeps every commit filed under its own hash and the head pointing into the map |
| Commits.RemoveToParentKeepsWellFormed | frontend/src/App.tsx:206-213 | removing a commit and moving the head to a different stored parent keeps the store well formed |
| Orchestrator.Reset | frontend/src/App.tsx:153-169 | state INITIAL, no versions, no head, image mode, no reference images, not imported, cleared instruction and images; the initial prompt and the key counter survive |
| Orchestrator.NewCommit | frontend/src/App.tsx:243-264 | four empty variants with the first selected; a create has no parent and stores the prompt; an edit's parent is the old head and its input is the last history turn, an empty turn when there is no history, and undefined for an empty history list |
| Orchestrator.DoGenerateCode | frontend/src/App.tsx:221-269 | with the quota applying and refusing, nothing changes and nothing starts; otherwise the quota is charged, the consoles cleared, the new commit added as head and the state CODING, with every other field unchanged |
| Orchestrator.OnComplete | frontend/src/App.tsx:298-300 | the state becomes CODE_READY and nothing else changes |
| Orchestrator.CancelCodeGenerationAndReset | frontend/src/App.tsx:201-219 | a first version resets everything; an edit is removed, then the head moves to a non-empty parent and the state is CODE_READY, or the call throws with the commit already removed |
| Orchestrator.CreatePrompt | frontend/src/App.tsx:318-324 | a video sends only its first image; other modes send all images with the text prompt |
| Orchestrator.DoCreate | frontend/src/App.tsx:305-327 | always resets and records the images and mode first; with no images nothing is generated, otherwise a create is generated |
| Orchestrator.DoCreateFromText | frontend/src/App.tsx:329-340 | resets, switches to text mode, remembers the prompt, then generates from the text alone |
| Orchestrator.Regenerate | frontend/src/App.tsx:171-193 | throws without a head or when the head names no version; an edit at the head changes nothing; a first version is re-created from the stored images, or from the initial text in text mode |
| Orchestrator.UpdateText | frontend/src/App.tsx:369-377 | the instruction gains the suffix with the element's markup iff an element is selected |
| Orchestrator.UpdatePrompt | frontend/src/App.tsx:387-390 | text mode sends the initial prompt; other modes send the first reference image |
| Orchestrator.DoUpdate | frontend/src/App.tsx:343-397 | a blank instruction changes nothing; no head or invalid history throws; otherwise the extracted history plus one new turn is sent, and the instruction box is cleared even when the quota refused |
| Orchestrator.BlockedCreateStartsNothing | frontend/src/App.tsx:222-230 | when the quota refuses, a creation leaves the reset screen with no version and an unchanged counter |
| Orchestrator.CreateLeavesOneRoot | frontend/src/App.tsx:311-326 | a started creation leaves exactly one version, a parentless `ai_create` holding the prompt, as head, in state CODING |
| Orchestrator.CreateThenCancelResets | frontend/src/App.tsx:201-205 | cancelling a started creation gives the reset of the state before it, apart from the charged quota |
| Orchestrator.CreateFromTextThenCancelResets | frontend/src/App.tsx:329-340 | the same for a creation from text, which keeps the typed prompt |
| Orchestrator.UpdateThenCancelRestores | frontend/src/App.tsx:206-218 | cancelling a started edit restores the version store exactly, old head included, in state CODE_READY |
| Orchestrator.ResetIsConsistent | frontend/src/App.tsx:153-169 | a reset state is consistent: a well-formed store, and a reference image whenever an image or video version exists |
| Orchestrator.GenerateKeepsConsistent | frontend/src/App.tsx:221-269 | starting a generation keeps the invariant |
| Orchestrator.CreateKeepsConsistent | frontend/src/App.tsx:305-327 | a creation from images always ends consistent |
| Orchestrator.CreateFromTextKeepsConsistent | frontend/src/App.tsx:329-340 | a creation from text always ends consistent |
| Orchestrator.UpdateKeepsConsistent | frontend/src/App.tsx:343-397 | an update keeps the invariant |
| Orchestrator.RegenerateKeepsConsistent | frontend/src/App.tsx:171-193 | a regenerate keeps the invariant |
| Orchestrator.CancelKeepsConsistent | frontend/src/App.tsx:206-218 | cancelling an edit whose parent is another stored version keeps the invariant |
| Orchestrator.UpdateSendsFirstReferenceImage | frontend/src/App.tsx:388-390 | in a consistent state an edit of an image or video version sends exactly its first reference image |
| PreviewPane.InjectExternalLinkTargets | frontend/src/components/preview/PreviewPane.tsx:40-45 | the link script is spliced in before the first `</body>`, or appended when there is none, and the length grows by the script |
| PreviewPane.RemovingLinkScriptRestoresCode | frontend/src/components/preview/PreviewPane.tsx:40-45 | cutting the script back out gives the original code: all other text is kept |
| PreviewPane.LinkScriptBeforeBodyClose | frontend/src/components/preview/PreviewPane.tsx:41-42 | the first `</body>` of the result comes right after the inserted script |
| PreviewPane.ExternalLinksScriptWellFormed | frontend/src/components/preview/PreviewPane.tsx:28-38 | the link script is one `<script>` element with no `</body>` inside and no `$` |
| PreviewPane.CurrentCode | frontend/src/components/preview/PreviewPane.tsx:68-71 | the selected variant's code of the head version; empty when the head is unset, empty or not stored; a failure when the index names no variant |
| PreviewPane.StartedGenerationShowsEmptyCode | frontend/src/components/preview/PreviewPane.tsx:68-71 | right after a generation starts the pane shows empty code |
| PreviewPane.ResetShowsEmptyCode | frontend/src/components/preview/PreviewPane.tsx:68-71 | after a reset the pane shows empty code |
| PreviewPane.PreviewCode | frontend/src/components/preview/PreviewPane.tsx:73-77 | `extractHtml` is applied only to a video version in state CODING, and the link script is always added |
| PreviewPane.PreviewIsNeverEmpty | frontend/src/components/preview/PreviewPane.tsx:73-77 | the preview is at least as long as the link script, so it is never empty |
| PreviewPane.LogStep | frontend/src/components/preview/PreviewPane.tsx:93-101 | the logger posts iff CODE_READY, the preview is non-empty and it differs from the last post, and then records it as the last post |
| PreviewPane.NoRepeatedPost | frontend/src/components/preview/PreviewPane.tsx:95-96 | the same preview is never posted twice in a row |
| PreviewPane.EmptyGenerationIsPosted | frontend/src/components/preview/PreviewPane.tsx:95 | a ready version with empty code is posted as the bare link script |
| PreviewPane.LogCompletedGeneration | frontend/src/components/preview/PreviewPane.tsx:93-101 | the logging rule with the emptiness test on the generated code |
| PreviewPane.CorrectedLoggingSkipsEmptyCode | frontend/src/components/preview/PreviewPane.tsx:93-101 | the corrected rule never posts an empty generation, never posts twice in a row, and agrees with the rule as written whenever there is code |
| ScriptInjection.InsertionPoint | frontend/src/lib/injectHashNavFix.ts:4-7 | the first occurrence of `</body>`, or the end of the text when there is none |
| ScriptInjection.InjectBeforeBodyClose | frontend/src/lib/injectHashNavFix.ts:3-8 | `includes` then `replace` of the first `</body>`, or an append, is a splice of the script at the insertion point |
| ScriptInjection.ClosedScriptWellFormed | frontend/src/lib/injectHashNavFix.ts:1 | a `<`-led body without `/` or `$` followed by `</script>` is a well-formed script |
| ScriptInjection.RemovingScriptRestores | frontend/src/lib/injectHashNavFix.ts:3-8 | the script sits at the insertion point and cutting it out gives the original text back |
| ScriptInjection.KeepsDocumentEnd | frontend/src/lib/injectHashNavFix.ts:4-5 | a page ending in `</body></html>` still ends so after the injection |
| ScriptInjection.ScriptPrecedesBodyClose | frontend/src/lib/injectHashNavFix.ts:4-5 | after the injection the first `</body>` directly follows the script |
| ScriptInjection.NoBodyCloseUpToScriptEnd | frontend/src/lib/injectHashNavFix.ts:4-5 | no `</body>` starts before the end of the inserted script |
| ScriptInjection.NoBodyCloseAcross | frontend/src/lib/injectHashNavFix.ts:4-5 | no `</body>` straddles the inserted script's edges |
| HashNavFix.HashNavScriptWellFormed | frontend/src/lib/injectHashNavFix.ts:1 | the hash-navigation script is one `<script>` element with no `</body>` inside and no `$` |
| HashNavFix.InjectHashNavFix | frontend/src/lib/injectHashNavFix.ts:3-8 | the script goes before the first `</body>`, or at the end; the empty page becomes the script |
| HashNavFix.RemovingScriptRestoresPage | frontend/src/lib/injectHashNavFix.ts:3-8 | cutting the script back out gives the original page |
| HashNavFix.ScriptBeforeBodyClose | frontend/src/lib/injectHashNavFix.ts:4-5 | with a `</body>` present, the script lands right before it |
| HashNavFix.SecondApplicationAddsSecondScript | frontend/src/lib/injectHashNavFix.ts:3-8 | there is no deduplication: a second application adds a second copy and keeps the `</body></html>` ending |
| DailyAttempts.ReadState | backend/usage/daily_attempts.py:28-50 | today's state: zero for a missing, unreadable, non-object or other-day file, or for a negative or non-integer count; otherwise the stored count, with a boolean read as 0 or 1 |
| DailyAttempts.KeptUsed | backend/usage/daily_attempts.py:41-50 | the `used` value kept for today: the stored value itself when it is a non-negative Python int or a boolean, else `0`; it reads as the state's count |
| DailyAttempts.FormatStats | backend/usage/daily_attempts.py:58-65 | the limit is reported as given and what remains is `max(0, limit - used)` |
| DailyAttempts.GetDailyAttemptStats | backend/usage/daily_attempts.py:68-74 | writes back `{"date", "used"}` for today, keeping an accepted stored `used` value as it was (a `true` stays `true`), which reads back to the same state; reports that state |
| DailyAttempts.RecordDailyAttempt | backend/usage/daily_attempts.py:77-83 | writes today's count plus one as an integer, with no cap, and reports it |
| DailyAttempts.ReadAfterWrite | backend/usage/daily_attempts.py:53-55 | a written state reads back as itself on its own day |
| DailyAttempts.NewDayStartsOver | backend/usage/daily_attempts.py:44-45 | a state written on another day reads as zero today |
| DailyAttempts.AttemptsAreNotCapped | backend/usage/daily_attempts.py:77-83 | from a day with `used` attempts, n more records leave exactly `used + n`, past any limit |
| DailyAttempts.RecordLowersRemaining | backend/usage/daily_attempts.py:77-83 | each record lowers what remains by one until it reaches zero |
| ApiKeyCounter.ParseCounter | frontend/src/lib/apiKeyDailyGenerationCounter.ts:13-27 | a counter iff the stored value parses to an object with a string date and a numeric count; its other fields are kept with it |
| ApiKeyCounter.GetCounter | frontend/src/lib/apiKeyDailyGenerationCounter.ts:29-40 | today's counter: the stored count and other fields when stored for today, else zero and no other fields |
| ApiKeyCounter.Remaining | frontend/src/lib/apiKeyDailyGenerationCounter.ts:49-52 | `max(limit - count, 0)` |
| ApiKeyCounter.TryConsume | frontend/src/lib/apiKeyDailyGenerationCounter.ts:54-62 | succeeds iff today's count is below the limit, and only then writes today's counter with the count plus one and its other fields kept |
| ApiKeyCounter.ReadAfterWrite | frontend/src/lib/apiKeyDailyGenerationCounter.ts:42-47 | a written counter reads back as itself on its day, other fields included |
| ApiKeyCounter.ConsumeKeepsOtherFields | frontend/src/lib/apiKeyDailyGenerationCounter.ts:60 | a successful consume of today's stored object rewrites its `count` only: the same keys, every other value unchanged |
| ApiKeyCounter.ConsumeUsesOneRemaining | frontend/src/lib/apiKeyDailyGenerationCounter.ts:49-62 | a consume succeeds iff something remains, and what remains drops by one, clamped at zero |
| ApiKeyCounter.SuccessesFrom | frontend/src/lib/apiKeyDailyGenerationCounter.ts:54-62 | from `used` consumed generations, n attempts succeed `min(n, limit - used)` times |
| ApiKeyCounter.AtMostLimitPerDay | frontend/src/lib/apiKeyDailyGenerationCounter.ts:54-62 | in one day at most `limit` consumes succeed, exactly `limit` when there are enough attempts |
| ThemeSave.LoadHistory | backend/routes/theme_save.py:94-100 | a missing or unreadable file is the empty list; otherwise the stored list |
| ThemeSave.NormalizeHistoryEntry | backend/routes/theme_save.py:54-91 | skipped iff neither code nor snippet is usable; each field falls back as written, `saved` to the truth of `applied_at`; under a real clock no field is blank |
| ThemeSave.NormalizeIsIdentityOnCurrentRecords | backend/routes/theme_save.py:54-91 | a complete current record normalises to itself under any clock |
| ThemeSave.NormalizeIdempotent | backend/routes/theme_save.py:54-91 | a normalised record normalises to itself again |
| ThemeSave.GetHistory | backend/routes/theme_save.py:173-187 | at most one record per raw element; `GetHistoryCountsKept`, `GetHistoryConcat`, `ListedComesFromKept` and `ListedCodeIsNotBlank` state which ones and in what order |
| ThemeSave.GetHistoryCountsKept | backend/routes/theme_save.py:177-187 | as many records are listed as the raw list has objects that normalise |
| ThemeSave.ListedCodeIsNotBlank | backend/routes/theme_save.py:177-187 | every listed record has non-blank code |
| ThemeSave.GetHistoryConcat | backend/routes/theme_save.py:177-187 | the list is read element by element, in order |
| ThemeSave.ListedComesFromKept | backend/routes/theme_save.py:177-187 | every listed record is the normalisation of a kept raw record |
| ThemeSave.LegacyShapeNormalizes | backend/routes/theme_save.py:54-91 | a record with a usable snippet, `applied_at`, name and id but no usable code or `generated_at` and no `saved` reads from the snippet and `applied_at` and counts as saved |
| ThemeSave.LegacyRecordNormalizes | backend/tests/test_theme_history_compat.py:18-23 | a legacy record takes its code from the snippet and its date from `applied_at`, and counts as saved |
| ThemeSave.CurrentRecordNormalizes | backend/tests/test_theme_history_compat.py:24-30 | a current record lists with its own id |
| ThemeSave.BlankCodeRecordIsSkipped | backend/tests/test_theme_history_compat.py:31-37 | a record with white-space code and no snippet is skipped |
| ThemeSave.LegacyEntriesAreTolerated | backend/tests/test_theme_history_compat.py:42-47 | the scenario lists `legacy_1` then `new_1`, the legacy one dated from `applied_at` and saved |
| ThemeSave.AppendEntry | backend/routes/theme_save.py:108-121 | the old list plus one record at the end, with the clock's id and timestamp, and that id returned |
| ThemeSave.AppendThenList | backend/routes/theme_save.py:108-121 | after an append the history lists one more record, at the end, exactly as given |
| ThemeSave.MarkOne | backend/routes/theme_save.py:126-129 | a matching record becomes saved, keeps its theme name or gains "untitled", and keeps every other field; any other record is unchanged |
| ThemeSave.MarkSaved | backend/routes/theme_save.py:124-130 | fails iff some element has no id; otherwise the list keeps its length and each element is that record marked by `MarkOne` |
| ThemeSave.MarkedRecordListsAsSaved | backend/routes/theme_save.py:124-130 | a marked record lists exactly as before, except as saved |
| ThemeSave.NormalizeMarked | backend/routes/theme_save.py:54-91 | a record that differs only by `saved` being true and an absent name spelled out reads the same, except as saved |
| ThemeSave.DeleteHistoryEntry | backend/routes/theme_save.py:196-198 | fails iff some element has no id; otherwise keeps exactly the records with other ids |
| ThemeSave.DeleteKeepsOthersInOrder | backend/routes/theme_save.py:197 | deleting works piecewise, keeps order, and a second delete changes nothing |
| ThemeSave.DeletedIdIsNotListed | backend/routes/theme_save.py:196-198 | after a delete no listed record carries that id, unless the clock stamps an id-less record with it |
| ThemeSave.ListedIdDiffers | backend/routes/theme_save.py:90 | a record whose own id differs lists under a different id, given a different clock stamp |
| Clipboard.ExtractImageFile | frontend/src/lib/extractImageFromClipboard.ts:1-28 | null for no data; the first image file when one exists; otherwise the first image item whose file is available; else null |
| Clipboard.FilesArePreferred | frontend/src/lib/extractImageFromClipboard.test.ts:95-104 | an image file wins over image items |
| Clipboard.FilelessItemIsSkipped | frontend/src/lib/extractImageFromClipboard.test.ts:86-93 | an image item without a file yields nothing |
| AstroFiles.MatchMarker | frontend/src/components/preview/AstroFileViewer.tsx:15 | a match of `---\s*FILE:\s*(.+?)\s*---` at the start of the text, with the engine's preference: most leading white space kept, then shortest path |
| AstroFiles.WsRun | frontend/src/components/preview/AstroFileViewer.tsx:15 | the greedy `\s*`: every character of the run is white space and the one after it is not |
| AstroFiles.TagFrom | frontend/src/components/preview/AstroFileViewer.tsx:15 | `\s*FILE:` matches iff `FILE:` follows the longest white-space run, and then ends five characters after it |
| AstroFiles.CloseAt | frontend/src/components/preview/AstroFileViewer.tsx:15 | the `\s*---` after the path: where the dashes end, found past white space only |
| AstroFiles.CloseAtIsGreedy | frontend/src/components/preview/AstroFileViewer.tsx:15 | the dashes are found exactly where the longest white-space run ends, or not at all |
| AstroFiles.LazyCapture | frontend/src/components/preview/AstroFileViewer.tsx:15 | the shortest capture on one line that a closing `---` can follow |
| AstroFiles.TryFrom | frontend/src/components/preview/AstroFileViewer.tsx:15 | white space after `FILE:` is given back one character at a time until a capture succeeds |
| AstroFiles.TryFromSkipped | frontend/src/components/preview/AstroFileViewer.tsx:15 | no start that keeps more white space than the chosen one admits any capture; when nothing is found, no start in the range does |
| AstroFiles.NoCaptureAt | frontend/src/components/preview/AstroFileViewer.tsx:15 | when the lazy search from a start fails, no capture of any length starts there |
| AstroFiles.SplitFrom | frontend/src/components/preview/AstroFileViewer.tsx:16 | `split` with the pattern: the text before the first marker, then one section per marker, each with a non-empty path |
| AstroFiles.SplitFromSound | frontend/src/components/preview/AstroFileViewer.tsx:16 | from any offset, the split puts back together to the text, cuts at no position before its first marker, and yields sound sections |
| AstroFiles.SectionsAtSound | frontend/src/components/preview/AstroFileViewer.tsx:16 | from a marker on, the sections put back together to the text, and each holds its marker's match and capture and runs up to the next marker |
| AstroFiles.SplitIsSound | frontend/src/components/preview/AstroFileViewer.tsx:16 | head, then each marker followed by its section's text, gives back the input; no marker starts in the head or inside a section's text |
| AstroFiles.NoMarkerFrom | frontend/src/components/preview/AstroFileViewer.tsx:16 | with no marker from an offset on, the split from there is the whole text and no section |
| AstroFiles.SkipToFirstMarker | frontend/src/components/preview/AstroFileViewer.tsx:16 | positions where no marker starts are passed over without a cut |
| AstroFiles.ParseAstroFiles | frontend/src/components/preview/AstroFileViewer.tsx:14-29 | without a marker, one `output.astro` file with the trimmed text; otherwise one file per marker, with trimmed path and content |
| AstroFiles.NoMarkerMeansOneFile | frontend/src/components/preview/AstroFileViewer.tsx:18-19 | text without any marker is one default file |
| AstroFiles.PreambleIsDiscarded | frontend/src/components/preview/AstroFileViewer.tsx:22-27 | text before the first marker does not change the files |
| AstroFiles.OneMarkerExample | frontend/src/components/preview/AstroFileViewer.tsx:14-29 | `--- FILE: a ---\nx` parses to the single file `a` holding `x` |
| AstroFiles.SelectedFile | frontend/src/components/preview/AstroFileViewer.tsx:40 | the selected file when the index is in range, else the first file |
| Calendar.DayKey | frontend/src/components/portfolio/ThemeHistoryPage.tsx:72 | the first ten characters, or the whole text when shorter |
| Calendar.GroupByDay | frontend/src/components/portfolio/ThemeHistoryPage.tsx:69-75 | the keys are exactly the days that occur, each once |
| Calendar.BucketIsDayFilter | frontend/src/components/portfolio/ThemeHistoryPage.tsx:69-75 | each bucket holds exactly its day's entries in input order and is non-empty; a day with no bucket has no entries |
| Calendar.GroupStep | frontend/src/components/portfolio/ThemeHistoryPage.tsx:71-74 | one more entry goes to the end of its own day's bucket, created if absent, and no other day changes |
| Calendar.BucketSizesSumToEntries | frontend/src/components/portfolio/ThemeHistoryPage.tsx:69-75 | the bucket sizes add up to the number of entries |
| Calendar.SelectedEntries | frontend/src/components/portfolio/ThemeHistoryPage.tsx:77 | the selected day's bucket, or nothing |
| Calendar.PrevMonth | frontend/src/components/portfolio/ThemeHistoryPage.tsx:83-86 | one month back on the timeline; January wraps to December of the year before |
| Calendar.NextMonth | frontend/src/components/portfolio/ThemeHistoryPage.tsx:87-90 | one month on; December wraps to January of the next year |
| Calendar.PrevNextInverse | frontend/src/components/portfolio/ThemeHistoryPage.tsx:83-90 | the two buttons undo each other |
| Calendar.Pad2 | frontend/src/components/portfolio/ThemeHistoryPage.tsx:146 | `padStart(2, "0")` yields two digits that read back as the number below 100 |
| Calendar.DateKeyReadsBack | frontend/src/components/portfolio/ThemeHistoryPage.tsx:146 | a four-digit-year cell key is ten characters, is its own day prefix, starts with the month prefix, and its parts read back |
| Calendar.DateKeyInjective | frontend/src/components/portfolio/ThemeHistoryPage.tsx:146 | for years 1000 to 9999, distinct cells have distinct keys |
| Calendar.ClickDay | frontend/src/components/portfolio/ThemeHistoryPage.tsx:156-159 | a click selects the day iff it was not selected and always closes the preview |
| Calendar.ClickTwiceRestores | frontend/src/components/portfolio/ThemeHistoryPage.tsx:156-159 | two clicks on the same cell restore the selection |
| Calendar.DeleteOutcomeOf | frontend/src/components/portfolio/ThemeHistoryPage.tsx:55-66 | an empty or cancelled prompt sends nothing; otherwise the server decides |
| Calendar.DeleteFromView | frontend/src/components/portfolio/ThemeHistoryPage.tsx:61-63 | on success exactly the entries with that id go, in order, and the open entry closes iff it had that id; otherwise nothing changes |
| ThemeHistoryPage.ByDate | frontend/src/components/portfolio/ThemeHistoryPage.tsx:69-75 | the page's buckets are keyed by the days of `generated_at` that occur |
| ThemeHistoryPage.EveryEntryInItsDay | frontend/src/components/portfolio/ThemeHistoryPage.tsx:69-75 | each entry is in its own day's bucket and no other |
| ThemeHistoryPage.MonthSummary | frontend/src/components/portfolio/ThemeHistoryPage.tsx:199-202 | the generated count is the entries of the month shown; the saved count is the saved ones among them |
| ThemeHistoryPage.DayCellEntriesCountInMonth | frontend/src/components/portfolio/ThemeHistoryPage.tsx:199-202 | an entry under a day cell of the month shown is counted in that month's summary |
| ThemeHistoryPage.AutoSelectToday | frontend/src/components/portfolio/ThemeHistoryPage.tsx:47-52 | whenever the entry list changes, today is selected iff some entry was generated today; otherwise the selection stays |
| ThemeHistoryPage.AutoSelectedDayIsNotEmpty | frontend/src/components/portfolio/ThemeHistoryPage.tsx:47-52 | an auto-selected day lists at least one entry |
| ThemeHistoryPage.DeleteEntry | frontend/src/components/portfolio/ThemeHistoryPage.tsx:54-67 | an empty or cancelled prompt or a refusal changes nothing; on success the list is exactly the old list without that id, in order, and the preview closes iff it showed that id |
| ThemeHistoryPage.DeleteShrinksEachDay | frontend/src/components/portfolio/ThemeHistoryPage.tsx:62 | after a delete each day's bucket is the old bucket without the deleted id |
| ThemeHistoryPage.DeleteThenReselect | frontend/src/components/portfolio/ThemeHistoryPage.tsx:47-66 | a refused or cancelled delete changes nothing; an accepted one changes entries and preview as `deleteEntry` does, and the new list re-runs the auto-select effect |
| ThemeHistoryPage.DeleteReselectsToday | frontend/src/components/portfolio/ThemeHistoryPage.tsx:47-66 | after an accepted delete the selection returns to today iff another entry of today remains; otherwise it stays, even on a day the delete emptied |
| ThemeHistory.ByDate | frontend/src/components/portfolio/ThemeHistory.tsx:60-66 | the buckets are keyed by the days of `applied_at`; each entry is in its own day's bucket and a bucket holds only that day |
| ThemeHistory.ClickDay | frontend/src/components/portfolio/ThemeHistory.tsx:140-143 | a click selects the day iff it was not selected and always hides the tooltip |
| ThemeHistory.DeleteEntry | frontend/src/components/portfolio/ThemeHistory.tsx:44-58 | a failed or refused request leaves list and tooltip as they were; success leaves exactly the old list without that id, in order, and closes a tooltip that showed it |
| SidebarUpload.FixDataUrlMime | frontend/src/components/portfolio/SidebarUpload.tsx:11-19 | an octet-stream data URL of a typed file gets `data:` plus the file's type before the unchanged rest; any other result is kept |
| SidebarUpload.MimeFixKeepsPayload | frontend/src/components/portfolio/SidebarUpload.tsx:13-16 | the rewrite keeps the data URL's payload and its `data:` scheme |
| SidebarUpload.HandleDrop | frontend/src/components/portfolio/SidebarUpload.tsx:42-53 | no file or a read error changes nothing; a read file sets preview, data URL and screenshot mode |
| SidebarUpload.HandleClear | frontend/src/components/portfolio/SidebarUpload.tsx:66-70 | both URLs are cleared and the text and mode kept |
| SidebarUpload.HandleGenerate | frontend/src/components/portfolio/SidebarUpload.tsx:72-80 | text mode with a non-blank prompt creates from text; otherwise a screenshot creates from it with the prompt; otherwise an error, each iff its condition |
| SidebarUpload.ClearThenGenerateNeedsText | frontend/src/components/portfolio/SidebarUpload.tsx:66-80 | after Clear, Generate can only start from text, and reports an error in screenshot mode |
| SidebarUpload.DropThenGenerateUsesScreenshot | frontend/src/components/portfolio/SidebarUpload.tsx:72-80 | after a successful drop Generate starts from the dropped screenshot, whatever the mode was |
| Text.JsTrim | frontend/src/App.tsx:347 | `trim` gives the empty string iff the text is all white space |
| Text.ExpandLiteral | frontend/src/lib/injectHashNavFix.ts:5 | `replace` inserts a replacement without `$` literally |
| Text.DecimalRoundTrip | frontend/src/components/portfolio/ThemeHistoryPage.tsx:146 | `String(n)` is a digit string that reads back as n |
| Seqs.FilterCommute | frontend/src/components/portfolio/ThemeHistoryPage.tsx:62 | filtering by two conditions gives the same list in either order |

## Left out

- File and lock I/O: the history file, the attempts file, `localStorage` and `_lock` are not modelled. Their loaded contents are parameters and their new contents are results.
- The clock is a parameter. `get_history` reads the clock once per record in the source but once per call here, because the model takes one `Clock` value for the whole list.
- The network is not modelled: fetching history and the current page, the log POST, the admin DELETE and its HTTP Basic header.
- The generator's WebSocket stream is not modelled: token, variant-status, thinking and resize events, and closing the socket on cancel. Of the callbacks, only `onComplete` and `onCancel` are modelled.
- `createCommit` and `extractHistory` are not part of this model. A new commit's hash and the extracted history are parameters.
- Orchestrator.NewCommit: selecting the first variant of a new commit is an assumption about `createCommit`.
- Orchestrator.UpdatePrompt: with no reference image stored in image or video mode, the source sends `[undefined]` and the model sends an empty list. `UpdateSendsFirstReferenceImage` and the `...KeepsConsistent` lemmas show that no reachable state gets there.
- Orchestrator.CancelKeepsConsistent: requires a non-empty parent hash. With an empty one the source throws after removing the commit, which can leave the head naming a removed version.
- The settings merge into the request, the settings fix-ups, the fullscreen and sidebar toggles, the theme-free portfolio fetch and the browser-tab indicator are UI state and are not modelled.
- PreviewPane: the throttled iframe update with `injectHashNavFix`, `openInNewTab`, downloads and the refresh button are DOM effects and are not modelled.
- `getDaysInMonth`, `getFirstDayOfMonth`, `toISOString` and `new Date()` come from the platform's date library. They are not modelled; today's key and the view month are parameters.
- Calendar.DateKeyReadsBack: stated for four-digit years only. Other years give keys of other lengths, and negative years are not modelled.
- ThemeSave.LoadHistory: a history file holding a JSON value other than a list gives `None`. In the source, `get_history` iterates an object's keys or a string's characters and lists nothing, and raises `TypeError` on a number, boolean or null.
- ThemeSave.LegacyRecordNormalizes: the legacy record's `preview_snippet` is shortened to `<body>legacy</body>`. The test's full document exercises nothing more.
- ThemeSave.CurrentRecordNormalizes: the current record's `code` is shortened to `<body>new</body>` where the test uses a full document. Only its non-blankness matters to the normaliser.
- ApiKeyCounter: the limit comes from configuration with a fallback of 10. That default is not modelled; the limit is a parameter.
- Clipboard: `DataTransfer`, `File` and `getAsFile` are records and options, not browser objects.
- SidebarUpload: `FileReader`, `URL.createObjectURL`/`revokeObjectURL`, the dropzone's size and type filters, and toasts are not modelled. The read result and the object URL are inputs.

## Findings

| source | as written | input that shows it | evidently intended | confidence | as-written member | corrected member |
|---|---|---|---|---|---|---|
| frontend/src/components/preview/PreviewPane.tsx:95 | the logger skips when `!previewCode`, but `previewCode` always contains the link script and is never empty | state CODE_READY with a head version whose selected variant's code is `""`: the bare link script is posted to the history log | skip logging when the generated code is empty | medium, not executed | PreviewPane.EmptyGenerationIsPosted | PreviewPane.CorrectedLoggingSkipsEmptyCode |
