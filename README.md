# Interview-meeting backend: a verified model of its core

The backend schedules interview meetings, stores them in one table, and
fills in a review after the interview:

- a language model writes a sectioned text report, which is cut into ten
  fields by fixed headers;
- a voice analyser asks a language model for a JSON verdict, whose reply
  is cleaned before it is parsed;
- HTTP routes create, list and read meetings, store a transcript with
  suggested questions, read the analysis, and run the background step that
  merges the report into the meeting's row.

This project models that core in Dafny and proves what it promises.

- `text.dfy` (`Text`) holds Python's `find` with a start index, `in`,
  `replace`, `strip()`, and the regular-expression substitution
  `re.sub(r'\n{3,}', '\n\n', s)`, with the properties of them that the
  parser and the reply cleanup rely on. The brace trims of the reply
  cleanup are in `voice_analyzer.dfy`.
- `report_generator.dfy` (`ReportGenerator`) holds the section parser.
  Its loops are methods proved against the functions `Boundary`,
  `SectionValue` and `ReportOf`.
- `voice_analyzer.dfy` (`VoiceAnalyzer`) holds the reply cleanup, the
  download suffix and the WAV conversion decision.
- `meeting.dfy` (`MeetingModel`) holds the meeting record, its status
  enumeration, and attribute access by column name (`hasattr`, `getattr`,
  `setattr`).
- `meeting_store.dfy` (`MeetingStore`) holds the table. It is a class
  whose `rows` map and `nextId` counter are updated in place.
- `routes_meetings.dfy`, `routes_suggestions.dfy`, `routes_analysis.dfy`
  and `routes_reports.dfy` hold one module per route file. Each route that
  changes the table is a method on the store, proved equal to a function
  about which the frame properties are lemmas.
- `responses.dfy` and `option.dfy` hold the reply and option types.

Every language-model call, the voice pipeline, the question generator and
the JSON parser are parameters of the model. They stand for what those
calls return: an arbitrary string, or None when the call raises.

Two behaviours of the code that the model keeps:

- A section ends at the next occurrence of any header, including its own,
  so a repeated header also ends the section.
- `get_meeting` answers 500 when `job_desc`, `experience` or `skills` is
  null, because the detail view it builds requires all three.

## Model

| member | source | states |
|---|---|---|
| Text.Find | app/utils/report_generator.py:100 | `str.find(pat, from)`: the least index at or after `from` where the pattern occurs, or -1 when it occurs nowhere from there |
| Text.FindContains | app/utils/voice_analyzer.py:201 | `pat in s` holds exactly when `find` does not return -1 |
| Text.FindIsLeast | app/utils/report_generator.py:110 | an occurrence with none before it, from the start index on, is what `find` returns |
| Text.Replace | app/utils/voice_analyzer.py:202 | `replace` with a non-empty pattern leaves a string without the pattern unchanged |
| Text.Strip | app/utils/report_generator.py:115 | `strip()` is an infix with only whitespace around it, and neither starts nor ends with whitespace |
| Text.StripIsInfix | app/utils/voice_analyzer.py:205 | gives the position of the stripped text in its input, with only whitespace before and after it |
| Text.StripKeepsAbsence | app/utils/voice_analyzer.py:202 | stripping adds no occurrence of a pattern |
| Text.InfixKeepsAbsence | app/utils/report_generator.py:115 | a pattern absent from a string is absent from each infix of it |
| Text.OccursInInfix | app/utils/report_generator.py:115 | an occurrence inside an infix is one in the whole string, and conversely when it lies within the infix |
| Text.Repeat | app/utils/report_generator.py:120 | `c * k`: exactly `k` copies of `c` |
| Text.LeadRun | app/utils/report_generator.py:120 | the length of the run of one character that starts a string: all of it is that character, and the next one is not |
| Text.RunFreeExcludesRepeat | app/utils/report_generator.py:118-120 | a string with no run of `k` copies of `c` does not contain `c * k` |
| Text.RemoveRunIsRunFree | app/utils/report_generator.py:118 | after removing every `c * k` no run of `k` copies of `c` is left, including runs that the removal joined |
| Text.RemoveRunKeepsShortLead | app/utils/report_generator.py:118 | a leading run shorter than `k` survives the removal unchanged |
| Text.RemoveRunExcludesRepeat | app/utils/voice_analyzer.py:202 | after `replace(c * k, "")` the string no longer contains `c * k` |
| Text.CollapseIsNewlineRunFree | app/utils/report_generator.py:120 | after `re.sub(r'\n{3,}', '\n\n', s)` no three newlines stand in a row |
| Text.CollapseKeepsRunFree | app/utils/report_generator.py:118-120 | collapsing newlines creates no run of any other character, so removing `**` before it stays effective |
| Text.CollapseKeepsShortNewlineLead | app/utils/report_generator.py:120 | a leading run of fewer than three newlines passes through the collapse unchanged |
| Text.CollapseKeepsOtherLead | app/utils/report_generator.py:120 | the collapse keeps the leading run of every other character |
| Text.CollapseNewlines | app/utils/report_generator.py:120 | `re.sub(r'\n{3,}', '\n\n', s)` never lengthens its input, and leaves a string with no three newlines in a row unchanged |
| Text.RunFreeSuffix | app/utils/report_generator.py:120 | every suffix of a run-free string is run free |
| ReportGenerator.HeadersOf | app/utils/report_generator.py:109 | the headers the inner loop visits, one per table entry, in table order |
| ReportGenerator.FieldsOf | app/utils/report_generator.py:98 | the fields the outer loop visits, one per table entry, in table order |
| ReportGenerator.Boundary | app/utils/report_generator.py:107-112 | the least index at or after the section start at which any header occurs, or the end of the text |
| ReportGenerator.RawSection | app/utils/report_generator.py:100-115 | None exactly when the header is not found; otherwise the slice from just after the header's first occurrence to the boundary that follows |
| ReportGenerator.CleanSection | app/utils/report_generator.py:115-120 | the cleaned value holds no `**` and no three consecutive newlines |
| ReportGenerator.SectionValue | app/utils/report_generator.py:100-122 | the value stored for a header: exactly "Not provided" when the header does not occur in the text |
| ReportGenerator.ReportOf | app/utils/report_generator.py:98-124 | the dictionary filled entry by entry has exactly the table's fields as keys, and the final entry's value is stored under its field |
| ReportGenerator.ReportOfLastWins | app/utils/report_generator.py:98-122 | the last assignment to a field wins: a field holds the value of the last table entry that names it, whatever entries before it repeat the field |
| ReportGenerator.ReportOfDistinct | app/utils/report_generator.py:122 | with distinct fields every field holds its own section's value |
| ReportGenerator.ReportOfStep | app/utils/report_generator.py:122 | one more iteration adds exactly one entry to the dictionary |
| ReportGenerator.SectionValues | app/utils/report_generator.py:98-124 | the value of each section of the table, in table order |
| ReportGenerator.SectionsWellFormed | app/utils/report_generator.py:85-96 | the ten fields are distinct and no header is empty |
| ReportGenerator.EarliestFindIsBoundary | app/utils/report_generator.py:108-112 | the least of the `find`s of all headers, or the text length when none is found, is the boundary |
| ReportGenerator.NearestHeader | app/utils/report_generator.py:108-112 | the inner loop leaves `end_index` at the boundary |
| ReportGenerator.ExtractSection | app/utils/report_generator.py:99-122 | one iteration stores exactly the section's value: "Not provided" for a missing header, otherwise the cleaned raw slice |
| ReportGenerator.ExtractSectionsOf | app/utils/report_generator.py:82-126 | the loop over any table builds the report that `ReportOf` specifies |
| ReportGenerator.ExtractSections | app/utils/report_generator.py:82-126 | the parser's report for the generator's table |
| ReportGenerator.ReportFields | app/utils/report_generator.py:85-124 | whatever the text, the report has exactly the ten fields, each holding its own section's value |
| ReportGenerator.RawSectionExcludesHeaders | app/utils/report_generator.py:107-115 | the raw slice of a present header contains none of the headers |
| ReportGenerator.StoredValueClean | app/utils/report_generator.py:102-122 | no stored value, the placeholder included, contains `**` or three consecutive newlines |
| ReportGenerator.FindAsSuffix | app/utils/report_generator.py:100 | a header that occurs only as the ending of another is first found that far into the other's first occurrence |
| ReportGenerator.FoundAsSuffix | app/utils/report_generator.py:100-105 | such a header then reads the same section as the other |
| ReportGenerator.CorrectFoundInsideIncorrect | app/utils/report_generator.py:89-90 | when "CORRECT ANSWERS:" occurs only inside "INCORRECT ANSWERS:", it is found two characters in, and the correct-answer count is the incorrect-answer section |
| ReportGenerator.BoundaryOrderFree | app/utils/report_generator.py:109-112 | the boundary depends on the set of headers, not on their order |
| ReportGenerator.SectionValueOrderFree | app/utils/report_generator.py:98-112 | each value depends only on the text and the set of headers |
| VoiceAnalyzer.RemoveFences | app/utils/voice_analyzer.py:201-202 | with a ```` ```json ```` fence present, no ```` ``` ```` is left; without one, the text is unchanged |
| VoiceAnalyzer.FenceIsRun | app/utils/voice_analyzer.py:202 | a fence is a run of three backquotes |
| VoiceAnalyzer.IndexOf | app/utils/voice_analyzer.py:207 | the first `{`, or -1 exactly when there is none |
| VoiceAnalyzer.LastIndexOf | app/utils/voice_analyzer.py:208 | the last `}`, or -1 exactly when there is none |
| VoiceAnalyzer.OpenMatch | app/utils/voice_analyzer.py:207 | the match of `^[^{]*` is the longest prefix free of `{` |
| VoiceAnalyzer.CloseMatch | app/utils/voice_analyzer.py:208 | the match of `[^}]*$` is the longest suffix free of `}` |
| VoiceAnalyzer.DropBeforeOpen | app/utils/voice_analyzer.py:207 | the result is empty or starts with `{` |
| VoiceAnalyzer.DropAfterClose | app/utils/voice_analyzer.py:208 | the result is empty or ends with `}` |
| VoiceAnalyzer.TrimToObject | app/utils/voice_analyzer.py:207-208 | after both trims the text is empty or runs from a `{` to a `}` |
| VoiceAnalyzer.TrimIsBraceSpan | app/utils/voice_analyzer.py:207-208 | the trimmed text is exactly the span from the first `{` to the last `}`, or empty when there is no such span |
| VoiceAnalyzer.NoOpenBraceGivesEmpty | app/utils/voice_analyzer.py:207 | text without `{` is reduced to the empty string |
| VoiceAnalyzer.TrimIdempotent | app/utils/voice_analyzer.py:207-208 | applying the two trims again changes nothing |
| VoiceAnalyzer.TrimIsInfix | app/utils/voice_analyzer.py:207-208 | the trimmed text is an infix of its input |
| VoiceAnalyzer.CleanReply | app/utils/voice_analyzer.py:200-208 | the text handed to the JSON parser is empty or runs from a `{` to a `}` |
| VoiceAnalyzer.CleanReplyUnfenced | app/utils/voice_analyzer.py:201-208 | a reply that held a ```` ```json ```` fence reaches the parser with no fence left |
| VoiceAnalyzer.TrimKeepsAbsence | app/utils/voice_analyzer.py:205-208 | stripping and trimming add no occurrence of a pattern |
| VoiceAnalyzer.CleanReplyKeepsObject | app/utils/voice_analyzer.py:200-208 | a reply without a fence that already runs from `{` to `}` reaches the parser unchanged |
| VoiceAnalyzer.StripOfTrimmed | app/utils/voice_analyzer.py:205 | `strip()` leaves a string without leading or trailing whitespace unchanged |
| VoiceAnalyzer.DownloadSuffix | app/utils/voice_analyzer.py:33-37 | the URL path's own extension, or `.mp3` when it has none; never empty |
| VoiceAnalyzer.LowerChar | app/utils/voice_analyzer.py:66 | `lower()` maps the ASCII capitals to small letters and keeps every other character |
| VoiceAnalyzer.Lower | app/utils/voice_analyzer.py:66 | the model lowers the ASCII capitals A-Z character by character and keeps every other character, so the length is kept |
| VoiceAnalyzer.WavExtensionCases | app/utils/voice_analyzer.py:66 | the extension counts as `.wav` exactly when it is a dot followed by w, a and v in either case |
| VoiceAnalyzer.ConvertAudioToWav | app/utils/voice_analyzer.py:62-75 | a `.wav` path is returned as it is; any other becomes `root_converted.wav`, or None when the export fails |
| VoiceAnalyzer.ConvertedIsWav | app/utils/voice_analyzer.py:62-72 | the file handed on always has a `.wav` extension |
| VoiceAnalyzer.ConvertedDiffersFromInput | app/utils/voice_analyzer.py:63-70 | a converted file's path differs from its input's |
| MeetingModel.StatusFromValue | app/models/meeting.py:8-12 | the status whose stored value is the given string, if any |
| MeetingModel.StatusRoundTrip | app/models/meeting.py:8-12 | each of the four statuses is recovered from its value, so the values are distinct |
| MeetingModel.ColumnNameInjective | app/models/meeting.py:17-44 | distinct columns have distinct attribute names |
| MeetingModel.ColumnFromReaches | app/models/meeting.py:17-44 | a lookup of a column's name that has not passed the column yet finds it |
| MeetingModel.ColumnNamed | app/routes/reports.py:58 | `hasattr(meeting, key)`: a column is found only under its own name |
| MeetingModel.ColumnNamedComplete | app/routes/reports.py:58 | every column is found under its own name, so `hasattr` holds for each column name |
| MeetingModel.Get | app/routes/reports.py:60 | `getattr` of a nullable text column: reads that column's field |
| MeetingModel.GetIgnoresReady | app/routes/reports.py:65 | setting the ready flag changes no text column |
| MeetingModel.SameExceptGet | app/models/meeting.py:24-44 | a text column outside the changed set reads the same in both records |
| MeetingModel.SameExceptTrans | app/models/meeting.py:24-44 | what each of two steps leaves alone, both together leave alone |
| MeetingModel.SameExceptNothing | app/models/meeting.py:14-44 | agreement on every column is equality of records |
| MeetingModel.Set | app/routes/reports.py:62 | `setattr` on a text column: that column reads back the value, and no other column changes |
| MeetingModel.SetUnchanged | app/routes/reports.py:62 | writing back the value a column holds changes nothing |
| MeetingStore.FindIn | app/routes/meetings.py:99-101 | the lookup by key: None exactly when no row has the key, otherwise that row |
| MeetingStore.Store.constructor | app/models/meeting.py:17 | an empty table whose first key is 1 |
| MeetingStore.Store.Find | app/routes/suggestions.py:20 | the lookup on the current rows |
| MeetingStore.Store.Insert | app/routes/meetings.py:50-51 | the row is stored under a fresh key, which it carries, and no other row changes |
| MeetingStore.Store.Write | app/routes/suggestions.py:29-30 | a commit replaces exactly the row under its own key |
| MeetingStore.InsertKeysDistinct | app/models/meeting.py:17 | the auto-incremented key is not in use and stays distinct from every later one |
| MeetingRoutes.NewMeeting | app/routes/meetings.py:36-49 | a new row is Scheduled and not review-ready, carries the generated questions (or null), has no review data, and records its request |
| MeetingRoutes.RequestOfIgnoresKey | app/routes/meetings.py:36-50 | assigning the key does not alter what the row records of its request |
| MeetingRoutes.CreateMeeting | app/routes/meetings.py:23-58 | a commit inserts exactly one row under a fresh key and returns 201; a database error returns 400 and any other error 500, with the table unchanged |
| MeetingRoutes.ListItemOf | app/routes/meetings.py:71-83 | a list entry keeps key, schedule and role, and its status string names the stored status |
| MeetingRoutes.ListStep | app/routes/meetings.py:69-84 | appending a row's entry covers that row's key |
| MeetingRoutes.GetAllMeetings | app/routes/meetings.py:60-89 | 200 with one entry per stored row, each the projection of its row, no key twice |
| MeetingRoutes.DetailOf | app/routes/meetings.py:104-133 | the detail view of a row with candidate columns, from which the stored row is recovered exactly |
| MeetingRoutes.MeetingOfDetail | app/routes/meetings.py:104-133 | the row a detail view describes, when its status string names a status |
| MeetingRoutes.GetMeeting | app/routes/meetings.py:93-140 | 404 for an unknown key; 500 when a column the view requires is null; otherwise 200 with a view from which the stored row is recovered exactly |
| MeetingRoutes.GetMeetingSucceeds | app/routes/meetings.py:104-138 | on rows created by this route, reading a stored meeting succeeds |
| MeetingRoutes.CreateKeepsCandidateInfo | app/routes/meetings.py:43-45 | creating a meeting keeps every row's candidate columns present |
| MeetingRoutes.ListAgreesWithDetail | app/routes/meetings.py:73-83 | a meeting's list entry agrees with its detail view |
| SuggestionRoute.Suggest | app/routes/suggestions.py:20-62 | the route as a function of the table: lookup, transcript gate, transcript commit, then questions commit or failure |
| SuggestionRoute.TranscriptAccepted | app/routes/suggestions.py:28 | the transcript is taken only when the request carries a non-empty one and the meeting has none |
| SuggestionRoute.UnknownMeeting | app/routes/suggestions.py:20-25 | an unknown meeting gives 404 and changes nothing |
| SuggestionRoute.TranscriptGate | app/routes/suggestions.py:28-36 | 400 exactly when the meeting exists and already has a transcript or the request's is empty; the table is then unchanged |
| SuggestionRoute.SuccessWrites | app/routes/suggestions.py:28-55 | on success the transcript is the request's, the expected questions are the generated text, which is also the reply, and nothing else changes |
| SuggestionRoute.QuestionsOverwritten | app/routes/suggestions.py:48 | the previous expected questions play no part in the outcome |
| SuggestionRoute.FailureKeepsTranscript | app/routes/suggestions.py:30-62 | a failed generation keeps the committed transcript and the old questions, changes no other column and no other row, adds or removes no row, and gives 500 |
| SuggestionRoute.SuggestKeepsTable | app/routes/suggestions.py:29-49 | the route keeps keys and candidate columns intact |
| SuggestionRoute.GenerateSuggestions | app/routes/suggestions.py:14-55 | the route on the store yields exactly the table and reply of `Suggest` |
| AnalysisRoute.GetMeetingAnalysis | app/routes/analysis.py:18-64 | 404 for an unknown key, checked first; 404 "not available" when no analysis column holds text; 200 only for a stored meeting |
| AnalysisRoute.HasAnalysis | app/routes/analysis.py:30-42 | `any([...])` over the eleven analysis columns, each counted by Python truthiness |
| AnalysisRoute.OneFieldSuffices | app/routes/analysis.py:30-42 | one analysis column with text is enough |
| AnalysisRoute.FilledColumn | app/routes/analysis.py:30-42 | when the check passes, some analysis column holds text |
| AnalysisRoute.HasAnalysisIff | app/routes/analysis.py:30-42 | `any([...])` holds exactly when some analysis column holds non-empty text |
| AnalysisRoute.AvailableIff | app/routes/analysis.py:20-63 | the reply is 200 exactly when the meeting exists and some analysis column holds non-empty text |
| AnalysisRoute.AnalysisCopiesColumns | app/routes/analysis.py:49-63 | a 200 reply reports each analysis column exactly as stored |
| AnalysisRoute.IgnoresOtherColumns | app/routes/analysis.py:30-63 | candidate details, transcript, audio and expected questions do not affect the reply |
| AnalysisRoute.OtherRowsIrrelevant | app/routes/analysis.py:20 | other rows do not affect the reply |
| ReportRoute.GenerateReport | app/routes/reports.py:87-108 | 202 with the scheduled task exactly when the meeting exists; otherwise 404 and nothing scheduled |
| ReportRoute.VoiceNamesProtected | app/routes/reports.py:58 | every key that names a voice column is protected, so the merge never writes one |
| ReportRoute.ProtectedNames | app/routes/reports.py:58 | the voice columns' names are the protected keys |
| ReportRoute.TextTargetsPrefix | app/routes/reports.py:57 | a prefix of the report's keys still names only text columns |
| ReportRoute.Merged | app/routes/reports.py:57-62 | the report entries copied one key after another; key, schedule, status and ready flag come through unchanged |
| ReportRoute.MergeFrame | app/routes/reports.py:57-62 | the merge changes no column it does not write |
| ReportRoute.WrittenWithin | app/routes/reports.py:57-62 | the merge writes only columns the keys name, and never a voice column |
| ReportRoute.MergeStores | app/routes/reports.py:57-62 | with no repeated key, every copied entry ends up in its column |
| ReportRoute.MergeLastKeeps | app/routes/reports.py:57-62 | the last key's write leaves every column of another name as the earlier keys left it |
| ReportRoute.MergeReport | app/routes/reports.py:57-62 | the loop yields the merge; the test at line 60 is never true |
| ReportRoute.MergeOnlyReportColumns | app/routes/reports.py:57-62 | a merge of the parser's keys changes only the eight report columns |
| ReportRoute.MergeOutsideReport | app/routes/reports.py:57-62 | audio, transcript, voice columns and ready flag come through the merge unchanged |
| ReportRoute.OutsideReport | app/routes/reports.py:57-62 | records that differ only in report columns agree on audio, transcript, voice columns and ready flag |
| ReportRoute.NonVoiceKeyColumns | app/routes/reports.py:58 | of the columns the parser's keys may name, those that are not voice columns are report columns |
| ReportRoute.AnalysedFrame | app/routes/reports.py:26-37 | the audio and voice steps change only the audio and voice columns, and store the URL |
| ReportRoute.WithVoice | app/routes/reports.py:30-37 | the voice columns are written only after a successful analysis of a given URL; no other column changes |
| ReportRoute.AudioStored | app/routes/reports.py:26-27 | the audio URL is stored whatever follows |
| ReportRoute.VoiceColumnsFromAnalyser | app/routes/reports.py:30-40 | the voice columns hold the analyser's values after a successful analysis of a given URL, and their old values otherwise; the report's values never reach them |
| ReportRoute.NoTranscriptStops | app/routes/reports.py:43-45 | without a transcript the ready flag and every report column keep their values |
| ReportRoute.FailedGenerationKeepsCommitted | app/routes/reports.py:48-54 | a failed generation keeps the committed audio and voice columns and leaves the ready flag unchanged |
| ReportRoute.MergedRowReady | app/routes/reports.py:57-68 | after a successful merge the row is ready and each copied entry is in its column |
| ReportRoute.MergedRowFrame | app/routes/reports.py:26-68 | the whole step changes nothing outside the audio, voice and report columns, besides the ready flag |
| ReportRoute.ReportStep | app/routes/reports.py:20-68 | the row becomes ready for review exactly when it has a transcript and the report was generated, or was ready already; key, schedule and status never change |
| ReportRoute.TargetsWellBehaved | app/routes/reports.py:57-62 | keys naming distinct text columns a report may fill are well behaved |
| ReportRoute.ParserColumnsDistinct | app/models/meeting.py:34-43 | the ten columns the parser fills are distinct text columns |
| ReportRoute.SectionsNameParserColumns | app/utils/report_generator.py:85-96 | each field of the parser's table is the name of the column at the same position of the ten report columns |
| ReportRoute.TableKeysTarget | app/routes/reports.py:57-58 | keys in the table's order name the ten report columns in that order |
| ReportRoute.ParserKeys | app/utils/report_generator.py:98 | the report's keys in insertion order, which is the table's order; they are well behaved |
| ReportRoute.ParsedIsReport | app/routes/reports.py:48-54 | the report merged is the parser's report of the reply |
| ReportRoute.StoreVoiceAnalysis | app/routes/reports.py:26-40 | commits the URL, then the voice columns when a URL was given and the analysis succeeded; no other row changes |
| ReportRoute.StoreReport | app/routes/reports.py:48-72 | with a reply, commits the merged row marked ready; without one, commits nothing |
| ReportRoute.ProcessReportGenerationWith | app/routes/reports.py:14-74 | an unknown meeting leaves the table alone; otherwise only its row changes, to what `ReportStep` gives |
| ReportRoute.ProcessReportGeneration | app/routes/reports.py:14-74 | the background step with the parser's table and key order |

## Left out

- Language-model calls, prompts, the voice pipeline (download, conversion
  with pydub, speech recognition, audio features) and the question and
  suggestion generators are network, file and floating-point work. Their
  results are parameters: an optional string or an optional voice verdict.
- `json.loads` and the `str()` of the parsed scores are library
  behaviour. The voice verdict is taken as given, after the cleanup the
  model does prove.
- The internals of `urlparse` and `os.path.splitext` are library code. The
  model takes their results (the extension, and the root and extension of
  a path) as inputs and models only the decisions made on them.
- Background scheduling and database sessions are infrastructure. The
  model keeps the table as of each commit, and a rollback keeps the last
  commit. Closing the session is not modelled.
- Read errors of the database in every route, and the `SQLAlchemyError`
  and other `except` branches of the report, analysis, list and get
  routes, cannot be reached from the model's pure operations. Only the
  create route's commit outcome is a parameter, because the 400/500
  decision there is a stated behaviour.
- The suggestions route's `except` branches (app/routes/suggestions.py:57-62)
  are left out except for a raising generator: a `SQLAlchemyError` from the
  commit at line 30 or 49 rolls back and answers 400, and any other error
  answers 500. The model has commits that do not fail, and a generator that
  raises gives the rolled-back 500 of `FailureKeepsTranscript`.
- In `create_meeting` a question generator that raises is folded into the
  `OtherError` outcome: it leads to the same 500 reply with no change.
- Error messages are represented by their kind (`Responses.Error`), not
  by their text. Print and logging are left out.
- Dates and times are opaque triples. Their validation by the request
  schema is left out.
- The `except` at app/utils/report_generator.py:123-124 is left out: the
  string operations it guards cannot raise. The outer `except`, which
  re-raises (lines 127-129), is the None reply of the background step.
- VoiceAnalyzer.LowerChar: only ASCII capitals are lowered. A non-ASCII
  capital is never part of `.wav`, so the comparison is unaffected.
- VoiceAnalyzer.Lower: Python's `lower()` can change the length of a
  string ('İ' lowers to two code points); the model maps each character
  to one, which does not change whether the result equals `.wav`.
- MeetingModel.ColumnNamed: `hasattr` is modelled as a lookup among the
  column names only. Python's `hasattr` also holds for the other
  attributes of the mapped class, such as `metadata`. No key of the
  parser's report is such a name.
- ReportRoute.Merged: keys that name a non-text column are excluded by the
  hypothesis `TextTargets`, because `setattr` of a string there would
  change a typed column. None of the parser's keys does.
- MeetingRoutes.GetAllMeetings: the order of the list is not specified,
  as `query(...).all()` promises none.
- `experience` is modelled as text; the request may carry a number, and
  its conversion is left out.
