/** The report routes: the request that schedules report generation, and
    the background step that stores the audio URL, the voice analysis and
    the parsed report in the meeting's row. */
module ReportRoute {
  import opened Optional
  import opened Responses
  import opened MeetingModel
  import opened MeetingStore
  import opened ReportGenerator

  // ---------------------------------------------------------------------
  // Scheduling

  /** The background work the route schedules. */
  datatype ReportTask = ReportTask(id: int, audioUrl: string)

  /** `generate_report`: 202 with the scheduled task for a known meeting,
      404 and nothing scheduled for an unknown one. */
  function GenerateReport(rows: map<int, Meeting>, id: int, audioUrl: string): (r: Response<ReportTask>)
    ensures r.Ok? <==> id in rows
    ensures r.Ok? ==> r == Ok(Accepted, ReportTask(id, audioUrl))
    ensures r.Err? ==> r == Err(NotFound, MeetingNotFound(id))
  {
    if FindIn(rows, id).None? then Err(NotFound, MeetingNotFound(id))
    else Ok(Accepted, ReportTask(id, audioUrl))
  }

  // ---------------------------------------------------------------------
  // Merging the report into the row

  /** The keys the merge refuses to copy: the voice-analysis columns. */
  const Protected: set<string> := {"clarity", "confidence", "speech_patterns"}

  /** Line 58: the report entry under `k` is copied into the row. */
  predicate Copied(report: map<string, string>, k: string) {
    k in report && HasAttr(k) && k !in Protected
  }

  /** The three voice-analysis columns. */
  predicate IsVoice(c: Column) {
    c.Clarity? || c.Confidence? || c.SpeechPatterns?
  }

  /** Whatever the report holds, a key that names a voice column is one of
      the protected keys, so the merge never writes a voice column. */
  lemma VoiceNamesProtected(k: string)
    requires HasAttr(k) && IsVoice(ColumnNamed(k).value)
    ensures k in Protected
  {
    ProtectedNames(ColumnNamed(k).value);
  }

  /** The names of the voice columns are the protected keys. */
  lemma ProtectedNames(c: Column)
    requires IsVoice(c)
    ensures ColumnName(c) in Protected
  {
  }

  /** Every key that names a column names a nullable text column. */
  predicate TextTargets(keys: seq<string>) {
    forall i | 0 <= i < |keys| && HasAttr(keys[i]) :: IsText(ColumnNamed(keys[i]).value)
  }

  /** No key occurs twice, as in the keys of a dictionary. */
  predicate NoRepeats(keys: seq<string>) {
    forall i, j | 0 <= i < j < |keys| :: keys[i] != keys[j]
  }

  /** Every key that names a column names one of `cols`. */
  predicate TargetsWithin(keys: seq<string>, cols: set<Column>) {
    forall i | 0 <= i < |keys| && HasAttr(keys[i]) :: ColumnNamed(keys[i]).value in cols
  }

  /** A prefix of keys that name text columns names text columns. */
  lemma TextTargetsPrefix(keys: seq<string>, n: nat)
    requires TextTargets(keys) && n <= |keys|
    ensures TextTargets(keys[..n])
  {
    forall i | 0 <= i < n ensures keys[..n][i] == keys[i] {
    }
  }

  /** Lines 57-62: the report entries copied into the row one key after
      another, in the report's order `keys`.  The key, the schedule, the
      status and the ready flag come through unchanged. */
  function Merged(m: Meeting, report: map<string, string>, keys: seq<string>): (r: Meeting)
    requires TextTargets(keys)
    ensures SameFixed(r, m)
    decreases |keys|
  {
    if keys == [] then m
    else
      var k := keys[|keys| - 1];
      TextTargetsPrefix(keys, |keys| - 1);
      var prev := Merged(m, report, keys[..|keys| - 1]);
      if Copied(report, k) then Set(prev, ColumnNamed(k).value, Some(report[k])) else prev
  }

  /** The columns the merge writes. */
  function Written(report: map<string, string>, keys: seq<string>): (w: set<Column>)
    requires TextTargets(keys)
    decreases |keys|
  {
    if keys == [] then {}
    else
      var k := keys[|keys| - 1];
      TextTargetsPrefix(keys, |keys| - 1);
      Written(report, keys[..|keys| - 1]) +
        (if Copied(report, k) then {ColumnNamed(k).value} else {})
  }

  /** The merge changes no column it does not write. */
  lemma {:induction false} MergeFrame(m: Meeting, report: map<string, string>, keys: seq<string>)
    requires TextTargets(keys)
    ensures SameExcept(Merged(m, report, keys), m, Written(report, keys))
  {
    if keys == [] {
      assert SameExcept(m, m, {});
    } else {
      var k := keys[|keys| - 1];
      var prefix := keys[..|keys| - 1];
      TextTargetsPrefix(keys, |keys| - 1);
      MergeFrame(m, report, prefix);
      if Copied(report, k) {
        var prev := Merged(m, report, prefix);
        var c := ColumnNamed(k).value;
        SameExceptTrans(Set(prev, c, Some(report[k])), prev, m, {c}, Written(report, prefix));
      }
    }
  }

  /** The merge writes only columns the keys name, and never a voice
      column. */
  lemma {:induction false} WrittenWithin(report: map<string, string>, keys: seq<string>, cols: set<Column>)
    requires TextTargets(keys) && TargetsWithin(keys, cols)
    ensures forall c | c in Written(report, keys) :: c in cols && !IsVoice(c)
  {
    if keys != [] {
      var last := |keys| - 1;
      var prefix := keys[..last];
      TextTargetsPrefix(keys, last);
      assert TargetsWithin(prefix, cols) by {
        forall i | 0 <= i < last ensures prefix[i] == keys[i] {
        }
      }
      WrittenWithin(report, prefix, cols);
      var k := keys[last];
      if Copied(report, k) && IsVoice(ColumnNamed(k).value) {
        VoiceNamesProtected(k);
      }
    }
  }

  /** With no repeated key, every copied entry ends up in its column. */
  lemma {:induction false} MergeStores(m: Meeting, report: map<string, string>, keys: seq<string>, i: nat)
    requires TextTargets(keys) && NoRepeats(keys)
    requires i < |keys| && Copied(report, keys[i])
    ensures Get(Merged(m, report, keys), ColumnNamed(keys[i]).value) == Some(report[keys[i]])
  {
    var last := |keys| - 1;
    var prefix := keys[..last];
    TextTargetsPrefix(keys, last);
    if i == last {
    } else {
      assert prefix[i] == keys[i];
      assert NoRepeats(prefix) by {
        forall a, b | 0 <= a < b < last ensures prefix[a] == keys[a] && prefix[b] == keys[b] {
        }
      }
      MergeStores(m, report, prefix, i);
      MergeLastKeeps(m, report, keys, ColumnNamed(keys[i]).value);
    }
  }

  /** The last key's write leaves every other column as the earlier keys
      left it. */
  lemma MergeLastKeeps(m: Meeting, report: map<string, string>, keys: seq<string>, d: Column)
    requires TextTargets(keys) && keys != [] && IsText(d)
    requires ColumnName(d) != keys[|keys| - 1]
    ensures TextTargets(keys[..|keys| - 1])
    ensures Get(Merged(m, report, keys), d) == Get(Merged(m, report, keys[..|keys| - 1]), d)
  {
    var k := keys[|keys| - 1];
    TextTargetsPrefix(keys, |keys| - 1);
    if Copied(report, k) {
      var prev := Merged(m, report, keys[..|keys| - 1]);
      var c := ColumnNamed(k).value;
      SameExceptGet(Set(prev, c, Some(report[k])), prev, {c}, d);
    }
  }

  /** Lines 57-62 step by step.  The test at line 60 repeats the list that
      line 58 has just excluded, so its branch is never taken. */
  method MergeReport(m: Meeting, report: map<string, string>, keys: seq<string>) returns (r: Meeting)
    requires TextTargets(keys)
    ensures r == Merged(m, report, keys)
  {
    r := m;
    for n := 0 to |keys|
      invariant TextTargets(keys[..n])
      invariant r == Merged(m, report, keys[..n])
    {
      var k := keys[n];
      assert keys[..n + 1][..n] == keys[..n];
      TextTargetsPrefix(keys, n + 1);
      if k in report && HasAttr(k) && k !in Protected {
        var c := ColumnNamed(k).value;
        var current := Get(r, c);
        if k in Protected && Truthy(current) {
          assert false;
        } else {
          r := Set(r, c, Some(report[k]));
        }
      }
    }
    assert keys[..|keys|] == keys;
  }

  // ---------------------------------------------------------------------
  // The background step

  /** What the voice analyser returns on success. */
  datatype VoiceAnalysis = VoiceAnalysis(clarity: string, confidence: string, speechPatterns: string)

  /** The eight columns the parsed report fills in. */
  const ReportColumns: set<Column> :=
    {QuesCount, CorrectAnsCount, WrongAnsCount, TechKnowledge, OverallFit,
     WhatWentWell, AreaToImprove, AiFeedback}

  /** Lines 26-27: the audio URL, committed first. */
  function WithAudio(m: Meeting, audioUrl: string): Meeting {
    m.(audio := Some(audioUrl))
  }

  /** Lines 30-37: the voice columns, written and committed only when a URL
      was given and the analysis succeeded; no other column changes, and
      without an analysis nothing does. */
  function WithVoice(m: Meeting, audioUrl: string, voice: Option<VoiceAnalysis>): (r: Meeting)
    ensures SameExcept(r, m, {Clarity, Confidence, SpeechPatterns})
    ensures audioUrl == [] || voice.None? ==> r == m
  {
    if audioUrl != [] && voice.Some? then
      m.(clarity := Some(voice.value.clarity),
         confidence := Some(voice.value.confidence),
         speechPatterns := Some(voice.value.speechPatterns))
    else m
  }

  /** `process_report_generation` on the row of a known meeting.  `report`
      is the parsed report, or None when generation raises; then the row
      rolls back to its last commit.  `keys` is the report's order.  The
      row becomes ready for review exactly when it has a transcript and the
      report was generated (or was ready already); the key, the schedule
      and the status never change. */
  function ReportStep(m: Meeting, audioUrl: string, voice: Option<VoiceAnalysis>,
                      report: Option<map<string, string>>, keys: seq<string>): (r: Meeting)
    requires TextTargets(keys)
    ensures r.isReviewReady <==> m.isReviewReady || (Truthy(m.transcript) && report.Some?)
    ensures SameFixed(r.(isReviewReady := m.isReviewReady), m)
  {
    var analysed := WithVoice(WithAudio(m, audioUrl), audioUrl, voice);
    if !Truthy(analysed.transcript) then analysed
    else
      match report
      case None => analysed
      case Some(r) => Merged(analysed, r, keys).(isReviewReady := true)
  }

  /** The columns a report's keys may name: the eight report columns and
      the two voice columns the parser also fills in. */
  const KeyColumns: set<Column> := ReportColumns + {Confidence, Clarity}

  /** A well-behaved key order: every key that names a column names a
      distinct text column, one of `KeyColumns`. */
  predicate WellBehaved(keys: seq<string>) {
    TextTargets(keys) && NoRepeats(keys) && TargetsWithin(keys, KeyColumns)
  }

  /** A well-behaved merge changes the report columns and nothing else. */
  lemma MergeOnlyReportColumns(m: Meeting, report: map<string, string>, keys: seq<string>)
    requires WellBehaved(keys)
    ensures SameExcept(Merged(m, report, keys), m, ReportColumns)
  {
    var w := Written(report, keys);
    MergeFrame(m, report, keys);
    WrittenWithin(report, keys, KeyColumns);
    NonVoiceKeyColumns(w);
    SameExceptMono(Merged(m, report, keys), m, w, ReportColumns);
  }

  /** The columns outside the report columns come through the merge as
      they were. */
  lemma MergeOutsideReport(m: Meeting, report: map<string, string>, keys: seq<string>)
    requires WellBehaved(keys)
    ensures var r := Merged(m, report, keys);
      r.audio == m.audio && r.transcript == m.transcript &&
      r.clarity == m.clarity && r.confidence == m.confidence &&
      r.speechPatterns == m.speechPatterns && r.isReviewReady == m.isReviewReady
  {
    MergeOnlyReportColumns(m, report, keys);
    OutsideReport(Merged(m, report, keys), m);
  }

  /** Two records that differ only in report columns agree on the audio,
      transcript, voice and ready fields. */
  lemma OutsideReport(r: Meeting, m: Meeting)
    requires SameExcept(r, m, ReportColumns)
    ensures r.audio == m.audio && r.transcript == m.transcript &&
      r.clarity == m.clarity && r.confidence == m.confidence &&
      r.speechPatterns == m.speechPatterns && r.isReviewReady == m.isReviewReady
  {
  }

  /** Of the columns a report's keys may name, those outside the voice
      columns are the report columns. */
  lemma NonVoiceKeyColumns(w: set<Column>)
    requires forall c | c in w :: c in KeyColumns && !IsVoice(c)
    ensures w <= ReportColumns
  {
  }

  /** The row after the audio and voice steps differs from the stored row
      only in the audio and voice columns. */
  lemma AnalysedFrame(m: Meeting, audioUrl: string, voice: Option<VoiceAnalysis>)
    ensures var analysed := WithVoice(WithAudio(m, audioUrl), audioUrl, voice);
      SameExcept(analysed, m, {Audio, Clarity, Confidence, SpeechPatterns}) &&
      analysed.audio == Some(audioUrl)
  {
  }

  /** The audio URL is always stored. */
  lemma AudioStored(m: Meeting, audioUrl: string, voice: Option<VoiceAnalysis>,
                    report: Option<map<string, string>>, keys: seq<string>)
    requires WellBehaved(keys)
    ensures ReportStep(m, audioUrl, voice, report, keys).audio == Some(audioUrl)
  {
    var analysed := WithVoice(WithAudio(m, audioUrl), audioUrl, voice);
    AnalysedFrame(m, audioUrl, voice);
    if report.Some? {
      MergeOutsideReport(analysed, report.value, keys);
    }
  }

  /** The voice columns hold the analyser's values after a successful
      analysis of a given URL, and their old values otherwise; the report's
      own values never reach them. */
  lemma VoiceColumnsFromAnalyser(m: Meeting, audioUrl: string, voice: Option<VoiceAnalysis>,
                                 report: Option<map<string, string>>, keys: seq<string>)
    requires WellBehaved(keys)
    ensures var r := ReportStep(m, audioUrl, voice, report, keys);
      if audioUrl != [] && voice.Some? then
        r.clarity == Some(voice.value.clarity) && r.confidence == Some(voice.value.confidence) &&
        r.speechPatterns == Some(voice.value.speechPatterns)
      else
        r.clarity == m.clarity && r.confidence == m.confidence && r.speechPatterns == m.speechPatterns
  {
    var analysed := WithVoice(WithAudio(m, audioUrl), audioUrl, voice);
    if report.Some? {
      MergeOutsideReport(analysed, report.value, keys);
    }
  }

  /** Without a transcript the step stops after the voice analysis: the
      ready flag and every report column keep their values. */
  lemma NoTranscriptStops(m: Meeting, audioUrl: string, voice: Option<VoiceAnalysis>,
                          report: Option<map<string, string>>, keys: seq<string>)
    requires TextTargets(keys) && !Truthy(m.transcript)
    ensures var r := ReportStep(m, audioUrl, voice, report, keys);
      r.isReviewReady == m.isReviewReady &&
      SameExcept(r, m, {Audio, Clarity, Confidence, SpeechPatterns})
  {
    AnalysedFrame(m, audioUrl, voice);
  }

  /** A failed generation keeps what was committed before it: the audio
      URL and the voice analysis, with the ready flag unchanged. */
  lemma FailedGenerationKeepsCommitted(m: Meeting, audioUrl: string, voice: Option<VoiceAnalysis>, keys: seq<string>)
    requires TextTargets(keys)
    ensures ReportStep(m, audioUrl, voice, None, keys) == WithVoice(WithAudio(m, audioUrl), audioUrl, voice)
    ensures ReportStep(m, audioUrl, voice, None, keys).isReviewReady == m.isReviewReady
  {
  }

  /** After a successful merge the row is ready for review and every
      copied entry is in its column. */
  lemma MergedRowReady(m: Meeting, audioUrl: string, voice: Option<VoiceAnalysis>,
                       report: map<string, string>, keys: seq<string>, i: nat)
    requires WellBehaved(keys) && Truthy(m.transcript)
    requires i < |keys| && Copied(report, keys[i])
    ensures var r := ReportStep(m, audioUrl, voice, Some(report), keys);
      r.isReviewReady && Get(r, ColumnNamed(keys[i]).value) == Some(report[keys[i]])
  {
    var analysed := WithVoice(WithAudio(m, audioUrl), audioUrl, voice);
    MergeStores(analysed, report, keys, i);
    GetIgnoresReady(Merged(analysed, report, keys), ColumnNamed(keys[i]).value, true);
  }

  /** A successful merge changes nothing outside the audio, voice and
      report columns, besides setting the ready flag. */
  lemma MergedRowFrame(m: Meeting, audioUrl: string, voice: Option<VoiceAnalysis>,
                       report: map<string, string>, keys: seq<string>)
    requires WellBehaved(keys) && Truthy(m.transcript)
    ensures var r := ReportStep(m, audioUrl, voice, Some(report), keys);
      SameExcept(r.(isReviewReady := m.isReviewReady), m,
        ReportColumns + {Audio, Clarity, Confidence, SpeechPatterns})
  {
    var analysed := WithVoice(WithAudio(m, audioUrl), audioUrl, voice);
    var merged := Merged(analysed, report, keys);
    AnalysedFrame(m, audioUrl, voice);
    MergeOnlyReportColumns(analysed, report, keys);
    SameExceptTrans(merged, analysed, m, ReportColumns, {Audio, Clarity, Confidence, SpeechPatterns});
    assert SameExcept(merged.(isReviewReady := true).(isReviewReady := m.isReviewReady), merged, {});
  }

  // ---------------------------------------------------------------------
  // The parser's report

  /** Keys naming the given columns, one each. */
  predicate Targets(keys: seq<string>, cols: seq<Column>) {
    |keys| == |cols| && forall i | 0 <= i < |keys| :: ColumnNamed(keys[i]) == Some(cols[i])
  }

  /** Keys that name distinct text columns of `KeyColumns` are well
      behaved. */
  lemma TargetsWellBehaved(keys: seq<string>, cols: seq<Column>)
    requires Targets(keys, cols)
    requires forall i | 0 <= i < |cols| :: IsText(cols[i]) && cols[i] in KeyColumns
    requires forall i, j | 0 <= i < j < |cols| :: cols[i] != cols[j]
    ensures WellBehaved(keys)
  {
  }

  /** The columns the parser's ten keys name, in the table's order. */
  const ParserColumns: seq<Column> := [Confidence, Clarity, QuesCount, CorrectAnsCount, WrongAnsCount, TechKnowledge, OverallFit, WhatWentWell, AreaToImprove, AiFeedback]

  /** The ten columns are text columns a report key may name, and no two
      are the same. */
  lemma ParserColumnsDistinct()
    ensures forall i | 0 <= i < |ParserColumns| ::
      IsText(ParserColumns[i]) && ParserColumns[i] in KeyColumns
    ensures forall i, j | 0 <= i < j < |ParserColumns| :: ParserColumns[i] != ParserColumns[j]
  {
  }

  /** The field of each entry of the parser's table is the name of the
      column at the same position of `ParserColumns`. */
  lemma SectionsNameParserColumns()
    ensures |Sections| == |ParserColumns|
    ensures forall i | 0 <= i < |Sections| :: Sections[i].0 == ColumnName(ParserColumns[i])
  {
  }

  /** Keys that follow the parser's table name its columns in order. */
  lemma TableKeysTarget(keys: seq<string>)
    requires |keys| == |Sections| && forall i | 0 <= i < |Sections| :: keys[i] == Sections[i].0
    ensures Targets(keys, ParserColumns)
  {
    SectionsNameParserColumns();
    forall i | 0 <= i < |keys| ensures ColumnNamed(keys[i]) == Some(ParserColumns[i]) {
      ColumnNamedComplete(ParserColumns[i]);
    }
  }

  /** The keys of the parser's report in the order the dictionary iterates
      them: insertion order, which is the order of its table. */
  function ParserKeys(): (keys: seq<string>)
    ensures |keys| == |Sections| && forall i | 0 <= i < |Sections| :: keys[i] == Sections[i].0
    ensures WellBehaved(keys)
  {
    var keys := FieldsOf(Sections);
    TableKeysTarget(keys);
    ParserColumnsDistinct();
    TargetsWellBehaved(keys, ParserColumns);
    keys
  }

  /** The report the background step merges, parsed with `table`: None
      when generation raises. */
  function ParsedWith(reply: Option<string>, table: seq<(string, string)>): Option<map<string, string>> {
    match reply
    case None => None
    case Some(text) => Some(ReportOf(table, SectionValues(text, table, HeadersOf(table))))
  }

  /** The report the background step merges: the generator's parse of the
      reply. */
  function Parsed(reply: Option<string>): Option<map<string, string>> {
    ParsedWith(reply, Sections)
  }

  /** The merged report is the generator's specified report of the reply. */
  lemma ParsedIsReport(text: string)
    ensures Parsed(Some(text)) == Some(ReportSpec(text))
  {
  }

  /** Lines 26-37 on the store: commit the audio URL, then the voice
      analysis when a URL was given and the analysis succeeded. */
  method StoreVoiceAnalysis(db: Store, stored: Meeting, audioUrl: string, voice: Option<VoiceAnalysis>)
    returns (meeting: Meeting)
    requires db.Valid() && stored.id in db.rows && db.rows[stored.id] == stored
    modifies db
    ensures db.Valid() && db.nextId == old(db.nextId)
    ensures meeting == WithVoice(WithAudio(stored, audioUrl), audioUrl, voice)
    ensures db.rows == old(db.rows)[stored.id := meeting]
  {
    meeting := stored.(audio := Some(audioUrl));
    db.Write(meeting);
    if audioUrl != [] && voice.Some? {
      meeting := meeting.(clarity := Some(voice.value.clarity),
                          confidence := Some(voice.value.confidence),
                          speechPatterns := Some(voice.value.speechPatterns));
      db.Write(meeting);
    }
  }

  /** Lines 48-68 on the store, once a transcript is present: parse the
      reply, merge it into the row, mark the row ready and commit; a
      failed generation commits nothing more. */
  method StoreReport(db: Store, meeting: Meeting, reply: Option<string>,
                     table: seq<(string, string)>, keys: seq<string>)
    requires db.Valid() && meeting.id in db.rows && TextTargets(keys)
    modifies db
    ensures db.Valid() && db.nextId == old(db.nextId)
    ensures reply.None? ==> db.rows == old(db.rows)
    ensures reply.Some? ==> ParsedWith(reply, table).Some?
    ensures reply.Some? ==>
      db.rows == old(db.rows)[meeting.id := Merged(meeting, ParsedWith(reply, table).value, keys).(isReviewReady := true)]
  {
    if reply.None? {
      return;
    }
    var report := ExtractSectionsOf(reply.value, table);
    var merged := MergeReport(meeting, report, keys);
    merged := merged.(isReviewReady := true);
    db.Write(merged);
  }

  /** The background step on the store, for a report parsed with `table`
      whose keys come in the order `keys`.  An unknown meeting is left
      alone; otherwise the row becomes what `ReportStep` gives for the
      parsed reply. */
  method ProcessReportGenerationWith(db: Store, id: int, audioUrl: string,
                                     voice: Option<VoiceAnalysis>, reply: Option<string>,
                                     table: seq<(string, string)>, keys: seq<string>)
    requires db.Valid() && TextTargets(keys)
    modifies db
    ensures db.Valid() && db.nextId == old(db.nextId)
    ensures id !in old(db.rows) ==> db.rows == old(db.rows)
    ensures id in old(db.rows) ==>
      db.rows == old(db.rows)[id := ReportStep(old(db.rows)[id], audioUrl, voice, ParsedWith(reply, table), keys)]
  {
    var found := db.Find(id);
    if found.None? {
      return;
    }
    var meeting := StoreVoiceAnalysis(db, found.value, audioUrl, voice);
    if !Truthy(meeting.transcript) {
      return;
    }
    StoreReport(db, meeting, reply, table, keys);
  }

  /** `process_report_generation`: the background step for the parser's
      report. */
  method ProcessReportGeneration(db: Store, id: int, audioUrl: string,
                                 voice: Option<VoiceAnalysis>, reply: Option<string>)
    requires db.Valid()
    modifies db
    ensures db.Valid() && db.nextId == old(db.nextId)
    ensures id !in old(db.rows) ==> db.rows == old(db.rows)
    ensures id in old(db.rows) ==>
      db.rows == old(db.rows)[id := ReportStep(old(db.rows)[id], audioUrl, voice, Parsed(reply), ParserKeys())]
  {
    ProcessReportGenerationWith(db, id, audioUrl, voice, reply, Sections, ParserKeys());
  }
}
