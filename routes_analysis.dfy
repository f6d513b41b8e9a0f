/** The analysis route: the eleven analysis columns of one meeting, when
    any of them holds something. */
module AnalysisRoute {
  import opened Optional
  import opened Responses
  import opened MeetingModel
  import opened MeetingStore

  /** The analysis view, in the order the route lists its fields. */
  datatype AnalysisData = AnalysisData(
    confidence: Option<string>,
    clarity: Option<string>,
    quesCount: Option<string>,
    correctAnsCount: Option<string>,
    wrongAnsCount: Option<string>,
    techKnowledge: Option<string>,
    overallFit: Option<string>,
    aiFeedback: Option<string>,
    whatWentWell: Option<string>,
    areaToImprove: Option<string>,
    speechPatterns: Option<string>)

  /** The eleven analysis columns. */
  predicate IsAnalysis(c: Column) {
    c.Confidence? || c.Clarity? || c.QuesCount? || c.CorrectAnsCount? ||
    c.WrongAnsCount? || c.TechKnowledge? || c.OverallFit? || c.AiFeedback? ||
    c.WhatWentWell? || c.AreaToImprove? || c.SpeechPatterns?
  }

  /** Lines 30-42: `any([...])` over the eleven columns. */
  predicate HasAnalysis(m: Meeting) {
    Truthy(m.confidence) || Truthy(m.clarity) || Truthy(m.quesCount) ||
    Truthy(m.correctAnsCount) || Truthy(m.wrongAnsCount) ||
    Truthy(m.techKnowledge) || Truthy(m.overallFit) || Truthy(m.aiFeedback) ||
    Truthy(m.whatWentWell) || Truthy(m.areaToImprove) || Truthy(m.speechPatterns)
  }

  function AnalysisOf(m: Meeting): AnalysisData {
    AnalysisData(m.confidence, m.clarity, m.quesCount, m.correctAnsCount,
      m.wrongAnsCount, m.techKnowledge, m.overallFit, m.aiFeedback,
      m.whatWentWell, m.areaToImprove, m.speechPatterns)
  }

  /** The field of the view that reports column `c`. */
  function Field(a: AnalysisData, c: Column): Option<string>
    requires IsAnalysis(c)
  {
    match c
    case Confidence => a.confidence
    case Clarity => a.clarity
    case QuesCount => a.quesCount
    case CorrectAnsCount => a.correctAnsCount
    case WrongAnsCount => a.wrongAnsCount
    case TechKnowledge => a.techKnowledge
    case OverallFit => a.overallFit
    case AiFeedback => a.aiFeedback
    case WhatWentWell => a.whatWentWell
    case AreaToImprove => a.areaToImprove
    case SpeechPatterns => a.speechPatterns
  }

  /** `get_meeting_analysis`: 404 for an unknown key, checked first; 404
      when no analysis column holds text; otherwise 200 with the view. */
  function GetMeetingAnalysis(rows: map<int, Meeting>, id: int): (r: Response<AnalysisData>)
    ensures id !in rows ==> r == Err(NotFound, MeetingNotFound(id))
    ensures id in rows && !HasAnalysis(rows[id]) ==> r == Err(NotFound, AnalysisNotAvailable(id))
    ensures r.Ok? ==> id in rows && r.status == Success
  {
    match FindIn(rows, id)
    case None => Err(NotFound, MeetingNotFound(id))
    case Some(m) =>
      if !HasAnalysis(m) then Err(NotFound, AnalysisNotAvailable(id))
      else Ok(Success, AnalysisOf(m))
  }

  /** A single analysis column with text is enough. */
  lemma OneFieldSuffices(m: Meeting, c: Column)
    requires IsAnalysis(c) && Truthy(Get(m, c))
    ensures HasAnalysis(m)
  {
  }

  /** An analysis column that holds text, when there is one. */
  lemma FilledColumn(m: Meeting) returns (c: Column)
    requires HasAnalysis(m)
    ensures IsAnalysis(c) && Truthy(Get(m, c))
  {
    if Truthy(m.confidence) { c := Confidence; }
    else if Truthy(m.clarity) { c := Clarity; }
    else if Truthy(m.quesCount) { c := QuesCount; }
    else if Truthy(m.correctAnsCount) { c := CorrectAnsCount; }
    else if Truthy(m.wrongAnsCount) { c := WrongAnsCount; }
    else if Truthy(m.techKnowledge) { c := TechKnowledge; }
    else if Truthy(m.overallFit) { c := OverallFit; }
    else if Truthy(m.aiFeedback) { c := AiFeedback; }
    else if Truthy(m.whatWentWell) { c := WhatWentWell; }
    else if Truthy(m.areaToImprove) { c := AreaToImprove; }
    else { c := SpeechPatterns; }
  }

  /** `any` holds exactly when some analysis column holds non-empty text. */
  lemma HasAnalysisIff(m: Meeting)
    ensures HasAnalysis(m) <==> exists c | IsAnalysis(c) :: Truthy(Get(m, c))
  {
    if HasAnalysis(m) {
      var c := FilledColumn(m);
    }
    if exists c | IsAnalysis(c) :: Truthy(Get(m, c)) {
      var c :| IsAnalysis(c) && Truthy(Get(m, c));
      OneFieldSuffices(m, c);
    }
  }

  /** The analysis is available exactly when the meeting exists and some
      analysis column holds non-empty text. */
  lemma AvailableIff(rows: map<int, Meeting>, id: int)
    ensures GetMeetingAnalysis(rows, id).Ok? <==>
      id in rows && exists c | IsAnalysis(c) :: Truthy(Get(rows[id], c))
  {
    if id in rows {
      HasAnalysisIff(rows[id]);
    }
  }

  /** A successful reply reports every analysis column exactly as stored. */
  lemma AnalysisCopiesColumns(rows: map<int, Meeting>, id: int, c: Column)
    requires GetMeetingAnalysis(rows, id).Ok? && IsAnalysis(c)
    ensures Field(GetMeetingAnalysis(rows, id).body, c) == Get(rows[id], c)
  {
  }

  /** The candidate details, transcript, audio and expected questions play
      no part: two rows that differ only there give the same reply. */
  lemma IgnoresOtherColumns(rows: map<int, Meeting>, id: int, m: Meeting, n: Meeting)
    requires SameExcept(m, n, {JobDesc, Experience, Skills, Audio, Transcript, ExpectedQuestions})
    ensures GetMeetingAnalysis(rows[id := m], id) == GetMeetingAnalysis(rows[id := n], id)
  {
  }

  /** Reading the analysis of one meeting says nothing about, and needs
      nothing from, any other row. */
  lemma OtherRowsIrrelevant(rows: map<int, Meeting>, id: int, other: int, m: Meeting)
    requires other != id
    ensures GetMeetingAnalysis(rows[other := m], id) == GetMeetingAnalysis(rows, id)
  {
  }
}
