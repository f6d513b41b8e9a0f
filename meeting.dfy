/** The meeting record: its status enumeration, its columns and their
    defaults, and attribute access by column name as `hasattr`, `getattr`
    and `setattr` perform it. */
module MeetingModel {
  import opened Optional

  /** The four states of a meeting, with their stored string values. */
  datatype MeetingStatus = Scheduled | InProgress | Completed | Cancelled

  function StatusValue(s: MeetingStatus): string {
    match s
    case Scheduled => "Scheduled"
    case InProgress => "In Progress"
    case Completed => "Completed"
    case Cancelled => "Cancelled"
  }

  /** The status whose value is `v`, if any: `MeetingStatus(v)`. */
  function StatusFromValue(v: string): (s: Option<MeetingStatus>)
    ensures s.Some? ==> StatusValue(s.value) == v
  {
    if v == "Scheduled" then Some(Scheduled)
    else if v == "In Progress" then Some(InProgress)
    else if v == "Completed" then Some(Completed)
    else if v == "Cancelled" then Some(Cancelled)
    else None
  }

  /** Each status is recovered from its value, so values are distinct. */
  lemma StatusRoundTrip(s: MeetingStatus)
    ensures StatusFromValue(StatusValue(s)) == Some(s)
  {
  }

  datatype Date = Date(year: int, month: int, day: int)
  datatype Time = Time(hour: int, minute: int, second: int)

  /** One row of the meetings table.  The six scheduling columns are always
      present; the candidate columns and every review column may be null.
      Scores and counts are stored as text. */
  datatype Meeting = Meeting(
    id: int,
    date: Date,
    time: Time,
    name: string,
    interviewerName: string,
    meetLink: string,
    role: string,
    jobDesc: Option<string>,
    experience: Option<string>,
    skills: Option<string>,
    status: MeetingStatus,
    isReviewReady: bool,
    audio: Option<string>,
    transcript: Option<string>,
    expectedQuestions: Option<string>,
    confidence: Option<string>,
    clarity: Option<string>,
    quesCount: Option<string>,
    correctAnsCount: Option<string>,
    wrongAnsCount: Option<string>,
    whatWentWell: Option<string>,
    areaToImprove: Option<string>,
    aiFeedback: Option<string>,
    techKnowledge: Option<string>,
    overallFit: Option<string>,
    speechPatterns: Option<string>)

  /** Python truthiness of a nullable text column: neither null nor empty. */
  predicate Truthy(o: Option<string>) {
    o.Some? && o.value != []
  }

  /** The columns of the table, as attribute names. */
  datatype Column =
    | Id | DateCol | TimeCol | Name | InterviewerName | MeetLink | Role
    | JobDesc | Experience | Skills | Status | IsReviewReady
    | Audio | Transcript | ExpectedQuestions | Confidence | Clarity
    | QuesCount | CorrectAnsCount | WrongAnsCount | WhatWentWell
    | AreaToImprove | AiFeedback | TechKnowledge | OverallFit | SpeechPatterns

  function ColumnName(c: Column): string {
    match c
    case Id => "id"
    case DateCol => "date"
    case TimeCol => "time"
    case Name => "name"
    case InterviewerName => "interviewer_name"
    case MeetLink => "meet_link"
    case Role => "role"
    case JobDesc => "job_desc"
    case Experience => "experience"
    case Skills => "skills"
    case Status => "status"
    case IsReviewReady => "is_review_ready"
    case Audio => "audio"
    case Transcript => "transcript"
    case ExpectedQuestions => "expected_questions"
    case Confidence => "confidence"
    case Clarity => "clarity"
    case QuesCount => "ques_count"
    case CorrectAnsCount => "correct_ans_count"
    case WrongAnsCount => "wrong_ans_count"
    case WhatWentWell => "what_went_well"
    case AreaToImprove => "area_to_improve"
    case AiFeedback => "ai_feedback"
    case TechKnowledge => "tech_knowledge"
    case OverallFit => "overall_fit"
    case SpeechPatterns => "speech_patterns"
  }

  /** The number of columns. */
  const ColumnCount := 26

  /** The columns in the order the model declares them, which is the
      lookup order of an attribute name. */
  function ColumnAt(n: nat): Column
    requires n < ColumnCount
  {
    if n == 0 then Id
    else if n == 1 then DateCol
    else if n == 2 then TimeCol
    else if n == 3 then Name
    else if n == 4 then InterviewerName
    else if n == 5 then MeetLink
    else if n == 6 then Role
    else if n == 7 then JobDesc
    else if n == 8 then Experience
    else if n == 9 then Skills
    else if n == 10 then Status
    else if n == 11 then IsReviewReady
    else if n == 12 then Audio
    else if n == 13 then Transcript
    else if n == 14 then ExpectedQuestions
    else if n == 15 then Confidence
    else if n == 16 then Clarity
    else if n == 17 then QuesCount
    else if n == 18 then CorrectAnsCount
    else if n == 19 then WrongAnsCount
    else if n == 20 then WhatWentWell
    else if n == 21 then AreaToImprove
    else if n == 22 then AiFeedback
    else if n == 23 then TechKnowledge
    else if n == 24 then OverallFit
    else SpeechPatterns
  }

  /** The first column from position `n` on whose name is `key`. */
  function ColumnFrom(key: string, n: nat): Option<Column>
    decreases ColumnCount - n
  {
    if n >= ColumnCount then None
    else if key == ColumnName(ColumnAt(n)) then Some(ColumnAt(n))
    else ColumnFrom(key, n + 1)
  }

  /** One step of the lookup: the column at position `n` is taken when
      its name is `key`, and the lookup goes on past it otherwise. */
  lemma ColumnFromStep(key: string, n: nat, c: Column)
    requires n < ColumnCount && c == ColumnAt(n)
    ensures key == ColumnName(c) ==> ColumnFrom(key, n) == Some(c)
    ensures key != ColumnName(c) ==> ColumnFrom(key, n) == ColumnFrom(key, n + 1)
  {
  }

  /** A column the lookup returns carries the name looked up. */
  lemma {:induction false} ColumnFromSound(key: string, n: nat)
    ensures ColumnFrom(key, n).Some? ==> key == ColumnName(ColumnFrom(key, n).value)
    decreases ColumnCount - n
  {
    if n < ColumnCount {
      var c := ColumnAt(n);
      ColumnFromStep(key, n, c);
      if key != ColumnName(c) {
        ColumnFromSound(key, n + 1);
      }
    }
  }

  /** Distinct columns have distinct names. */
  lemma ColumnNameInjective(c: Column, d: Column)
    requires ColumnName(c) == ColumnName(d)
    ensures c == d
  {
  }

  /** The position of a column in the lookup order. */
  function ColumnIndex(c: Column): (n: nat)
    ensures n < ColumnCount && ColumnAt(n) == c
  {
    match c
    case Id => 0
    case DateCol => 1
    case TimeCol => 2
    case Name => 3
    case InterviewerName => 4
    case MeetLink => 5
    case Role => 6
    case JobDesc => 7
    case Experience => 8
    case Skills => 9
    case Status => 10
    case IsReviewReady => 11
    case Audio => 12
    case Transcript => 13
    case ExpectedQuestions => 14
    case Confidence => 15
    case Clarity => 16
    case QuesCount => 17
    case CorrectAnsCount => 18
    case WrongAnsCount => 19
    case WhatWentWell => 20
    case AreaToImprove => 21
    case AiFeedback => 22
    case TechKnowledge => 23
    case OverallFit => 24
    case SpeechPatterns => 25
  }

  /** A lookup of a column's name that starts at or before the column's
      position finds that column. */
  lemma {:induction false} ColumnFromReaches(c: Column, n: nat)
    requires n <= ColumnIndex(c)
    ensures ColumnFrom(ColumnName(c), n) == Some(c)
    decreases ColumnIndex(c) - n
  {
    var d := ColumnAt(n);
    ColumnFromStep(ColumnName(c), n, d);
    if ColumnName(c) == ColumnName(d) {
      ColumnNameInjective(c, d);
    } else {
      ColumnFromReaches(c, n + 1);
    }
  }

  /** The column an attribute name denotes; `hasattr(meeting, key)` holds
      exactly when there is one, and it is the column of that name. */
  function ColumnNamed(key: string): (r: Option<Column>)
    ensures r.Some? ==> key == ColumnName(r.value)
  {
    ColumnFromSound(key, 0);
    ColumnFrom(key, 0)
  }

  /** Every column is found under its own name, so `hasattr` holds for
      every column name. */
  lemma ColumnNamedComplete(c: Column)
    ensures ColumnNamed(ColumnName(c)) == Some(c)
  {
    ColumnFromReaches(c, 0);
  }

  predicate HasAttr(key: string) {
    ColumnNamed(key).Some?
  }

  /** The nullable text columns: those `getattr`/`setattr` read and write
      as optional strings. */
  predicate IsText(c: Column) {
    !(c.Id? || c.DateCol? || c.TimeCol? || c.Name? || c.InterviewerName? ||
      c.MeetLink? || c.Role? || c.Status? || c.IsReviewReady?)
  }

  /** `getattr(meeting, name)` on a nullable text column. */
  function Get(m: Meeting, c: Column): Option<string>
    requires IsText(c)
  {
    match c
    case JobDesc => m.jobDesc
    case Experience => m.experience
    case Skills => m.skills
    case Audio => m.audio
    case Transcript => m.transcript
    case ExpectedQuestions => m.expectedQuestions
    case Confidence => m.confidence
    case Clarity => m.clarity
    case QuesCount => m.quesCount
    case CorrectAnsCount => m.correctAnsCount
    case WrongAnsCount => m.wrongAnsCount
    case WhatWentWell => m.whatWentWell
    case AreaToImprove => m.areaToImprove
    case AiFeedback => m.aiFeedback
    case TechKnowledge => m.techKnowledge
    case OverallFit => m.overallFit
    case SpeechPatterns => m.speechPatterns
  }

  /** The ready flag is not a text column: setting it changes no read. */
  lemma GetIgnoresReady(m: Meeting, c: Column, ready: bool)
    requires IsText(c)
    ensures Get(m.(isReviewReady := ready), c) == Get(m, c)
  {
  }

  /** The columns no route writes through `setattr`: key, schedule, status
      and readiness. */
  predicate SameFixed(m: Meeting, n: Meeting) {
    m.id == n.id && m.date == n.date && m.time == n.time && m.name == n.name &&
    m.interviewerName == n.interviewerName && m.meetLink == n.meetLink &&
    m.role == n.role && m.status == n.status && m.isReviewReady == n.isReviewReady
  }

  /** `m` and `n` agree on every column outside `changed`. */
  predicate SameExcept(m: Meeting, n: Meeting, changed: set<Column>) {
    SameFixed(m, n) &&
    (JobDesc in changed || m.jobDesc == n.jobDesc) &&
    (Experience in changed || m.experience == n.experience) &&
    (Skills in changed || m.skills == n.skills) &&
    (Audio in changed || m.audio == n.audio) &&
    (Transcript in changed || m.transcript == n.transcript) &&
    (ExpectedQuestions in changed || m.expectedQuestions == n.expectedQuestions) &&
    (Confidence in changed || m.confidence == n.confidence) &&
    (Clarity in changed || m.clarity == n.clarity) &&
    (QuesCount in changed || m.quesCount == n.quesCount) &&
    (CorrectAnsCount in changed || m.correctAnsCount == n.correctAnsCount) &&
    (WrongAnsCount in changed || m.wrongAnsCount == n.wrongAnsCount) &&
    (WhatWentWell in changed || m.whatWentWell == n.whatWentWell) &&
    (AreaToImprove in changed || m.areaToImprove == n.areaToImprove) &&
    (AiFeedback in changed || m.aiFeedback == n.aiFeedback) &&
    (TechKnowledge in changed || m.techKnowledge == n.techKnowledge) &&
    (OverallFit in changed || m.overallFit == n.overallFit) &&
    (SpeechPatterns in changed || m.speechPatterns == n.speechPatterns)
  }

  /** A text column outside `changed` reads the same in both records. */
  lemma SameExceptGet(m: Meeting, n: Meeting, changed: set<Column>, d: Column)
    requires SameExcept(m, n, changed) && IsText(d) && d !in changed
    ensures Get(m, d) == Get(n, d)
  {
  }

  /** Agreement composes: what two steps leave alone, both leave alone. */
  lemma SameExceptTrans(a: Meeting, b: Meeting, c: Meeting, cs: set<Column>, ds: set<Column>)
    requires SameExcept(a, b, cs) && SameExcept(b, c, ds)
    ensures SameExcept(a, c, cs + ds)
  {
  }

  /** Agreement outside fewer columns is agreement outside more. */
  lemma SameExceptMono(m: Meeting, n: Meeting, cs: set<Column>, ds: set<Column>)
    requires SameExcept(m, n, cs) && cs <= ds
    ensures SameExcept(m, n, ds)
  {
  }

  /** Agreement outside no column at all is equality. */
  lemma SameExceptNothing(m: Meeting, n: Meeting)
    requires SameExcept(m, n, {})
    ensures m == n
  {
  }

  /** `setattr(meeting, name, v)` on a nullable text column: the column
      written reads back the value, and no other column changes. */
  function Set(m: Meeting, c: Column, v: Option<string>): (r: Meeting)
    requires IsText(c)
    ensures Get(r, c) == v
    ensures SameExcept(r, m, {c})
  {
    match c
    case JobDesc => m.(jobDesc := v)
    case Experience => m.(experience := v)
    case Skills => m.(skills := v)
    case Audio => m.(audio := v)
    case Transcript => m.(transcript := v)
    case ExpectedQuestions => m.(expectedQuestions := v)
    case Confidence => m.(confidence := v)
    case Clarity => m.(clarity := v)
    case QuesCount => m.(quesCount := v)
    case CorrectAnsCount => m.(correctAnsCount := v)
    case WrongAnsCount => m.(wrongAnsCount := v)
    case WhatWentWell => m.(whatWentWell := v)
    case AreaToImprove => m.(areaToImprove := v)
    case AiFeedback => m.(aiFeedback := v)
    case TechKnowledge => m.(techKnowledge := v)
    case OverallFit => m.(overallFit := v)
    case SpeechPatterns => m.(speechPatterns := v)
  }

  /** Writing back the value a column already holds changes nothing. */
  lemma SetUnchanged(m: Meeting, c: Column)
    requires IsText(c)
    ensures Set(m, c, Get(m, c)) == m
  {
    var r := Set(m, c, Get(m, c));
    assert SameExcept(r, m, {});
  }

  /** The candidate columns that the detail view requires to be present;
      every meeting the create route stores has them. */
  predicate HasCandidateInfo(m: Meeting) {
    m.jobDesc.Some? && m.experience.Some? && m.skills.Some?
  }
}
