/** The meeting routes: scheduling a meeting, listing all meetings, and
    reading one meeting in full. */
module MeetingRoutes {
  import opened Optional
  import opened Responses
  import opened MeetingModel
  import opened MeetingStore

  /** The body of a create request.  The experience, a string or a number
      in the request, is carried as its text. */
  datatype MeetingCreate = MeetingCreate(
    date: Date,
    time: Time,
    name: string,
    interviewerName: string,
    meetLink: string,
    role: string,
    jobDesc: string,
    experience: string,
    skills: string)

  /** How the commit of a new row ends: it succeeds, the database layer
      raises, or anything else raises. */
  datatype CommitOutcome = Committed | PersistenceError | OtherError

  /** No review column has been filled in: no audio, no transcript and no
      analysis field. */
  predicate Unreviewed(m: Meeting) {
    m.audio.None? && m.transcript.None? &&
    m.confidence.None? && m.clarity.None? && m.quesCount.None? &&
    m.correctAnsCount.None? && m.wrongAnsCount.None? && m.whatWentWell.None? &&
    m.areaToImprove.None? && m.aiFeedback.None? && m.techKnowledge.None? &&
    m.overallFit.None? && m.speechPatterns.None?
  }

  /** The row `create_meeting` builds before it is added, its key not yet
      assigned; `questions` is what the question generator returned.  It is
      scheduled, not review-ready, carries the generated questions (or null
      when the generator gave none), has no review data, and gives back the
      request it was built from. */
  function NewMeeting(req: MeetingCreate, questions: Option<string>): (m: Meeting)
    ensures m.status == Scheduled && !m.isReviewReady
    ensures m.expectedQuestions == questions && Unreviewed(m)
    ensures HasCandidateInfo(m) && RequestOf(m) == Some(req)
  {
    Meeting(0, req.date, req.time, req.name, req.interviewerName, req.meetLink,
      req.role, Some(req.jobDesc), Some(req.experience), Some(req.skills),
      Scheduled, false,
      None, None, questions, None, None, None, None, None, None, None, None,
      None, None, None)
  }

  /** The request a row was created from, when its candidate columns are
      present. */
  function RequestOf(m: Meeting): Option<MeetingCreate> {
    if HasCandidateInfo(m) then
      Some(MeetingCreate(m.date, m.time, m.name, m.interviewerName, m.meetLink,
        m.role, m.jobDesc.value, m.experience.value, m.skills.value))
    else None
  }

  /** The key does not enter into the request a row records. */
  lemma RequestOfIgnoresKey(m: Meeting, id: int)
    ensures RequestOf(m.(id := id)) == RequestOf(m)
  {
  }

  /** `create_meeting`: the row is inserted under a fresh key and 201 is
      returned; a failed commit rolls back, leaves the table as it was, and
      gives 400 for a database error and 500 for any other. */
  method CreateMeeting(db: Store, req: MeetingCreate, questions: Option<string>, commit: CommitOutcome)
    returns (r: Response<()>)
    requires db.Valid()
    modifies db
    ensures db.Valid()
    ensures commit == Committed ==>
      r == Ok(Created, ()) &&
      db.rows == old(db.rows)[old(db.nextId) := NewMeeting(req, questions).(id := old(db.nextId))] &&
      old(db.nextId) !in old(db.rows) &&
      |db.rows| == |old(db.rows)| + 1
    ensures commit == PersistenceError ==> r == Err(BadRequest, CreateFailed) && unchanged(db)
    ensures commit == OtherError ==> r == Err(ServerError, InternalError) && unchanged(db)
  {
    var row := NewMeeting(req, questions);
    match commit
    case Committed =>
      var id := db.Insert(row);
      r := Ok(Created, ());
    case PersistenceError =>
      r := Err(BadRequest, CreateFailed);
    case OtherError =>
      r := Err(ServerError, InternalError);
  }

  // ---------------------------------------------------------------------
  // Listing

  /** One entry of the meeting list: the scheduling columns and the status
      as its string value. */
  datatype ListItem = ListItem(
    id: int,
    date: Date,
    time: Time,
    name: string,
    interviewerName: string,
    meetLink: string,
    status: string,
    role: string)

  /** The list entry of a row: it keeps the key, the schedule and the role,
      and its status string names the stored status. */
  function ListItemOf(m: Meeting): (item: ListItem)
    ensures item.id == m.id && item.date == m.date && item.time == m.time
    ensures item.name == m.name && item.interviewerName == m.interviewerName
    ensures item.meetLink == m.meetLink && item.role == m.role
    ensures StatusFromValue(item.status) == Some(m.status)
  {
    StatusRoundTrip(m.status);
    ListItem(m.id, m.date, m.time, m.name, m.interviewerName, m.meetLink,
      StatusValue(m.status), m.role)
  }

  /** Some element of a non-empty set of keys. */
  method PickKey(s: set<int>) returns (k: int)
    requires s != {}
    ensures k in s
  {
    if forall e :: e !in s {
      assert false;
    }
    k :| k in s;
  }

  /** Every key outside `remaining` is listed in `items`. */
  predicate ListsAllBut(rows: map<int, Meeting>, remaining: set<int>, items: seq<ListItem>) {
    forall k | k in rows && k !in remaining :: exists i | 0 <= i < |items| :: items[i].id == k
  }

  /** Listing the row under `id` adds `id` to the keys covered. */
  lemma ListStep(rows: map<int, Meeting>, remaining: set<int>, items: seq<ListItem>, id: int)
    requires id in rows && rows[id].id == id && ListsAllBut(rows, remaining, items)
    ensures ListsAllBut(rows, remaining - {id}, items + [ListItemOf(rows[id])])
  {
    var next := items + [ListItemOf(rows[id])];
    forall k | k in rows && k !in remaining - {id}
      ensures exists i | 0 <= i < |next| :: next[i].id == k
    {
      if k == id {
        assert next[|items|].id == k;
      } else {
        var i :| 0 <= i < |items| && items[i].id == k;
        assert next[i].id == k;
      }
    }
  }

  /** `get_all_meetings`: one entry per stored row, each the projection of
      its row, no key twice; the rows come in no particular order. */
  method GetAllMeetings(db: Store) returns (r: Response<seq<ListItem>>)
    requires db.Valid()
    ensures r.Ok? && r.status == Success
    ensures |r.body| == |db.rows|
    ensures forall id | id in db.rows :: exists i | 0 <= i < |r.body| :: r.body[i].id == id
    ensures forall i | 0 <= i < |r.body| ::
      r.body[i].id in db.rows && r.body[i] == ListItemOf(db.rows[r.body[i].id])
    ensures forall i, j | 0 <= i < j < |r.body| :: r.body[i].id != r.body[j].id
  {
    var items: seq<ListItem> := [];
    var remaining := db.rows.Keys;
    while remaining != {}
      invariant remaining <= db.rows.Keys
      invariant |items| + |remaining| == |db.rows|
      invariant ListsAllBut(db.rows, remaining, items)
      invariant forall i | 0 <= i < |items| :: items[i].id !in remaining
      invariant forall i | 0 <= i < |items| ::
        items[i].id in db.rows && items[i] == ListItemOf(db.rows[items[i].id])
      invariant forall i, j | 0 <= i < j < |items| :: items[i].id != items[j].id
      decreases |remaining|
    {
      var id := PickKey(remaining);
      ListStep(db.rows, remaining, items, id);
      items := items + [ListItemOf(db.rows[id])];
      remaining := remaining - {id};
    }
    r := Ok(Success, items);
  }

  // ---------------------------------------------------------------------
  // Detail

  /** The full view of one meeting.  The candidate columns are required
      here, and the status is given as its string value. */
  datatype MeetingDetail = MeetingDetail(
    id: int,
    date: Date,
    time: Time,
    name: string,
    interviewerName: string,
    meetLink: string,
    role: string,
    jobDesc: string,
    experience: string,
    skills: string,
    status: string,
    isReviewReady: bool,
    audio: Option<string>,
    transcript: Option<string>,
    expectedQuestions: Option<string>,
    confidence: Option<string>,
    clarity: Option<string>,
    quesCount: Option<string>,
    correctAnsCount: Option<string>,
    wrongAnsCount: Option<string>,
    whatWentWell: Option<string>,
    areaToImprove: Option<string>,
    aiFeedback: Option<string>,
    techKnowledge: Option<string>,
    overallFit: Option<string>,
    speechPatterns: Option<string>)

  /** The stored row a detail view describes, when its status string names
      a status. */
  function MeetingOfDetail(d: MeetingDetail): Option<Meeting> {
    match StatusFromValue(d.status)
    case None => None
    case Some(s) =>
      Some(Meeting(d.id, d.date, d.time, d.name, d.interviewerName, d.meetLink,
        d.role, Some(d.jobDesc), Some(d.experience), Some(d.skills), s,
        d.isReviewReady, d.audio, d.transcript, d.expectedQuestions,
        d.confidence, d.clarity, d.quesCount, d.correctAnsCount,
        d.wrongAnsCount, d.whatWentWell, d.areaToImprove, d.aiFeedback,
        d.techKnowledge, d.overallFit, d.speechPatterns))
  }

  /** The detail view of a row whose candidate columns are present: the
      stored row is recovered from it exactly. */
  function DetailOf(m: Meeting): (d: MeetingDetail)
    requires HasCandidateInfo(m)
    ensures MeetingOfDetail(d) == Some(m)
  {
    StatusRoundTrip(m.status);
    MeetingDetail(m.id, m.date, m.time, m.name, m.interviewerName, m.meetLink,
      m.role, m.jobDesc.value, m.experience.value, m.skills.value,
      StatusValue(m.status), m.isReviewReady, m.audio, m.transcript,
      m.expectedQuestions, m.confidence, m.clarity, m.quesCount,
      m.correctAnsCount, m.wrongAnsCount, m.whatWentWell, m.areaToImprove,
      m.aiFeedback, m.techKnowledge, m.overallFit, m.speechPatterns)
  }

  /** `get_meeting`: 404 for an unknown key; 500 when a candidate column the
      detail view requires is null; otherwise 200 with a view from which
      the stored row is recovered exactly. */
  function GetMeeting(rows: map<int, Meeting>, id: int): (r: Response<MeetingDetail>)
    ensures id !in rows ==> r == Err(NotFound, MeetingNotFound(id))
    ensures id in rows && !HasCandidateInfo(rows[id]) ==> r == Err(ServerError, InternalError)
    ensures id in rows && HasCandidateInfo(rows[id]) ==>
      r.Ok? && r.status == Success && MeetingOfDetail(r.body) == Some(rows[id])
  {
    match FindIn(rows, id)
    case None => Err(NotFound, MeetingNotFound(id))
    case Some(m) =>
      if HasCandidateInfo(m) then Ok(Success, DetailOf(m))
      else Err(ServerError, InternalError)
  }

  /** On a table every row of which was created through this route, reading
      a stored meeting never fails. */
  lemma GetMeetingSucceeds(rows: map<int, Meeting>, id: int)
    requires AllHaveCandidateInfo(rows) && id in rows
    ensures GetMeeting(rows, id).Ok?
  {
  }

  /** Creating a meeting keeps every row complete. */
  lemma CreateKeepsCandidateInfo(rows: map<int, Meeting>, id: int, req: MeetingCreate, questions: Option<string>)
    requires AllHaveCandidateInfo(rows)
    ensures AllHaveCandidateInfo(rows[id := NewMeeting(req, questions).(id := id)])
  {
  }

  /** The entry of a meeting in the list agrees with its detail view. */
  lemma ListAgreesWithDetail(rows: map<int, Meeting>, id: int)
    requires id in rows && HasCandidateInfo(rows[id])
    ensures var d := GetMeeting(rows, id).body;
      ListItemOf(rows[id]) ==
        ListItem(d.id, d.date, d.time, d.name, d.interviewerName, d.meetLink, d.status, d.role)
  {
  }
}
