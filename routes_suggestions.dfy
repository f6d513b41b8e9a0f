/** The suggestion route: store the transcript of a meeting that has none,
    then ask the generator for suggested questions and store its text. */
module SuggestionRoute {
  import opened Optional
  import opened Responses
  import opened MeetingModel
  import opened MeetingStore

  /** The body of a suggestion request. */
  datatype SuggestionRequest = SuggestionRequest(
    id: int,
    role: string,
    jobDesc: string,
    experience: string,
    skills: string,
    transcript: string)

  /** The table after the route, and its reply. */
  datatype Outcome = Outcome(rows: map<int, Meeting>, reply: Response<string>)

  /** Lines 28-36: the transcript is taken only when the request carries a
      non-empty one and the meeting has none. */
  predicate TranscriptAccepted(m: Meeting, req: SuggestionRequest) {
    req.transcript != [] && !Truthy(m.transcript)
  }

  /** `generate_suggestions` on a table; `generated` is the generator's
      text, or None when it raises.  The transcript is committed before the
      generator runs, so it survives a failed generation. */
  function Suggest(rows: map<int, Meeting>, req: SuggestionRequest, generated: Option<string>): Outcome {
    if req.id !in rows then Outcome(rows, Err(NotFound, MeetingNotFound(req.id)))
    else
      var m := rows[req.id];
      if !TranscriptAccepted(m, req) then Outcome(rows, Err(BadRequest, NoTranscript))
      else
        var withTranscript := m.(transcript := Some(req.transcript));
        match generated
        case None =>
          Outcome(rows[req.id := withTranscript], Err(ServerError, SuggestionFailed))
        case Some(q) =>
          Outcome(rows[req.id := withTranscript.(expectedQuestions := Some(q))], Ok(Success, q))
  }

  /** An unknown meeting gives 404 and changes nothing. */
  lemma UnknownMeeting(rows: map<int, Meeting>, req: SuggestionRequest, generated: Option<string>)
    requires req.id !in rows
    ensures Suggest(rows, req, generated) == Outcome(rows, Err(NotFound, MeetingNotFound(req.id)))
  {
  }

  /** The reply is "No transcript provided" exactly when the meeting exists
      and either it already has a transcript or the request's is empty; the
      table is then unchanged. */
  lemma TranscriptGate(rows: map<int, Meeting>, req: SuggestionRequest, generated: Option<string>)
    ensures Suggest(rows, req, generated).reply == Err(BadRequest, NoTranscript) <==>
      req.id in rows && (Truthy(rows[req.id].transcript) || req.transcript == [])
    ensures Suggest(rows, req, generated).reply == Err(BadRequest, NoTranscript) ==>
      Suggest(rows, req, generated).rows == rows
  {
  }

  /** On success the stored transcript is the request's, the expected
      questions are replaced by the generated text, which is also the reply,
      and nothing else in the table changes. */
  lemma SuccessWrites(rows: map<int, Meeting>, req: SuggestionRequest, q: string)
    requires req.id in rows && TranscriptAccepted(rows[req.id], req)
    ensures var o := Suggest(rows, req, Some(q));
      o.reply == Ok(Success, q) && req.id in o.rows &&
      o.rows.Keys == rows.Keys &&
      o.rows[req.id].transcript == Some(req.transcript) &&
      o.rows[req.id].expectedQuestions == Some(q) &&
      SameExcept(o.rows[req.id], rows[req.id], {Transcript, ExpectedQuestions}) &&
      forall k | k in rows && k != req.id :: o.rows[k] == rows[k]
  {
  }

  /** The previous expected questions play no part in the outcome: they are
      overwritten, not merged. */
  lemma QuestionsOverwritten(rows: map<int, Meeting>, req: SuggestionRequest, q: string, previous: Option<string>)
    requires req.id in rows
    ensures var m := rows[req.id];
      var rows' := rows[req.id := m.(expectedQuestions := previous)];
      TranscriptAccepted(m, req) ==>
        Suggest(rows', req, Some(q)) == Suggest(rows, req, Some(q))
  {
    var m := rows[req.id];
    var rows' := rows[req.id := m.(expectedQuestions := previous)];
    if TranscriptAccepted(m, req) {
      assert rows'[req.id].(transcript := Some(req.transcript)).(expectedQuestions := Some(q)) ==
        m.(transcript := Some(req.transcript)).(expectedQuestions := Some(q));
      assert rows'[req.id := m.(transcript := Some(req.transcript)).(expectedQuestions := Some(q))] ==
        rows[req.id := m.(transcript := Some(req.transcript)).(expectedQuestions := Some(q))];
    }
  }

  /** When generation fails the committed transcript stays, the expected
      questions and every other row are unchanged, no row is added or
      removed, and the reply is 500. */
  lemma FailureKeepsTranscript(rows: map<int, Meeting>, req: SuggestionRequest)
    requires req.id in rows && TranscriptAccepted(rows[req.id], req)
    ensures var o := Suggest(rows, req, None);
      o.reply == Err(ServerError, SuggestionFailed) && req.id in o.rows &&
      o.rows[req.id].transcript == Some(req.transcript) &&
      o.rows[req.id].expectedQuestions == rows[req.id].expectedQuestions &&
      SameExcept(o.rows[req.id], rows[req.id], {Transcript}) &&
      o.rows.Keys == rows.Keys &&
      forall k | k in rows && k != req.id :: o.rows[k] == rows[k]
  {
  }

  /** The route keeps the table well keyed and every row complete. */
  lemma SuggestKeepsTable(rows: map<int, Meeting>, nextId: int, req: SuggestionRequest, generated: Option<string>)
    requires WellKeyed(rows, nextId) && AllHaveCandidateInfo(rows)
    ensures WellKeyed(Suggest(rows, req, generated).rows, nextId)
    ensures AllHaveCandidateInfo(Suggest(rows, req, generated).rows)
  {
  }

  /** The route on the store: look the meeting up, commit the transcript,
      then commit the generated questions. */
  method GenerateSuggestions(db: Store, req: SuggestionRequest, generated: Option<string>)
    returns (r: Response<string>)
    requires db.Valid()
    modifies db
    ensures db.Valid() && db.nextId == old(db.nextId)
    ensures Outcome(db.rows, r) == Suggest(old(db.rows), req, generated)
  {
    var found := db.Find(req.id);
    if found.None? {
      return Err(NotFound, MeetingNotFound(req.id));
    }
    var meeting := found.value;
    if req.transcript != [] && !Truthy(meeting.transcript) {
      meeting := meeting.(transcript := Some(req.transcript));
      db.Write(meeting);
    } else {
      return Err(BadRequest, NoTranscript);
    }
    if generated.None? {
      return Err(ServerError, SuggestionFailed);
    }
    var questions := generated.value;
    meeting := meeting.(expectedQuestions := Some(questions));
    db.Write(meeting);
    r := Ok(Success, questions);
  }
}
