/** The token-gated session protocol of app/server.py: token lookup, question
    delivery in ascending id order, answer submission with its completion rule,
    the voice-reading switch, the info lookup, and the staff operations that
    issue tokens and delete interviews. */
module Server {
  import opened Util
  import opened Json
  import opened Schema

  const FinishedText: string := "面试已完成"
  const InvalidInterviewText: string := "面试无效"
  const NotFoundText: string := "面试不存在"
  const MissingParametersText: string := "缺少必要参数"
  const AnswerStoredText: string := "答案已提交"

  // ---------------------------------------------------------------------------
  // Tokens

  predicate IsTokenChar(c: char)
  {
    'a' <= c <= 'z' || 'A' <= c <= 'Z' || '0' <= c <= '9'
  }

  /** What `generate_token()` returns: 32 characters drawn from ASCII letters and digits. */
  predicate IsToken(t: string)
  {
    |t| == 32 && forall i | 0 <= i < |t| :: IsTokenChar(t[i])
  }

  /** `SELECT id FROM interviews WHERE token = ?` and `fetchone()`: the first row of
      the scan, that is the smallest id holding the token. */
  function LookupToken(interviews: map<int, Interview>, token: string): (r: Option<int>)
    ensures r.None? <==> forall k | k in interviews :: interviews[k].token != token
    ensures r.Some? ==> r.value in interviews && interviews[r.value].token == token
    ensures r.Some? ==> forall k | k in interviews && interviews[k].token == token :: r.value <= k
  {
    var ids := set k | k in interviews && interviews[k].token == token;
    assert forall k | k in interviews && interviews[k].token == token :: k in ids;
    if ids == {} then None else Some(MinOf(ids))
  }

  /** Two interview tables that agree on which ids exist and on every token
      resolve every token alike. */
  lemma {:induction false} LookupTokenDependsOnTokensOnly(a: map<int, Interview>, b: map<int, Interview>, token: string)
    requires a.Keys == b.Keys
    requires forall k | k in a :: a[k].token == b[k].token
    ensures LookupToken(a, token) == LookupToken(b, token)
  {
    var sa := set k | k in a && a[k].token == token;
    var sb := set k | k in b && b[k].token == token;
    assert forall k :: k in sa <==> k in sb;
    assert sa == sb;
  }

  // ---------------------------------------------------------------------------
  // Question delivery

  /** A question the cursor may move to: it belongs to the interview and, unless
      the cursor is 0 (start), its id is above the cursor. */
  predicate Eligible(qs: map<int, Question>, iid: int, cursor: int, k: int)
  {
    k in qs && qs[k].interviewId == iid && (cursor == 0 || k > cursor)
  }

  /** `SELECT id, question FROM interview_questions WHERE interview_id = ? AND id > ?
      ORDER BY id ASC LIMIT 1`. */
  function NextQuestion(qs: map<int, Question>, iid: int, after: int): (r: Option<int>)
    ensures r.Some? ==> r.value in qs && qs[r.value].interviewId == iid && r.value > after
    ensures r.Some? ==> forall k | k in qs && qs[k].interviewId == iid && k > after :: r.value <= k
    ensures r.None? <==> forall k | k in qs && qs[k].interviewId == iid :: k <= after
  {
    var ids := set k | k in qs && qs[k].interviewId == iid && k > after;
    assert forall k | k in qs && qs[k].interviewId == iid && k > after :: k in ids;
    if ids == {} then None else Some(MinOf(ids))
  }

  /** `SELECT id, question FROM interview_questions WHERE interview_id = ?
      ORDER BY id ASC LIMIT 1`. */
  function FirstQuestion(qs: map<int, Question>, iid: int): (r: Option<int>)
    ensures r.Some? ==> r.value in qs && qs[r.value].interviewId == iid
    ensures r.Some? ==> forall k | k in qs && qs[k].interviewId == iid :: r.value <= k
    ensures r.None? <==> forall k | k in qs :: qs[k].interviewId != iid
  {
    var ids := QuestionIdsOf(qs, iid);
    assert forall k | k in qs && qs[k].interviewId == iid :: k in ids;
    if ids == {} then None else Some(MinOf(ids))
  }

  /** The reply of get_question: a question, the "interview finished" sentinel, or
      the "invalid interview" sentinel. */
  datatype QuestionReply = Ask(id: int, text: string) | NoMoreQuestions | UnknownInterview
  {
    function HttpStatus(): int
    {
      if UnknownInterview? then 404 else 200
    }

    /** The JSON body `{"id": ..., "text": ...}`. */
    function Body(): (int, string)
    {
      match this
      case Ask(id, text) => (id, text)
      case NoMoreQuestions => (0, FinishedText)
      case UnknownInterview => (0, InvalidInterviewText)
    }
  }

  /** Turns a selected row (or none) into the reply. */
  function Present(qs: map<int, Question>, selected: Option<int>): QuestionReply
    requires selected.Some? ==> selected.value in qs
  {
    match selected
    case None => NoMoreQuestions
    case Some(k) => Ask(k, qs[k].text)
  }

  /** What a reply must be for an interview and a cursor: the lowest eligible
      question, or the sentinel exactly when there is none. */
  ghost predicate Serves(qs: map<int, Question>, iid: int, cursor: int, r: QuestionReply)
  {
    && !r.UnknownInterview?
    && (r.Ask? ==> Eligible(qs, iid, cursor, r.id) && r.text == qs[r.id].text)
    && (r.Ask? ==> forall k | Eligible(qs, iid, cursor, k) :: r.id <= k)
    && (r.NoMoreQuestions? <==> forall k | k in qs :: !Eligible(qs, iid, cursor, k))
  }

  /** get_next_question: cursor 0 asks for the first question of the interview,
      any other cursor for the lowest id above it. */
  function GetQuestion(db: Db, token: string, cursor: int): (r: QuestionReply)
    ensures LookupToken(db.interviews, token).None? ==> r == UnknownInterview
    ensures r.HttpStatus() == 404 <==> LookupToken(db.interviews, token).None?
    ensures r.HttpStatus() == 404 ==> r.Body() == (0, InvalidInterviewText)
    ensures LookupToken(db.interviews, token).Some? ==>
              Serves(db.questions, LookupToken(db.interviews, token).value, cursor, r)
  {
    match LookupToken(db.interviews, token)
    case None => UnknownInterview
    case Some(iid) =>
      if cursor == 0 then Present(db.questions, FirstQuestion(db.questions, iid))
      else Present(db.questions, NextQuestion(db.questions, iid, cursor))
  }

  /** Because ids start at 1, the `id > 0` query that submit_answer runs for
      question id 0 selects the same row as the first-question query. */
  lemma {:induction false} ZeroCursorIsFirstQuestion(qs: map<int, Question>, iid: int)
    requires forall k | k in qs :: k >= 1
    ensures NextQuestion(qs, iid, 0) == FirstQuestion(qs, iid)
  {
    var above := set k | k in qs && qs[k].interviewId == iid && k > 0;
    assert above == QuestionIdsOf(qs, iid);
  }

  // ---------------------------------------------------------------------------
  // Answer submission

  /** `UPDATE interview_questions SET answer_audio = ?, answer_text = ?,
      answered_at = ? WHERE id = ? AND interview_id = ?`. */
  function RecordAnswer(qs: map<int, Question>, iid: int, qid: int, audio: Bytes, text: string, now: int)
    : (r: map<int, Question>)
    ensures r.Keys == qs.Keys
    ensures forall k | k in qs && k != qid :: r[k] == qs[k]
    ensures qid in qs && qs[qid].interviewId == iid ==>
              && r[qid].answerAudio == Some(audio)
              && r[qid].answerText == Some(text)
              && r[qid].answeredAt == Some(now)
              && r[qid].(answerAudio := qs[qid].answerAudio, answerText := qs[qid].answerText,
                         answeredAt := qs[qid].answeredAt) == qs[qid]
    ensures !(qid in qs && qs[qid].interviewId == iid) ==> r == qs
    ensures forall k | k in qs :: r[k].interviewId == qs[k].interviewId
  {
    if qid in qs && qs[qid].interviewId == iid then
      qs[qid := qs[qid].(answerAudio := Some(audio), answerText := Some(text), answeredAt := Some(now))]
    else qs
  }

  function AnsweredIdsOf(qs: map<int, Question>, iid: int): set<int>
  {
    set k | k in qs && qs[k].interviewId == iid && qs[k].answeredAt.Some?
  }

  /** `SELECT COUNT(*) AS total, SUM(CASE WHEN answered_at IS NOT NULL THEN 1 ELSE 0
      END) AS answered ... WHERE interview_id = ?`; SUM over no rows is NULL. */
  function AnswerTally(qs: map<int, Question>, iid: int): (nat, Option<nat>)
  {
    var total := |QuestionIdsOf(qs, iid)|;
    (total, if total == 0 then None else Some(|AnsweredIdsOf(qs, iid)|))
  }

  /** `all_answered['total'] == all_answered['answered']`. */
  predicate TallyMatches(qs: map<int, Question>, iid: int)
  {
    var (total, answered) := AnswerTally(qs, iid);
    answered == Some(total)
  }

  /** The tally check holds exactly when the interview has at least one question
      and every one of them is answered. */
  lemma {:induction false} TallyMatchesMeansAllAnswered(qs: map<int, Question>, iid: int)
    ensures TallyMatches(qs, iid) <==>
              && QuestionIdsOf(qs, iid) != {}
              && forall k | k in QuestionIdsOf(qs, iid) :: qs[k].answeredAt.Some?
  {
    var all, done := QuestionIdsOf(qs, iid), AnsweredIdsOf(qs, iid);
    assert done <= all;
    if forall k | k in all :: qs[k].answeredAt.Some? {
      assert done == all;
    }
    if TallyMatches(qs, iid) {
      SubsetOfSameSizeIsEqual(done, all);
      forall k | k in all ensures qs[k].answeredAt.Some? { assert k in done; }
    }
  }

  /** The interview is set to status 3 when no later question exists and the tally matches. */
  predicate CompletionFires(qs: map<int, Question>, iid: int, qid: int)
  {
    NextQuestion(qs, iid, qid).None? && TallyMatches(qs, iid)
  }

  /** The completion rule, in terms of the rows: every question of the interview has
      an id at most the submitted one, there is at least one question, and all are
      answered. So an earlier unanswered question blocks completion, an interview
      with no questions never completes, and a last answer given to a question that
      has a later one does not complete the interview either. */
  lemma {:induction false} CompletionRule(qs: map<int, Question>, iid: int, qid: int)
    ensures CompletionFires(qs, iid, qid) <==>
              && (forall k | k in QuestionIdsOf(qs, iid) :: k <= qid)
              && QuestionIdsOf(qs, iid) != {}
              && (forall k | k in QuestionIdsOf(qs, iid) :: qs[k].answeredAt.Some?)
  {
    TallyMatchesMeansAllAnswered(qs, iid);
  }

  /** The store after a submission that passed the token and parameter checks:
      the answer is written, then the completion rule may set status 3. */
  function AfterSubmit(db: Db, iid: int, qid: int, audio: Bytes, text: string, now: int): (d: Db)
    requires iid in db.interviews
    ensures WellFormed(db) ==> WellFormed(d)
    ensures d.positions == db.positions && d.candidates == db.candidates
    ensures d.nextInterviewId == db.nextInterviewId && d.nextQuestionId == db.nextQuestionId
    ensures d.questions == RecordAnswer(db.questions, iid, qid, audio, text, now)
    ensures d.interviews.Keys == db.interviews.Keys
    ensures forall k | k in db.interviews && k != iid :: d.interviews[k] == db.interviews[k]
    ensures d.interviews[iid].(status := db.interviews[iid].status) == db.interviews[iid]
    ensures d.interviews[iid].status ==
              if CompletionFires(d.questions, iid, qid) then Completed else db.interviews[iid].status
  {
    var qs := RecordAnswer(db.questions, iid, qid, audio, text, now);
    var interviews :=
      if CompletionFires(qs, iid, qid) then db.interviews[iid := db.interviews[iid].(status := Completed)]
      else db.interviews;
    db.(questions := qs, interviews := interviews)
  }

  /** The reply of submit_answer. */
  datatype SubmitReply = Submitted(next: QuestionReply) | SubmitUnknownInterview | MissingParameters
  {
    function HttpStatus(): int
    {
      match this
      case Submitted(_) => 200
      case SubmitUnknownInterview => 404
      case MissingParameters => 400
    }

    function Message(): string
    {
      match this
      case Submitted(_) => AnswerStoredText
      case SubmitUnknownInterview => NotFoundText
      case MissingParameters => MissingParametersText
    }
  }

  /** submit_answer. `questionId` is None when the form field is missing or empty,
      `audio` when no file was sent; `transcribe` is the speech model. */
  method SubmitAnswer(db: Database, token: string, questionId: Option<int>, audio: Option<Bytes>,
                      transcribe: Bytes -> string, now: int)
    returns (reply: SubmitReply)
    requires db.Valid()
    modifies db
    ensures db.Valid()
    ensures LookupToken(old(db.interviews), token).None? ==>
              reply == SubmitUnknownInterview && db.Snapshot() == old(db.Snapshot())
    ensures LookupToken(old(db.interviews), token).Some? && (questionId.None? || audio.None?) ==>
              reply == MissingParameters && db.Snapshot() == old(db.Snapshot())
    ensures LookupToken(old(db.interviews), token).Some? && questionId.Some? && audio.Some? ==>
              var iid := LookupToken(old(db.interviews), token).value;
              && db.Snapshot() == AfterSubmit(old(db.Snapshot()), iid, questionId.value, audio.value,
                                              transcribe(audio.value), now)
              && reply == Submitted(Present(db.questions, NextQuestion(db.questions, iid, questionId.value)))
    ensures reply.HttpStatus() == 200 <==> LookupToken(old(db.interviews), token).Some? && questionId.Some? && audio.Some?
    ensures reply.Message() == AnswerStoredText <==> reply.HttpStatus() == 200
  {
    var found := LookupToken(db.interviews, token);
    if found.None? {
      return SubmitUnknownInterview;
    }
    var iid := found.value;
    if questionId.None? || audio.None? {
      return MissingParameters;
    }
    var qid, data := questionId.value, audio.value;
    var text := transcribe(data);
    db.questions := RecordAnswer(db.questions, iid, qid, data, text, now);
    var next := NextQuestion(db.questions, iid, qid);
    if next.None? {
      if TallyMatches(db.questions, iid) {
        db.interviews := db.interviews[iid := db.interviews[iid].(status := Completed)];
      }
      reply := Submitted(NoMoreQuestions);
    } else {
      reply := Submitted(Ask(next.value, db.questions[next.value].text));
    }
  }

  /** The `next_question` that submit_answer returns is what get_question returns,
      on the updated store, with the submitted question id as the cursor. */
  lemma {:induction false} SubmitReplyAgreesWithGetQuestion(
    db: Db, token: string, iid: int, qid: int, audio: Bytes, text: string, now: int)
    requires WellFormed(db)
    requires LookupToken(db.interviews, token) == Some(iid)
    ensures var d := AfterSubmit(db, iid, qid, audio, text, now);
            GetQuestion(d, token, qid) == Present(d.questions, NextQuestion(d.questions, iid, qid))
  {
    var d := AfterSubmit(db, iid, qid, audio, text, now);
    LookupTokenDependsOnTokensOnly(d.interviews, db.interviews, token);
    if qid == 0 {
      ZeroCursorIsFirstQuestion(d.questions, iid);
    }
  }

  /** Recording an answer writes the answer text and the answer time together, so
      a question never has one without the other. */
  lemma {:induction false} RecordAnswerKeepsAnsweredTogether(
    qs: map<int, Question>, iid: int, qid: int, audio: Bytes, text: string, now: int)
    requires AnsweredTogether(qs)
    ensures AnsweredTogether(RecordAnswer(qs, iid, qid, audio, text, now))
  {
    var r := RecordAnswer(qs, iid, qid, audio, text, now);
    forall k | k in r ensures r[k].answeredAt.Some? <==> r[k].answerText.Some? {
      assert k in qs;
    }
  }

  /** Recording an answer never moves a question to another interview. */
  lemma {:induction false} RecordAnswerKeepsQuestionIds(
    qs: map<int, Question>, iid: int, qid: int, audio: Bytes, text: string, now: int, other: int)
    ensures QuestionIdsOf(RecordAnswer(qs, iid, qid, audio, text, now), other) == QuestionIdsOf(qs, other)
  {
    var r := RecordAnswer(qs, iid, qid, audio, text, now);
    assert forall k | k in QuestionIdsOf(r, other) :: k in QuestionIdsOf(qs, other);
    assert forall k | k in QuestionIdsOf(qs, other) :: k in QuestionIdsOf(r, other);
  }

  /** Answering the last question of an interview whose other questions are all
      answered completes it, whatever its status was. */
  lemma {:induction false} AnsweringLastCompletes(
    db: Db, iid: int, qid: int, audio: Bytes, text: string, now: int)
    requires iid in db.interviews
    requires qid in QuestionIdsOf(db.questions, iid)
    requires forall k | k in QuestionIdsOf(db.questions, iid) :: k <= qid
    requires forall k | k in QuestionIdsOf(db.questions, iid) && k != qid :: db.questions[k].answeredAt.Some?
    ensures var d := AfterSubmit(db, iid, qid, audio, text, now);
            && d.interviews[iid].status == Completed
            && NextQuestion(d.questions, iid, qid).None?
  {
    var d := AfterSubmit(db, iid, qid, audio, text, now);
    RecordAnswerKeepsQuestionIds(db.questions, iid, qid, audio, text, now, iid);
    CompletionRule(d.questions, iid, qid);
  }

  /** Answering a question that has a later one leaves the status alone and serves
      a later question next, even when every question is now answered. */
  lemma {:induction false} AnsweringEarlierKeepsStatus(
    db: Db, iid: int, qid: int, later: int, audio: Bytes, text: string, now: int)
    requires iid in db.interviews
    requires later in QuestionIdsOf(db.questions, iid) && later > qid
    ensures var d := AfterSubmit(db, iid, qid, audio, text, now);
            && d.interviews[iid].status == db.interviews[iid].status
            && NextQuestion(d.questions, iid, qid).Some?
            && NextQuestion(d.questions, iid, qid).value <= later
  {
    var d := AfterSubmit(db, iid, qid, audio, text, now);
    RecordAnswerKeepsQuestionIds(db.questions, iid, qid, audio, text, now, iid);
    assert later in QuestionIdsOf(d.questions, iid);
  }

  // ---------------------------------------------------------------------------
  // Voice reading

  /** Python truthiness of a JSON value. */
  predicate Truthy(v: Json)
    ensures !Truthy(v) <==>
              v == JNull || v == JBool(false) || v == JInt(0) || v == JStr("") || v == JArray([]) || v == JObject([])
  {
    match v
    case JNull => false
    case JBool(b) => b
    case JInt(i) => i != 0
    case JStr(s) => s != ""
    case JArray(items) => items != []
    case JObject(ms) => ms != []
  }

  /** `UPDATE interviews SET voice_reading = ? WHERE token = ?`: every row holding
      the token, and nothing else. */
  function SetVoiceReading(interviews: map<int, Interview>, token: string, enabled: bool)
    : (r: map<int, Interview>)
    ensures r.Keys == interviews.Keys
    ensures forall k | k in interviews :: r[k].(voiceReading := interviews[k].voiceReading) == interviews[k]
    ensures forall k | k in interviews :: r[k].voiceReading ==
              if interviews[k].token == token then Some(if enabled then 1 else 0) else interviews[k].voiceReading
  {
    map k | k in interviews ::
      if interviews[k].token == token then interviews[k].(voiceReading := Some(if enabled then 1 else 0))
      else interviews[k]
  }

  /** Switching twice to the same setting is switching once. */
  lemma {:induction false} SetVoiceReadingIdempotent(interviews: map<int, Interview>, token: string, enabled: bool)
    ensures SetVoiceReading(SetVoiceReading(interviews, token, enabled), token, enabled)
            == SetVoiceReading(interviews, token, enabled)
  {
    var once := SetVoiceReading(interviews, token, enabled);
    var twice := SetVoiceReading(once, token, enabled);
    assert forall k | k in once :: twice[k] == once[k];
  }

  /** toggle_voice_reading. `enabled` is the request's `enabled` member, None when
      absent. The reply echoes the value as sent; it reports success whether or
      not the token matched a row. */
  method ToggleVoiceReading(db: Database, token: string, enabled: Option<Json>) returns (echoed: Json)
    requires db.Valid()
    modifies db
    ensures db.Valid()
    ensures echoed == enabled.GetOr(JBool(false))
    ensures db.Snapshot() == old(db.Snapshot()).(interviews :=
              SetVoiceReading(old(db.interviews), token, Truthy(enabled.GetOr(JBool(false)))))
  {
    echoed := enabled.GetOr(JBool(false));
    db.interviews := SetVoiceReading(db.interviews, token, Truthy(echoed));
  }

  // ---------------------------------------------------------------------------
  // Deleting an interview

  /** The two DELETE statements of delete_interview: the interview's questions,
      then the interview. */
  function DeleteCascade(db: Db, id: int): (d: Db)
    ensures WellFormed(db) ==> WellFormed(d)
    ensures d.interviews.Keys == db.interviews.Keys - {id}
    ensures forall k | k in d.interviews :: d.interviews[k] == db.interviews[k]
    ensures forall k :: k in d.questions <==> k in db.questions && db.questions[k].interviewId != id
    ensures forall k | k in d.questions :: d.questions[k] == db.questions[k]
    ensures QuestionIdsOf(d.questions, id) == {}
    ensures forall j | j != id :: QuestionIdsOf(d.questions, j) == QuestionIdsOf(db.questions, j)
    ensures d.positions == db.positions && d.candidates == db.candidates
    ensures d.nextInterviewId == db.nextInterviewId && d.nextQuestionId == db.nextQuestionId
  {
    var qs := map k | k in db.questions && db.questions[k].interviewId != id :: db.questions[k];
    db.(questions := qs, interviews := db.interviews - {id})
  }

  method DeleteInterview(db: Database, id: int)
    requires db.Valid()
    modifies db
    ensures db.Valid()
    ensures db.Snapshot() == DeleteCascade(old(db.Snapshot()), id)
  {
    db.questions := map k | k in db.questions && db.questions[k].interviewId != id :: db.questions[k];
    db.interviews := db.interviews - {id};
  }

  // ---------------------------------------------------------------------------
  // Interview information

  /** The `time` field: a formatted timestamp, or "未设置时间" when `start_time` is
      NULL or 0. */
  datatype TimeLabel = Scheduled(timestamp: int) | NotScheduled

  datatype InfoReply =
    | InterviewInfo(interviewId: int, time: TimeLabel, position: string, candidate: string,
                    status: int, questionCount: Option<int>, voiceReading: Option<int>)
    | InfoNotFound
  {
    function HttpStatus(): int
    {
      if InfoNotFound? then 404 else 200
    }
  }

  /** The interview's candidate and that candidate's position both exist, so the
      inner JOINs produce a row. */
  predicate Joinable(db: Db, k: int)
  {
    && k in db.interviews
    && db.interviews[k].candidateId in db.candidates
    && db.candidates[db.interviews[k].candidateId].positionId in db.positions
  }

  function TimeLabelOf(startTime: Option<int>): (r: TimeLabel)
    ensures r.NotScheduled? <==> startTime.None? || startTime.value == 0
    ensures r.Scheduled? ==> r.timestamp == startTime.value
  {
    if startTime.Some? && startTime.value != 0 then Scheduled(startTime.value) else NotScheduled
  }

  /** get_interview_info: the interview holding the token, joined with its candidate
      and position. */
  function GetInfo(db: Db, token: string): (r: InfoReply)
    ensures r.InfoNotFound? <==>
              forall k | k in db.interviews && db.interviews[k].token == token :: !Joinable(db, k)
    ensures r.HttpStatus() == 404 <==> r.InfoNotFound?
    ensures r.InterviewInfo? ==> Joinable(db, r.interviewId)
    ensures r.InterviewInfo? ==>
              var iv := db.interviews[r.interviewId];
              && iv.token == token
              && r.candidate == db.candidates[iv.candidateId].name
              && r.position == db.positions[db.candidates[iv.candidateId].positionId].name
              && r.status == iv.status && r.questionCount == iv.questionCount
              && r.voiceReading == iv.voiceReading && r.time == TimeLabelOf(iv.startTime)
    ensures r.InterviewInfo? ==> LookupToken(db.interviews, token).Some?
  {
    var ids := set k | k in db.interviews && db.interviews[k].token == token && Joinable(db, k);
    assert forall k | k in db.interviews && db.interviews[k].token == token && Joinable(db, k) :: k in ids;
    if ids == {} then InfoNotFound
    else
      var k := MinOf(ids);
      var iv := db.interviews[k];
      var c := db.candidates[iv.candidateId];
      InterviewInfo(k, TimeLabelOf(iv.startTime), db.positions[c.positionId].name, c.name,
                    iv.status, iv.questionCount, iv.voiceReading)
  }

  // ---------------------------------------------------------------------------
  // Creating and updating interviews

  /** The row create_interview inserts: the request's fields and a fresh token;
      the other columns start NULL. */
  function NewInterview(candidateId: int, interviewer: Option<string>, startTime: Option<int>,
                        status: int, isPassed: Option<int>, token: string): Interview
  {
    Interview(candidateId, interviewer, startTime, None, status, None, isPassed, None, None, token)
  }

  /** The INSERT of create_interview, under the next AUTOINCREMENT id. */
  function InsertInterview(db: Db, row: Interview): (d: Db)
    ensures WellFormed(db) ==> WellFormed(d) && db.nextInterviewId !in db.interviews
    ensures d == db.(interviews := d.interviews, nextInterviewId := db.nextInterviewId + 1)
    ensures d.interviews.Keys == db.interviews.Keys + {db.nextInterviewId}
    ensures db.nextInterviewId in d.interviews && d.interviews[db.nextInterviewId] == row
    ensures forall k | k in db.interviews && k != db.nextInterviewId :: d.interviews[k] == db.interviews[k]
  {
    db.(interviews := db.interviews[db.nextInterviewId := row], nextInterviewId := db.nextInterviewId + 1)
  }

  /** create_interview; `token` is the value `generate_token()` produced. */
  method CreateInterview(db: Database, candidateId: int, interviewer: Option<string>, startTime: Option<int>,
                         status: int, isPassed: Option<int>, token: string)
    requires db.Valid() && IsToken(token)
    modifies db
    ensures db.Valid()
    ensures db.Snapshot() ==
              InsertInterview(old(db.Snapshot()), NewInterview(candidateId, interviewer, startTime, status, isPassed, token))
  {
    db.interviews := db.interviews[db.nextInterviewId := NewInterview(candidateId, interviewer, startTime, status, isPassed, token)];
    db.nextInterviewId := db.nextInterviewId + 1;
  }

  /** A created interview is reachable through its token, provided no older
      interview holds the same token. */
  lemma {:induction false} CreatedInterviewIsReachable(db: Db, row: Interview)
    requires WellFormed(db)
    requires forall k | k in db.interviews :: db.interviews[k].token != row.token
    ensures LookupToken(InsertInterview(db, row).interviews, row.token) == Some(db.nextInterviewId)
  {
    var d := InsertInterview(db, row);
    var ids := set k | k in d.interviews && d.interviews[k].token == row.token;
    assert ids == {db.nextInterviewId};
  }

  /** The UPDATE of update_interview: the request's fields and a new token on the
      row with that id, if there is one. */
  function UpdateInterviewRow(interviews: map<int, Interview>, id: int, candidateId: int,
                              interviewer: Option<string>, startTime: Option<int>, status: int,
                              isPassed: Option<int>, token: string): (r: map<int, Interview>)
    ensures r.Keys == interviews.Keys
    ensures forall k | k in interviews && k != id :: r[k] == interviews[k]
    ensures id in interviews ==> r[id].token == token && r[id].status == status
    ensures id in interviews ==> r[id].questionCount == interviews[id].questionCount
                                 && r[id].report == interviews[id].report
                                 && r[id].voiceReading == interviews[id].voiceReading
    ensures id in interviews ==>
              r[id] == interviews[id].(candidateId := candidateId, interviewer := interviewer, startTime := startTime,
                                       status := status, isPassed := isPassed, token := token)
  {
    if id in interviews then
      interviews[id := interviews[id].(candidateId := candidateId, interviewer := interviewer,
                                       startTime := startTime, status := status, isPassed := isPassed,
                                       token := token)]
    else interviews
  }

  /** update_interview; `token` is the value `generate_token()` produced. */
  method UpdateInterview(db: Database, id: int, candidateId: int, interviewer: Option<string>,
                         startTime: Option<int>, status: int, isPassed: Option<int>, token: string)
    requires db.Valid() && IsToken(token)
    modifies db
    ensures db.Valid()
    ensures db.Snapshot() == old(db.Snapshot()).(interviews :=
              UpdateInterviewRow(old(db.interviews), id, candidateId, interviewer, startTime, status, isPassed, token))
  {
    db.interviews := UpdateInterviewRow(db.interviews, id, candidateId, interviewer, startTime, status, isPassed, token);
  }

  /** Editing an interview issues a new token, so the link sent with the old one
      stops working: get_question answers "invalid interview" for it. */
  lemma {:induction false} UpdateRevokesOldToken(db: Db, id: int, candidateId: int, interviewer: Option<string>,
                                                  startTime: Option<int>, status: int, isPassed: Option<int>,
                                                  token: string, cursor: int)
    requires id in db.interviews && db.interviews[id].token != token
    requires forall k | k in db.interviews && k != id :: db.interviews[k].token != db.interviews[id].token
    ensures var d := db.(interviews := UpdateInterviewRow(db.interviews, id, candidateId, interviewer,
                                                          startTime, status, isPassed, token));
            GetQuestion(d, db.interviews[id].token, cursor) == UnknownInterview
  {
  }
}
