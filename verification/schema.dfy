/** The record store: the four tables of the interview system, the interview
    status codes, and the database object the handlers and the two passes update. */
module Schema {
  import opened Util

  type Bytes = seq<bv8>

  // interviews.status (create_interview_system_db.py, line 40)
  const NotStarted: int := 0
  const QuestionsReady: int := 1
  // 2 (in progress) is written by none of the code modelled here
  const Completed: int := 3
  const ReportReady: int := 4

  /** A row of `positions`, with the columns the core reads. */
  datatype Position = Position(name: string, requirements: Option<string>, responsibilities: Option<string>)

  /** A row of `candidates`; the résumé is an optional binary blob. */
  datatype Candidate = Candidate(positionId: int, name: string, email: Option<string>, resume: Option<Bytes>)

  /** A row of `interviews`. */
  datatype Interview = Interview(
    candidateId: int,
    interviewer: Option<string>,
    startTime: Option<int>,
    endTime: Option<int>,
    status: int,
    questionCount: Option<int>,
    isPassed: Option<int>,
    voiceReading: Option<int>,
    report: Option<Bytes>,
    token: string)

  /** A row of `interview_questions`; the three answer columns stay NULL until answered. */
  datatype Question = Question(
    interviewId: int,
    text: string,
    scoreStandard: Option<string>,
    answerAudio: Option<Bytes>,
    answerText: Option<string>,
    createdAt: int,
    answeredAt: Option<int>)

  /** The whole store as a value: the tables keyed by id, and the next id each
      AUTOINCREMENT table hands out. */
  datatype Db = Db(
    positions: map<int, Position>,
    candidates: map<int, Candidate>,
    interviews: map<int, Interview>,
    questions: map<int, Question>,
    nextInterviewId: int,
    nextQuestionId: int)

  /** AUTOINCREMENT ids start at 1 and every id in use is below the next one. */
  predicate WellFormed(db: Db)
  {
    && 1 <= db.nextInterviewId
    && 1 <= db.nextQuestionId
    && (forall k | k in db.interviews :: 1 <= k < db.nextInterviewId)
    && (forall k | k in db.questions :: 1 <= k < db.nextQuestionId)
  }

  /** The candidate exists and so does that candidate's position: both passes
      skip an interview for which either lookup comes back empty. */
  predicate Resolvable(db: Db, candidateId: int)
  {
    candidateId in db.candidates && db.candidates[candidateId].positionId in db.positions
  }

  /** A question has an answer time exactly when it has an answer text: inserts
      leave both NULL and a submission writes both. */
  predicate AnsweredTogether(qs: map<int, Question>)
  {
    forall k | k in qs :: qs[k].answeredAt.Some? <==> qs[k].answerText.Some?
  }

  /** The ids of the questions that belong to one interview. */
  function QuestionIdsOf(qs: map<int, Question>, iid: int): set<int>
  {
    set k | k in qs && qs[k].interviewId == iid
  }

  /** The ids of interviews at a given status: `SELECT ... WHERE status = ?`. */
  function InterviewsAtStatus(interviews: map<int, Interview>, status: int): set<int>
  {
    set k | k in interviews && interviews[k].status == status
  }

  /** The database the handlers and the passes share. */
  class Database {
    var positions: map<int, Position>
    var candidates: map<int, Candidate>
    var interviews: map<int, Interview>
    var questions: map<int, Question>
    var nextInterviewId: int
    var nextQuestionId: int

    function Snapshot(): Db
      reads this
    {
      Db(positions, candidates, interviews, questions, nextInterviewId, nextQuestionId)
    }

    ghost predicate Valid()
      reads this
    {
      WellFormed(Snapshot())
    }

    /** A freshly created database: empty tables. */
    constructor ()
      ensures Valid()
      ensures Snapshot() == Db(map[], map[], map[], map[], 1, 1)
    {
      positions, candidates, interviews, questions := map[], map[], map[], map[];
      nextInterviewId, nextQuestionId := 1, 1;
    }
  }
}
