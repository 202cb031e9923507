/** The report pass of app/generate_interview_reports.py: every completed
    interview (status 3) gets an evaluation from the language model, rendered as
    a PDF report and stored with status 4 ("report ready"). */
module ReportGeneration {
  import opened Util
  import opened Json
  import opened Schema

  /** The system message of the evaluation request. */
  const EvaluationSystemPrompt: string := "你是一位专业的面试评估专家，负责评估技术面试表现。"

  /** The closing part of the evaluation prompt: the requested contents and an
      example of the reply. */
  const PromptFooter: string :=
    "\n"
    + "        请以JSON格式返回评估结果，包含以下内容：\n"
    + "        1. 每个问题的评分和评价\n"
    + "        2. 技术能力总分(满分100)\n"
    + "        3. 沟通能力总分(满分100)\n"
    + "        4. 综合评分(满分100)\n"
    + "        5. 面试官评语(综合评价候选人的优缺点)\n"
    + "        6. 录用建议(推荐录用/可以考虑/不建议录用)\n"
    + "        \n"
    + "        JSON格式示例:\n"
    + "        {\n"
    + "            \"question_evaluations\": [\n"
    + "                {\"id\": 1, \"question\": \"[question]\", \"score_standard\": \"[score_standard]\", \"answer\": \"[answer_text]\", \"score\": 7, \"comments\": \"回答详细，展示了扎实的基础知识...\"},\n"
    + "                {\"id\": 2, \"question\": \"[question]\", \"score_standard\": \"[score_standard]\", \"answer\": \"[answer_text]\", \"score\": 9, \"comments\": \"思路清晰，解决方案合理...\"}\n"
    + "                ...\n"
    + "            ],\n"
    + "            \"technical_score\": 88,\n"
    + "            \"communication_score\": 90,\n"
    + "            \"overall_score\": 89,\n"
    + "            \"comments\": \"候选人技术基础扎实，沟通能力强...\",\n"
    + "            \"recommendation\": \"推荐录用\"\n"
    + "        }\n"
    + "        "

  /** What the report template is rendered from: the `model_output` dict. */
  datatype ModelOutput = ModelOutput(
    candidateName: string,
    position: string,
    interviewDate: string,
    interviewer: Option<string>,
    evaluationResult: Json)

  /** The services the pass calls out to. `evaluate` is the chat completion
      followed by `json.loads`, given the system message and the prompt; None when
      either raises. `render` is the Jinja template rendered to HTML and turned
      into PDF bytes; None when either raises. */
  datatype Services = Services(
    evaluate: (string, string) -> Option<Json>,
    render: ModelOutput -> Option<Bytes>)

  // ---------------------------------------------------------------------------
  // Reading the interview

  /** The ids of an interview's questions in the order the unordered
      `SELECT * FROM interview_questions WHERE interview_id = ?` returns them,
      taken to be the rowid order. */
  function InterviewQuestionIds(qs: map<int, Question>, iid: int): (r: seq<int>)
    ensures forall k :: k in r <==> k in qs && qs[k].interviewId == iid
    ensures forall i, j | 0 <= i < j < |r| :: r[i] < r[j]
  {
    var ids := QuestionIdsOf(qs, iid);
    assert forall k | k in qs && qs[k].interviewId == iid :: k in ids;
    SortedIds(ids)
  }

  /** fetch_interview_questions: the interview's rows, in that order. */
  function InterviewQuestions(qs: map<int, Question>, iid: int): (r: seq<Question>)
    ensures |r| == |InterviewQuestionIds(qs, iid)|
    ensures forall i | 0 <= i < |r| :: r[i] == qs[InterviewQuestionIds(qs, iid)[i]] && r[i].interviewId == iid
  {
    var ids := InterviewQuestionIds(qs, iid);
    seq(|ids|, i requires 0 <= i < |ids| => qs[ids[i]])
  }

  // ---------------------------------------------------------------------------
  // The evaluation prompt

  /** The opening of the prompt; a NULL interviewer prints as "None". */
  function PromptHeader(candidateName: string, positionName: string, interviewer: Option<string>): string
  {
    HeaderOpening + candidateName + HeaderApplying + positionName + HeaderInterviewer + ShowText(interviewer)
    + HeaderClosing
  }

  const HeaderOpening: string := "\n        你是一位专业的面试评估专家，需要对候选人\""
  const HeaderApplying: string := "\"应聘\""
  const HeaderInterviewer: string := "\"职位的面试表现进行评估。\n        面试官是"
  const HeaderClosing: string :=
    "。\n"
    + "        \n"
    + "        请根据以下面试问题、评分标准和候选人的回答，对每个问题进行评分和点评，并给出综合评价\n"
    + "        注意每个问题评分范围是0-100分，综合评分范围是0-100分\n"
    + "        \n"
    + "        "

  /** The opening names the candidate, the position and the interviewer. */
  lemma PromptHeaderMentions(candidateName: string, positionName: string, interviewer: Option<string>)
    ensures var r := PromptHeader(candidateName, positionName, interviewer);
            Contains(r, candidateName) && Contains(r, positionName) && Contains(r, ShowText(interviewer))
  {
    ContainsEachOfThree(HeaderOpening, candidateName, HeaderApplying, positionName, HeaderInterviewer,
                        ShowText(interviewer), HeaderClosing);
  }

  /** The block for the n-th question. The row always has the three columns, so
      the defaults of `q.get` never apply: a NULL score standard or answer prints
      as "None". */
  function QuestionBlock(n: int, q: Question): string
  {
    BlockNumber + IntToString(n) + BlockQuestion + q.text
    + BlockStandard + ShowText(q.scoreStandard)
    + BlockAnswer + ShowText(q.answerText)
    + BlockClosing
  }

  const BlockNumber: string := "\n        问题"
  const BlockQuestion: string := ": "
  const BlockStandard: string := "\n        评分标准: "
  const BlockAnswer: string := "\n        候选人回答: "
  const BlockClosing: string := "\n        \n        "

  /** A block carries its number, the question, the score standard and the answer. */
  lemma QuestionBlockMentions(n: int, q: Question)
    ensures var r := QuestionBlock(n, q);
            && Contains(r, IntToString(n)) && Contains(r, q.text)
            && Contains(r, ShowText(q.scoreStandard)) && Contains(r, ShowText(q.answerText))
  {
    ContainsEachValue(BlockNumber, IntToString(n), BlockQuestion, q.text, BlockStandard, ShowText(q.scoreStandard),
                      BlockAnswer, ShowText(q.answerText), BlockClosing);
  }

  /** The blocks for a run of questions, numbered from `first`. */
  function BlockList(qs: seq<Question>, first: int): (r: seq<string>)
    ensures |r| == |qs| && forall i | 0 <= i < |qs| :: r[i] == QuestionBlock(first + i, qs[i])
  {
    seq(|qs|, i requires 0 <= i < |qs| => QuestionBlock(first + i, qs[i]))
  }

  function Blocks(qs: seq<Question>, first: int): string
  {
    Concat(BlockList(qs, first))
  }

  /** The i-th question (counting from 0) appears as block number i + 1, after the
      blocks of the questions before it and before those of the ones after it. */
  lemma QuestionNumbering(qs: seq<Question>, i: int)
    requires 0 <= i < |qs|
    ensures Blocks(qs, 1) == Blocks(qs[..i], 1) + QuestionBlock(i + 1, qs[i]) + Blocks(qs[i + 1..], i + 2)
  {
    var before, here, after := BlockList(qs[..i], 1), [QuestionBlock(i + 1, qs[i])], BlockList(qs[i + 1..], i + 2);
    assert BlockList(qs, 1) == before + here + after;
    ConcatSplit(before + here, after);
    ConcatSplit(before, here);
    assert Concat(here) == here[0] by {
      assert here[..0] == [];
    }
  }

  function EvaluationPrompt(candidateName: string, positionName: string, interviewer: Option<string>,
                            questions: seq<Question>): string
  {
    PromptHeader(candidateName, positionName, interviewer) + Blocks(questions, 1) + PromptFooter
  }

  /** The prompt opens with the header, closes with the footer and holds the
      numbered block of every question. */
  lemma EvaluationPromptShape(candidateName: string, positionName: string, interviewer: Option<string>,
                              questions: seq<Question>)
    ensures var r := EvaluationPrompt(candidateName, positionName, interviewer, questions);
            && PromptHeader(candidateName, positionName, interviewer) <= r
            && EndsWith(r, PromptFooter)
            && forall i | 0 <= i < |questions| :: Contains(r, QuestionBlock(i + 1, questions[i]))
  {
    var header := PromptHeader(candidateName, positionName, interviewer);
    Framed(header, "", "", Blocks(questions, 1), PromptFooter);
    assert "" + "" + Blocks(questions, 1) == Blocks(questions, 1);
    forall i | 0 <= i < |questions|
      ensures Contains(EvaluationPrompt(candidateName, positionName, interviewer, questions), QuestionBlock(i + 1, questions[i]))
    {
      QuestionNumbering(questions, i);
      Framed(header, Blocks(questions[..i], 1), QuestionBlock(i + 1, questions[i]), Blocks(questions[i + 1..], i + 2),
             PromptFooter);
    }
  }

  /** The prompt names the candidate and the position. */
  lemma EvaluationPromptNames(candidateName: string, positionName: string, interviewer: Option<string>,
                              questions: seq<Question>)
    ensures var r := EvaluationPrompt(candidateName, positionName, interviewer, questions);
            Contains(r, candidateName) && Contains(r, positionName)
  {
    var header := PromptHeader(candidateName, positionName, interviewer);
    PromptHeaderMentions(candidateName, positionName, interviewer);
    ContainsExtend(header, candidateName, Blocks(questions, 1));
    ContainsExtend(header + Blocks(questions, 1), candidateName, PromptFooter);
    ContainsExtend(header, positionName, Blocks(questions, 1));
    ContainsExtend(header + Blocks(questions, 1), positionName, PromptFooter);
  }

  /** For every question the prompt carries its text, its score standard and the
      candidate's answer. */
  lemma EvaluationPromptCarriesAnswers(candidateName: string, positionName: string, interviewer: Option<string>,
                                       questions: seq<Question>, i: int)
    requires 0 <= i < |questions|
    ensures var r := EvaluationPrompt(candidateName, positionName, interviewer, questions);
            && Contains(r, questions[i].text)
            && Contains(r, ShowText(questions[i].scoreStandard))
            && Contains(r, ShowText(questions[i].answerText))
  {
    var r := EvaluationPrompt(candidateName, positionName, interviewer, questions);
    var block := QuestionBlock(i + 1, questions[i]);
    EvaluationPromptShape(candidateName, positionName, interviewer, questions);
    QuestionBlockMentions(i + 1, questions[i]);
    ContainsTrans(r, block, questions[i].text);
    ContainsTrans(r, block, ShowText(questions[i].scoreStandard));
    ContainsTrans(r, block, ShowText(questions[i].answerText));
  }

  lemma BlocksSnoc(qs: seq<Question>, i: int)
    requires 0 <= i < |qs|
    ensures Blocks(qs[..i + 1], 1) == Blocks(qs[..i], 1) + QuestionBlock(i + 1, qs[i])
  {
    assert BlockList(qs[..i + 1], 1) == BlockList(qs[..i], 1) + [QuestionBlock(i + 1, qs[i])];
    ConcatSplit(BlockList(qs[..i], 1), [QuestionBlock(i + 1, qs[i])]);
    assert Concat([QuestionBlock(i + 1, qs[i])]) == QuestionBlock(i + 1, qs[i]) by {
      assert [QuestionBlock(i + 1, qs[i])][..0] == [];
    }
  }

  /** call_ai_model's result: the names and the date as given, and the decoded
      evaluation, or an empty dict when the request or the decoding failed. */
  function ModelOutputFor(candidateName: string, positionName: string, interviewer: Option<string>,
                          questions: seq<Question>, svc: Services, today: string): (r: ModelOutput)
    ensures r.candidateName == candidateName && r.position == positionName
    ensures r.interviewer == interviewer && r.interviewDate == today
    ensures r.evaluationResult ==
              match svc.evaluate(EvaluationSystemPrompt, EvaluationPrompt(candidateName, positionName, interviewer, questions))
              case Some(evaluation) => evaluation
              case None => JObject([])
  {
    var reply := svc.evaluate(EvaluationSystemPrompt, EvaluationPrompt(candidateName, positionName, interviewer, questions));
    ModelOutput(candidateName, positionName, today, interviewer, reply.GetOr(JObject([])))
  }

  /** call_ai_model: the prompt is built block by block, then sent. `today` is the
      date as `strftime("%Y年%m月%d日")` writes it. */
  method CallAiModel(candidateName: string, positionName: string, interviewer: Option<string>,
                     questions: seq<Question>, svc: Services, today: string)
    returns (output: ModelOutput)
    ensures output == ModelOutputFor(candidateName, positionName, interviewer, questions, svc, today)
  {
    ghost var header := PromptHeader(candidateName, positionName, interviewer);
    var prompt := PromptHeader(candidateName, positionName, interviewer);
    for i := 0 to |questions|
      invariant prompt == header + Blocks(questions[..i], 1)
    {
      BlocksSnoc(questions, i);
      AppendAssoc(header, Blocks(questions[..i], 1), QuestionBlock(i + 1, questions[i]));
      prompt := prompt + QuestionBlock(i + 1, questions[i]);
    }
    assert questions[..|questions|] == questions;
    prompt := prompt + PromptFooter;
    var reply := svc.evaluate(EvaluationSystemPrompt, prompt);
    var evaluation := if reply.Some? then reply.value else JObject([]);
    output := ModelOutput(candidateName, positionName, today, interviewer, evaluation);
  }

  // ---------------------------------------------------------------------------
  // Storing the report

  /** The UPDATE of update_interview_report: the report and status 4 on the row
      with that id, if there is one. */
  function SetReport(interviews: map<int, Interview>, id: int, report: Bytes): (r: map<int, Interview>)
    ensures r.Keys == interviews.Keys
    ensures forall k | k in interviews && k != id :: r[k] == interviews[k]
    ensures id in interviews ==> r[id] == interviews[id].(report := Some(report), status := ReportReady)
  {
    if id in interviews then interviews[id := interviews[id].(report := Some(report), status := ReportReady)]
    else interviews
  }

  method UpdateInterviewReport(db: Database, id: int, report: Bytes)
    requires db.Valid()
    modifies db
    ensures db.Valid()
    ensures db.Snapshot() == old(db.Snapshot()).(interviews := SetReport(old(db.interviews), id, report))
  {
    db.interviews := SetReport(db.interviews, id, report);
  }

  // ---------------------------------------------------------------------------
  // The pass

  /** One entry of the list the pass reads: interview id, candidate id, interviewer. */
  datatype Pending = Pending(id: int, candidateId: int, interviewer: Option<string>)

  /** fetch_interviews_with_status_3, in ascending id order. */
  function CompletedInterviews(db: Db): (r: seq<Pending>)
    ensures forall i | 0 <= i < |r| ::
              && r[i].id in db.interviews && db.interviews[r[i].id].status == Completed
              && r[i].candidateId == db.interviews[r[i].id].candidateId
              && r[i].interviewer == db.interviews[r[i].id].interviewer
    ensures forall k | k in db.interviews && db.interviews[k].status == Completed :: k in ListedIds(r)
    ensures forall i, j | 0 <= i < j < |r| :: r[i].id < r[j].id
  {
    var ids := SortedIds(InterviewsAtStatus(db.interviews, Completed));
    assert forall k | k in db.interviews && db.interviews[k].status == Completed :: k in ids;
    assert forall k | k in ids :: k in db.interviews && db.interviews[k].status == Completed;
    var r := seq(|ids|, i requires 0 <= i < |ids| =>
                   Pending(ids[i], db.interviews[ids[i]].candidateId, db.interviews[ids[i]].interviewer));
    ListedIdsCover(ids, r);
    r
  }

  lemma ListedIdsCover(ids: seq<int>, pending: seq<Pending>)
    requires |pending| == |ids| && forall i | 0 <= i < |ids| :: pending[i].id == ids[i]
    ensures forall k | k in ids :: k in ListedIds(pending)
  {
    forall k | k in ids ensures k in ListedIds(pending) {
      var i :| 0 <= i < |ids| && ids[i] == k;
      assert pending[i].id == k;
    }
  }

  function ListedIds(pending: seq<Pending>): set<int>
  {
    set i | 0 <= i < |pending| :: pending[i].id
  }

  /** The report one iteration stores: None when the candidate or the position is
      missing (the interview is skipped) or when rendering raises (the exception is
      caught and the loop goes on). */
  function ReportFor(db: Db, p: Pending, svc: Services, today: string): (r: Option<Bytes>)
    ensures !Resolvable(db, p.candidateId) ==> r.None?
    ensures Resolvable(db, p.candidateId) ==>
              var candidate := db.candidates[p.candidateId];
              r == svc.render(ModelOutputFor(candidate.name, db.positions[candidate.positionId].name, p.interviewer,
                                             InterviewQuestions(db.questions, p.id), svc, today))
  {
    if !Resolvable(db, p.candidateId) then None
    else
      var candidate := db.candidates[p.candidateId];
      var position := db.positions[candidate.positionId];
      var questions := InterviewQuestions(db.questions, p.id);
      svc.render(ModelOutputFor(candidate.name, position.name, p.interviewer, questions, svc, today))
  }

  /** The loop of process_pending_reports over a list. */
  function ReportPass(db: Db, pending: seq<Pending>, svc: Services, today: string): (r: Db)
    ensures r.interviews.Keys == db.interviews.Keys
    ensures forall k | k in db.interviews ::
              || r.interviews[k] == db.interviews[k]
              || r.interviews[k] == db.interviews[k].(report := r.interviews[k].report, status := ReportReady)
    decreases |pending|
  {
    if pending == [] then db
    else match ReportFor(db, pending[0], svc, today)
      case None => ReportPass(db, pending[1..], svc, today)
      case Some(report) => ReportPass(db.(interviews := SetReport(db.interviews, pending[0].id, report)), pending[1..], svc, today)
  }

  /** process_pending_reports. */
  method ProcessPendingReports(db: Database, svc: Services, today: string)
    requires db.Valid()
    modifies db
    ensures db.Valid()
    ensures db.Snapshot() == ReportPass(old(db.Snapshot()), CompletedInterviews(old(db.Snapshot())), svc, today)
  {
    var pending := CompletedInterviews(db.Snapshot());
    ghost var start := db.Snapshot();
    for i := 0 to |pending|
      invariant db.Valid()
      invariant ReportPass(start, pending, svc, today) == ReportPass(db.Snapshot(), pending[i..], svc, today)
    {
      ReportPassUnfold(db.Snapshot(), pending[i..], svc, today);
      assert pending[i..][1..] == pending[i + 1..];
      ReportInterview(db, pending[i], svc, today);
    }
    ReportPassFrame(start, pending, svc, today);
  }

  /** The body of the loop of process_pending_reports for one interview. */
  method ReportInterview(db: Database, p: Pending, svc: Services, today: string)
    requires db.Valid()
    modifies db
    ensures db.Valid()
    ensures db.Snapshot() == AfterStep(old(db.Snapshot()), p, svc, today)
  {
    ghost var before := db.Snapshot();
    if p.candidateId !in db.candidates {
      return;
    }
    var candidate := db.candidates[p.candidateId];
    if candidate.positionId !in db.positions {
      return;
    }
    var position := db.positions[candidate.positionId];
    var questions := InterviewQuestions(db.questions, p.id);
    var output := CallAiModel(candidate.name, position.name, p.interviewer, questions, svc, today);
    var report := svc.render(output);
    assert report == ReportFor(before, p, svc, today);
    if report.None? {
      return;
    }
    UpdateInterviewReport(db, p.id, report.value);
  }

  // ---------------------------------------------------------------------------
  // What a pass does

  /** The interview row after its iteration: unchanged, or with the report and
      status 4. */
  function Reported(db: Db, p: Pending, svc: Services, today: string): Interview
    requires p.id in db.interviews
  {
    match ReportFor(db, p, svc, today)
    case None => db.interviews[p.id]
    case Some(report) => db.interviews[p.id].(report := Some(report), status := ReportReady)
  }

  lemma ListedIdsCons(pending: seq<Pending>)
    requires pending != []
    ensures ListedIds(pending) == {pending[0].id} + ListedIds(pending[1..])
  {
    var rest := pending[1..];
    forall x | x in ListedIds(pending) ensures x in {pending[0].id} + ListedIds(rest) {
      var i :| 0 <= i < |pending| && pending[i].id == x;
      if i > 0 { assert rest[i - 1].id == x; }
    }
    forall x | x in ListedIds(rest) ensures x in ListedIds(pending) {
      var i :| 0 <= i < |rest| && rest[i].id == x;
      assert pending[i + 1].id == x;
    }
  }

  /** The store after the first iteration of a pass. */
  function AfterStep(db: Db, p: Pending, svc: Services, today: string): Db
  {
    match ReportFor(db, p, svc, today)
    case None => db
    case Some(report) => db.(interviews := SetReport(db.interviews, p.id, report))
  }

  lemma ReportPassUnfold(db: Db, pending: seq<Pending>, svc: Services, today: string)
    requires pending != []
    ensures ReportPass(db, pending, svc, today) == ReportPass(AfterStep(db, pending[0], svc, today), pending[1..], svc, today)
  {
  }

  /** A pass changes interviews only, keeps their ids and leaves an unlisted
      interview alone. */
  lemma {:induction false} ReportPassFrame(db: Db, pending: seq<Pending>, svc: Services, today: string)
    ensures var r := ReportPass(db, pending, svc, today);
            && r == db.(interviews := r.interviews)
            && r.interviews.Keys == db.interviews.Keys
            && (forall k | k in db.interviews && k !in ListedIds(pending) :: r.interviews[k] == db.interviews[k])
    decreases |pending|
  {
    if pending != [] {
      ListedIdsCons(pending);
      ReportPassFrame(AfterStep(db, pending[0], svc, today), pending[1..], svc, today);
    }
  }

  /** When the list names each interview once, each listed interview ends as its
      own iteration made it: the iterations do not affect one another. */
  lemma {:induction false} ReportPassEffect(db: Db, pending: seq<Pending>, svc: Services, today: string)
    requires forall a, b | 0 <= a < b < |pending| :: pending[a].id != pending[b].id
    ensures var r := ReportPass(db, pending, svc, today);
            forall i | 0 <= i < |pending| && pending[i].id in db.interviews ::
              pending[i].id in r.interviews && r.interviews[pending[i].id] == Reported(db, pending[i], svc, today)
    decreases |pending|
  {
    if pending != [] {
      var rest := pending[1..];
      var next := AfterStep(db, pending[0], svc, today);
      assert ReportPass(db, pending, svc, today) == ReportPass(next, rest, svc, today);
      ReportPassEffect(next, rest, svc, today);
      ReportPassFrame(next, rest, svc, today);
      assert forall i | 0 <= i < |rest| :: rest[i] == pending[i + 1];
      assert pending[0].id !in ListedIds(rest);
      forall i | 1 <= i < |pending| && pending[i].id in db.interviews
        ensures Reported(next, pending[i], svc, today) == Reported(db, pending[i], svc, today)
      {
        ReportedDependsOnOwnRow(db, next, pending[i], svc, today);
      }
    }
  }

  /** An iteration reads the interview's own row and the other tables, nothing more. */
  lemma ReportedDependsOnOwnRow(a: Db, b: Db, p: Pending, svc: Services, today: string)
    requires a.candidates == b.candidates && a.positions == b.positions && a.questions == b.questions
    requires p.id in a.interviews && p.id in b.interviews && a.interviews[p.id] == b.interviews[p.id]
    ensures Reported(a, p, svc, today) == Reported(b, p, svc, today)
  {
    assert ReportFor(a, p, svc, today) == ReportFor(b, p, svc, today);
  }

  /** On the list process_pending_reports reads, every interview ends up as its own
      iteration made it: an interview not at status 3 is untouched, and one at
      status 3 either receives its report and status 4 or is left as it was. */
  lemma PendingReportsOutcome(db: Db, svc: Services, today: string)
    ensures var r := ReportPass(db, CompletedInterviews(db), svc, today);
            && r == db.(interviews := r.interviews)
            && r.interviews.Keys == db.interviews.Keys
            && forall k | k in db.interviews ::
                 if db.interviews[k].status == Completed then
                   r.interviews[k] == Reported(db, Pending(k, db.interviews[k].candidateId, db.interviews[k].interviewer), svc, today)
                 else r.interviews[k] == db.interviews[k]
  {
    var pending := CompletedInterviews(db);
    ReportPassFrame(db, pending, svc, today);
    ReportPassEffect(db, pending, svc, today);
    forall k | k in db.interviews && db.interviews[k].status == Completed
      ensures ReportPass(db, pending, svc, today).interviews[k] ==
                Reported(db, Pending(k, db.interviews[k].candidateId, db.interviews[k].interviewer), svc, today)
    {
      var i :| 0 <= i < |pending| && pending[i].id == k;
    }
    assert forall k | k in ListedIds(pending) :: db.interviews[k].status == Completed;
  }

  /** When the evaluation request fails, the report is still rendered, from an
      empty evaluation, and stored if rendering succeeds. */
  lemma EvaluationFailureStillReports(db: Db, p: Pending, svc: Services, today: string)
    requires Resolvable(db, p.candidateId)
    requires var candidate := db.candidates[p.candidateId];
             svc.evaluate(EvaluationSystemPrompt,
                          EvaluationPrompt(candidate.name, db.positions[candidate.positionId].name, p.interviewer,
                                           InterviewQuestions(db.questions, p.id))).None?
    ensures var candidate := db.candidates[p.candidateId];
            ReportFor(db, p, svc, today) ==
              svc.render(ModelOutput(candidate.name, db.positions[candidate.positionId].name, today, p.interviewer, JObject([])))
  {
  }
}
