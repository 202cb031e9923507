/** The question-generation pass of app/generate_interview_questions.py: every
    interview that has not started gets its questions from the language model,
    built from the candidate's résumé and the position's description, and moves
    to "questions ready". */
module QuestionGeneration {
  import opened Util
  import opened Json
  import opened Schema

  const NoResumeText: string := "无简历内容"
  const NoExtractableText: string := "无法从PDF中提取文本内容"

  /** The system message of the chat request. */
  const SystemPrompt: string :=
    "你是一名专业的招聘面试官，请根据岗位要求和候选人简历生成5个针对性的技术面试问题，每个问题附带评分标准,返回标准的json格式。"

  /** `json_format` as the f-string renders it: the `repr` of a list of five dicts. */
  const JsonFormat: string :=
    "[{'question': '请介绍一下你的专业背景和技能', 'score_standard': '清晰度5分，相关性5分，深度5分'}, "
    + "{'question': '你认为自己最适合这个岗位的原因是什么？', 'score_standard': '匹配度5分，自我认知5分，表达5分'}, "
    + "{'question': '描述一个你解决过的技术挑战', 'score_standard': '复杂度5分，解决方案5分，结果5分'}, "
    + "{'question': '你如何看待团队合作？', 'score_standard': '协作能力5分，沟通能力5分，角色意识5分'}, "
    + "{'question': '你对这个行业的未来趋势有什么看法？', 'score_standard': '了解程度5分，前瞻性5分，分析能力5分'}]"

  /** The services the pass calls out to. `parse` is the PDF reader: the text of
      each page, or None when reading fails. `decode` is `bytes.decode('utf-8',
      errors='ignore')`. `generate` is the chat completion followed by
      `json.loads`, given the system and the user message; None when either raises. */
  datatype Services = Services(
    parse: Bytes -> Option<seq<string>>,
    decode: Bytes -> string,
    generate: (string, string) -> Option<Json>)

  // ---------------------------------------------------------------------------
  // Résumé text

  /** The text the page loop accumulates: every page followed by a newline. */
  function JoinPages(pages: seq<string>): string
  {
    if pages == [] then "" else JoinPages(pages[..|pages| - 1]) + pages[|pages| - 1] + "\n"
  }

  lemma BlankConcat(a: string, b: string)
    ensures IsBlank(a + b) <==> IsBlank(a) && IsBlank(b)
  {
    if IsBlank(a + b) {
      forall i | 0 <= i < |a| ensures IsSpace(a[i]) { assert a[i] == (a + b)[i]; }
      forall i | 0 <= i < |b| ensures IsSpace(b[i]) { assert b[i] == (a + b)[|a| + i]; }
    }
    if IsBlank(a) && IsBlank(b) {
      forall i | 0 <= i < |a + b| ensures IsSpace((a + b)[i]) {
        if i >= |a| { assert (a + b)[i] == b[i - |a|]; }
      }
    }
  }

  /** The joined text is blank exactly when every page's text is blank: the
      newlines the loop adds never make it non-blank. */
  lemma {:induction false} JoinedPagesBlankIffPagesBlank(pages: seq<string>)
    ensures IsBlank(JoinPages(pages)) <==> forall i | 0 <= i < |pages| :: IsBlank(pages[i])
    decreases |pages|
  {
    if pages != [] {
      var init, last := pages[..|pages| - 1], pages[|pages| - 1];
      JoinedPagesBlankIffPagesBlank(init);
      BlankConcat(JoinPages(init) + last, "\n");
      BlankConcat(JoinPages(init), last);
      assert forall i | 0 <= i < |init| :: init[i] == pages[i];
    }
  }

  /** extract_text_from_pdf: the résumé's text for the prompt. A missing or empty
      résumé gives a fixed text; an unreadable one is decoded as UTF-8; a readable
      one gives its pages' text, or a fixed text when that text is blank. */
  function ResumeText(resume: Option<Bytes>, svc: Services): (r: string)
    ensures resume.None? || resume == Some([]) ==> r == NoResumeText
    ensures resume.Some? && resume.value != [] && svc.parse(resume.value).None? ==>
              r == svc.decode(resume.value)
    ensures resume.Some? && resume.value != [] && svc.parse(resume.value).Some? ==>
              && !IsBlank(r)
              && (r == NoExtractableText <==>
                    forall i | 0 <= i < |svc.parse(resume.value).value| :: IsBlank(svc.parse(resume.value).value[i]))
    ensures resume.Some? && resume.value != [] && svc.parse(resume.value).Some?
            && !(forall i | 0 <= i < |svc.parse(resume.value).value| :: IsBlank(svc.parse(resume.value).value[i])) ==>
              r == JoinPages(svc.parse(resume.value).value)
  {
    if resume.None? || resume.value == [] then NoResumeText
    else match svc.parse(resume.value)
      case None => svc.decode(resume.value)
      case Some(pages) =>
        var text := JoinPages(pages);
        JoinedPagesBlankIffPagesBlank(pages);
        assert !IsSpace(NoExtractableText[0]);
        if IsBlank(text) then NoExtractableText
        else
          assert text[|text| - 1] == '\n' != NoExtractableText[|NoExtractableText| - 1];
          text
  }

  /** The page loop of extract_text_from_pdf. */
  method ExtractText(resume: Option<Bytes>, svc: Services) returns (text: string)
    ensures text == ResumeText(resume, svc)
  {
    if resume.None? || resume.value == [] {
      return NoResumeText;
    }
    var parsed := svc.parse(resume.value);
    if parsed.None? {
      return svc.decode(resume.value);
    }
    var pages := parsed.value;
    text := "";
    for i := 0 to |pages|
      invariant text == JoinPages(pages[..i])
    {
      assert pages[..i + 1][..i] == pages[..i];
      text := text + pages[i] + "\n";
    }
    assert pages[..|pages|] == pages;
    if IsBlank(text) {
      text := NoExtractableText;
    }
  }

  // ---------------------------------------------------------------------------
  // The generation request

  /** The user message; a NULL requirement or responsibility prints as "None". */
  function UserPrompt(position: Position, resumeText: string): string
  {
    NameLabel + position.name
    + RequirementsLabel + ShowText(position.requirements)
    + ResponsibilitiesLabel + ShowText(position.responsibilities)
    + ResumeLabel + resumeText
    + PromptTail
  }

  const NameLabel: string := "岗位名称: "
  const RequirementsLabel: string := "\n岗位要求: "
  const ResponsibilitiesLabel: string := "\n岗位职责: "
  const ResumeLabel: string := "\n候选人简历: "
  const PromptTail: string := "\n\n请生成10个面试问题和评分标准，JSON格式参考 " + JsonFormat + " ，每个问题满分10分。"

  /** The user message carries the position's name, requirements and
      responsibilities and the résumé text. */
  lemma UserPromptMentions(position: Position, resumeText: string)
    ensures var r := UserPrompt(position, resumeText);
            && Contains(r, position.name)
            && Contains(r, ShowText(position.requirements))
            && Contains(r, ShowText(position.responsibilities))
            && Contains(r, resumeText)
  {
    ContainsEachValue(NameLabel, position.name, RequirementsLabel, ShowText(position.requirements),
                      ResponsibilitiesLabel, ShowText(position.responsibilities), ResumeLabel, resumeText, PromptTail);
  }

  /** generate_questions after the résumé text is known: the decoded reply, or
      Python's None (JSON null) when the request or the decoding raised. */
  function AskForQuestions(position: Position, resumeText: string, svc: Services): (r: Json)
    ensures svc.generate(SystemPrompt, UserPrompt(position, resumeText)) == Some(r) || r == JNull
    ensures svc.generate(SystemPrompt, UserPrompt(position, resumeText)).None? ==> Iterate(r).None?
  {
    svc.generate(SystemPrompt, UserPrompt(position, resumeText)).GetOr(JNull)
  }

  // ---------------------------------------------------------------------------
  // Saving the questions

  /** The two values one INSERT binds besides the interview id. */
  datatype QuestionRow = QuestionRow(text: string, scoreStandard: Option<string>)

  /** The score standard as bound: a dict is first serialised with `json.dumps`. */
  function ScoreStandardValue(ss: Json): Json
  {
    if ss.JObject? then JStr(Dumps(ss)) else ss
  }

  /** One iteration of save_questions' loop on an item of the reply: the item must
      be a dict with both keys, the question must bind to a non-NULL text (the
      column is NOT NULL) and the score standard must bind at all. */
  function ConvertItem(item: Json): Option<QuestionRow>
  {
    if !item.JObject? then None
    else match Member(item.members, "score_standard")
      case None => None
      case Some(ss) =>
        match Member(item.members, "question")
        case None => None
        case Some(q) =>
          match (BindText(q), BindText(ScoreStandardValue(ss)))
          case (StoredText(text), StoredText(standard)) => Some(QuestionRow(text, Some(standard)))
          case (StoredText(text), StoredNull) => Some(QuestionRow(text, None))
          case _ => None
  }

  /** An item fails exactly when it is not a dict, lacks a key, has a question
      that binds to NULL or not at all, or has a list or an integer outside the
      signed 64-bit range as score standard. */
  lemma ConvertItemFails(item: Json)
    ensures ConvertItem(item).None? <==>
              || !item.JObject?
              || Member(item.members, "score_standard").None?
              || Member(item.members, "question").None?
              || !BindText(Member(item.members, "question").value).StoredText?
              || Member(item.members, "score_standard").value.JArray?
              || (Member(item.members, "score_standard").value.JInt?
                  && !FitsInt64(Member(item.members, "score_standard").value.i))
  {
  }

  /** A converted item stores the question's text, and the score standard as
      given, as NULL for None, as JSON text for a dict, and as the text SQLite's
      TEXT affinity makes of an integer or a boolean. */
  lemma ConvertItemSpec(item: Json)
    ensures ConvertItem(item).Some? ==>
              && BindText(Member(item.members, "question").value) == StoredText(ConvertItem(item).value.text)
              && (var ss := Member(item.members, "score_standard").value;
                  && (ss.JNull? <==> ConvertItem(item).value.scoreStandard.None?)
                  && (ss.JObject? ==> ConvertItem(item).value.scoreStandard == Some(Dumps(ss)))
                  && (ss.JStr? ==> ConvertItem(item).value.scoreStandard == Some(ss.s))
                  && (ss.JInt? ==> ConvertItem(item).value.scoreStandard == Some(IntToString(ss.i)))
                  && (ss.JBool? ==> ConvertItem(item).value.scoreStandard == Some(if ss.b then "1" else "0")))
  {
  }

  /** Every item converts, or the loop raises on the first that does not. */
  function ConvertAll(items: seq<Json>): (r: Option<seq<QuestionRow>>)
    ensures r.None? <==> exists i | 0 <= i < |items| :: ConvertItem(items[i]).None?
    ensures r.Some? ==> |r.value| == |items| && forall i | 0 <= i < |items| :: ConvertItem(items[i]) == Some(r.value[i])
  {
    if forall i | 0 <= i < |items| :: ConvertItem(items[i]).Some? then
      Some(seq(|items|, i requires 0 <= i < |items| => ConvertItem(items[i]).value))
    else None
  }

  lemma ConvertAllOfConverted(items: seq<Json>, rows: seq<QuestionRow>)
    requires |rows| == |items|
    requires forall i | 0 <= i < |items| :: ConvertItem(items[i]) == Some(rows[i])
    ensures ConvertAll(items) == Some(rows)
  {
    assert forall i | 0 <= i < |items| :: ConvertItem(items[i]).Some?;
    var converted := seq(|items|, i requires 0 <= i < |items| => ConvertItem(items[i]).value);
    assert forall i | 0 <= i < |items| :: converted[i] == rows[i];
    assert converted == rows;
  }

  function NewQuestion(id: int, row: QuestionRow, now: int): Question
  {
    Question(id, row.text, row.scoreStandard, None, None, now, None)
  }

  /** One INSERT into interview_questions, under the next AUTOINCREMENT id;
      `created_at` takes its default, the current time. */
  function InsertRow(db: Db, id: int, row: QuestionRow, now: int): Db
  {
    db.(questions := db.questions[db.nextQuestionId := NewQuestion(id, row, now)],
        nextQuestionId := db.nextQuestionId + 1)
  }

  /** The INSERTs of the loop, in order. */
  function InsertRows(db: Db, id: int, rows: seq<QuestionRow>, now: int): Db
    decreases |rows|
  {
    if rows == [] then db
    else InsertRow(InsertRows(db, id, rows[..|rows| - 1], now), id, rows[|rows| - 1], now)
  }

  /** The inserts add row j under id `nextQuestionId + j`, advance the counter by
      the number of rows, keep every question below the old counter, and touch
      nothing else. */
  lemma {:induction false} InsertRowsEffect(db: Db, id: int, rows: seq<QuestionRow>, now: int)
    ensures var d := InsertRows(db, id, rows, now);
            && d == db.(questions := d.questions, nextQuestionId := d.nextQuestionId)
            && d.nextQuestionId == db.nextQuestionId + |rows|
            && (forall k :: k in d.questions <==> k in db.questions || db.nextQuestionId <= k < d.nextQuestionId)
            && (forall k | k in db.questions && k < db.nextQuestionId :: d.questions[k] == db.questions[k])
            && (forall j | 0 <= j < |rows| :: d.questions[db.nextQuestionId + j] == NewQuestion(id, rows[j], now))
    decreases |rows|
  {
    if rows != [] {
      var init := rows[..|rows| - 1];
      InsertRowsEffect(db, id, init, now);
      assert forall j | 0 <= j < |init| :: init[j] == rows[j];
    }
  }

  /** On a well-formed store the inserts add exactly one question per row to the
      interview and none to any other. */
  lemma {:induction false} InsertRowsCounts(db: Db, id: int, rows: seq<QuestionRow>, now: int)
    requires WellFormed(db)
    ensures WellFormed(InsertRows(db, id, rows, now))
    ensures |QuestionIdsOf(InsertRows(db, id, rows, now).questions, id)| == |QuestionIdsOf(db.questions, id)| + |rows|
    ensures forall j | j != id :: QuestionIdsOf(InsertRows(db, id, rows, now).questions, j) == QuestionIdsOf(db.questions, j)
    decreases |rows|
  {
    if rows != [] {
      var init := rows[..|rows| - 1];
      var mid := InsertRows(db, id, init, now);
      InsertRowsCounts(db, id, init, now);
      InsertRowsEffect(db, id, init, now);
      var d := InsertRow(mid, id, rows[|rows| - 1], now);
      assert d == InsertRows(db, id, rows, now);
      var n := mid.nextQuestionId;
      assert n !in mid.questions;
      assert QuestionIdsOf(d.questions, id) == QuestionIdsOf(mid.questions, id) + {n};
      forall j | j != id ensures QuestionIdsOf(d.questions, j) == QuestionIdsOf(mid.questions, j) {
        assert forall k | k in QuestionIdsOf(d.questions, j) :: k in QuestionIdsOf(mid.questions, j);
      }
    }
  }

  /** The inserts change the questions and their counter, nothing else. */
  lemma {:induction false} InsertRowsFrame(db: Db, id: int, rows: seq<QuestionRow>, now: int)
    ensures var d := InsertRows(db, id, rows, now);
            d == db.(questions := d.questions, nextQuestionId := d.nextQuestionId)
    decreases |rows|
  {
    if rows != [] {
      InsertRowsFrame(db, id, rows[..|rows| - 1], now);
    }
  }

  /** The inserted questions have neither an answer text nor an answer time. */
  lemma {:induction false} InsertRowsKeepAnsweredTogether(db: Db, id: int, rows: seq<QuestionRow>, now: int)
    requires AnsweredTogether(db.questions)
    ensures AnsweredTogether(InsertRows(db, id, rows, now).questions)
    decreases |rows|
  {
    if rows != [] {
      InsertRowsKeepAnsweredTogether(db, id, rows[..|rows| - 1], now);
    }
  }

  lemma InsertRowsSnoc(db: Db, id: int, rows: seq<QuestionRow>, row: QuestionRow, now: int)
    ensures InsertRows(db, id, rows + [row], now) == InsertRow(InsertRows(db, id, rows, now), id, row, now)
  {
    assert (rows + [row])[..|rows|] == rows;
  }

  /** The UPDATE after the loop: status 1 and the number of items iterated. */
  function MarkReady(interviews: map<int, Interview>, id: int, count: int): (r: map<int, Interview>)
    ensures r.Keys == interviews.Keys
    ensures forall k | k in interviews && k != id :: r[k] == interviews[k]
    ensures id in interviews ==>
              r[id] == interviews[id].(status := QuestionsReady, questionCount := Some(count))
  {
    if id in interviews then interviews[id := interviews[id].(status := QuestionsReady, questionCount := Some(count))]
    else interviews
  }

  /** save_questions on a reply: the committed store, or None when the loop raised
      and nothing was committed. */
  function SaveEffect(db: Db, id: int, questions: Json, now: int): (r: Option<Db>)
    ensures r.None? <==>
              || Iterate(questions).None?
              || exists i | 0 <= i < |Iterate(questions).value| :: ConvertItem(Iterate(questions).value[i]).None?
    ensures r.Some? ==>
              && r.value.positions == db.positions && r.value.candidates == db.candidates
              && r.value.nextInterviewId == db.nextInterviewId
              && r.value.interviews.Keys == db.interviews.Keys
              && (forall k | k in db.interviews && k != id :: r.value.interviews[k] == db.interviews[k])
              && (id in db.interviews ==>
                    r.value.interviews[id] ==
                      db.interviews[id].(status := QuestionsReady, questionCount := r.value.interviews[id].questionCount))
    ensures r.Some? && WellFormed(db) ==>
              && WellFormed(r.value)
              && (forall k | k in db.questions :: k in r.value.questions && r.value.questions[k] == db.questions[k])
              && (forall j | j != id :: QuestionIdsOf(r.value.questions, j) == QuestionIdsOf(db.questions, j))
              && (id in db.interviews ==>
                    r.value.interviews[id].questionCount ==
                      Some(|QuestionIdsOf(r.value.questions, id)| - |QuestionIdsOf(db.questions, id)|))
  {
    match Iterate(questions)
    case None => None
    case Some(items) =>
      match ConvertAll(items)
      case None => None
      case Some(rows) =>
        var inserted := InsertRows(db, id, rows, now);
        InsertRowsEffect(db, id, rows, now);
        var saved := inserted.(interviews := MarkReady(inserted.interviews, id, |items|));
        if WellFormed(db) then
          InsertRowsCounts(db, id, rows, now);
          Some(saved)
        else Some(saved)
  }

  /** A failed generation hands None to save_questions, which cannot iterate it. */
  lemma NothingGeneratedIsNotSaved(db: Db, id: int, now: int)
    ensures SaveEffect(db, id, JNull, now).None?
  {
  }

  /** The reply format requested is a JSON object, and iterating a dict yields its
      keys, which cannot be indexed by "score_standard": only an empty object saves. */
  lemma {:induction false} ObjectReplyIsSavedOnlyWhenEmpty(db: Db, id: int, members: seq<(string, Json)>, now: int)
    ensures SaveEffect(db, id, JObject(members), now).Some? <==> members == []
  {
    if members != [] {
      var items := Iterate(JObject(members)).value;
      assert ConvertItem(items[0]).None?;
    }
  }

  /** The loop of save_questions: one INSERT per item. When an item raises, the
      uncommitted inserts are rolled back and the result is None. */
  method InsertQuestions(db: Database, id: int, items: seq<Json>, now: int) returns (rows: Option<seq<QuestionRow>>)
    requires db.Valid()
    modifies db
    ensures db.Valid()
    ensures rows == ConvertAll(items)
    ensures rows.Some? ==> db.Snapshot() == InsertRows(old(db.Snapshot()), id, rows.value, now)
    ensures rows.None? ==> db.Snapshot() == old(db.Snapshot())
  {
    var before := db.Snapshot();
    var done: seq<QuestionRow> := [];
    for i := 0 to |items|
      invariant |done| == i
      invariant forall j | 0 <= j < i :: ConvertItem(items[j]) == Some(done[j])
      invariant db.Snapshot() == InsertRows(before, id, done, now)
    {
      var row := ConvertItem(items[i]);
      if row.None? {
        InsertRowsFrame(before, id, done, now);
        db.questions, db.nextQuestionId := before.questions, before.nextQuestionId;
        return None;
      }
      InsertRowsSnoc(before, id, done, row.value, now);
      AppendQuestion(db, id, row.value, now);
      done := done + [row.value];
    }
    ConvertAllOfConverted(items, done);
    InsertRowsCounts(before, id, done, now);
    return Some(done);
  }

  /** One INSERT of the loop: the new row takes the next question id. */
  method AppendQuestion(db: Database, id: int, row: QuestionRow, now: int)
    modifies db
    ensures db.Snapshot() == InsertRow(old(db.Snapshot()), id, row, now)
  {
    db.questions := db.questions[db.nextQuestionId := NewQuestion(id, row, now)];
    db.nextQuestionId := db.nextQuestionId + 1;
  }

  /** save_questions: the INSERTs, then the UPDATE and the commit. */
  method SaveQuestions(db: Database, id: int, questions: Json, now: int) returns (saved: bool)
    requires db.Valid()
    modifies db
    ensures db.Valid()
    ensures saved <==> SaveEffect(old(db.Snapshot()), id, questions, now).Some?
    ensures saved ==> db.Snapshot() == SaveEffect(old(db.Snapshot()), id, questions, now).value
    ensures !saved ==> db.Snapshot() == old(db.Snapshot())
  {
    var items := Iterate(questions);
    if items.None? {
      return false;
    }
    var rows := InsertQuestions(db, id, items.value, now);
    if rows.None? {
      return false;
    }
    db.interviews := MarkReady(db.interviews, id, |items.value|);
    return true;
  }

  // ---------------------------------------------------------------------------
  // The pass

  /** get_pending_interviews: the id and candidate id of every interview at
      status 0, in ascending id order. */
  function PendingInterviews(db: Db): (r: seq<(int, int)>)
    ensures forall i | 0 <= i < |r| ::
              r[i].0 in db.interviews && db.interviews[r[i].0].status == NotStarted
              && r[i].1 == db.interviews[r[i].0].candidateId
    ensures forall k | k in db.interviews && db.interviews[k].status == NotStarted :: k in PendingIds(r)
    ensures forall i, j | 0 <= i < j < |r| :: r[i].0 < r[j].0
  {
    var ids := SortedIds(InterviewsAtStatus(db.interviews, NotStarted));
    assert forall k :: k in ids <==> k in db.interviews && db.interviews[k].status == NotStarted;
    var r := seq(|ids|, i requires 0 <= i < |ids| => (ids[i], db.interviews[ids[i]].candidateId));
    PendingFromIds(db, ids, r);
    r
  }

  lemma PendingFromIds(db: Db, ids: seq<int>, pending: seq<(int, int)>)
    requires forall k :: k in ids <==> k in db.interviews && db.interviews[k].status == NotStarted
    requires forall i, j | 0 <= i < j < |ids| :: ids[i] < ids[j]
    requires |pending| == |ids|
    requires forall i | 0 <= i < |ids| :: ids[i] in db.interviews && pending[i] == (ids[i], db.interviews[ids[i]].candidateId)
    ensures forall i | 0 <= i < |pending| ::
              pending[i].0 in db.interviews && db.interviews[pending[i].0].status == NotStarted
              && pending[i].1 == db.interviews[pending[i].0].candidateId
    ensures forall k | k in db.interviews && db.interviews[k].status == NotStarted :: k in PendingIds(pending)
    ensures forall i, j | 0 <= i < j < |pending| :: pending[i].0 < pending[j].0
  {
    PendingIdsCover(ids, pending);
  }

  lemma PendingIdsCover(ids: seq<int>, pending: seq<(int, int)>)
    requires |pending| == |ids| && forall i | 0 <= i < |ids| :: pending[i].0 == ids[i]
    ensures forall k | k in ids :: k in PendingIds(pending)
  {
    forall k | k in ids ensures k in PendingIds(pending) {
      var i :| 0 <= i < |ids| && ids[i] == k;
      assert pending[i].0 == k;
    }
  }

  function PendingIds(pending: seq<(int, int)>): set<int>
  {
    set i | 0 <= i < |pending| :: pending[i].0
  }

  /** The outcome of one iteration of the loop. */
  datatype StepResult = Skipped | Saved(db: Db) | Failed

  /** One iteration: skipped when the candidate or the position is missing,
      otherwise generate and save; a save that raises ends the pass. */
  function GenerateStep(db: Db, id: int, candidateId: int, svc: Services, now: int): (r: StepResult)
    ensures r.Skipped? <==> !Resolvable(db, candidateId)
  {
    if !Resolvable(db, candidateId) then Skipped
    else
      match SaveEffect(db, id, GeneratedReply(db, candidateId, svc), now)
      case None => Failed
      case Some(d) => Saved(d)
  }

  /** generate_questions for the candidate and the candidate's position. */
  function GeneratedReply(db: Db, candidateId: int, svc: Services): Json
    requires Resolvable(db, candidateId)
  {
    var candidate := db.candidates[candidateId];
    var position := db.positions[candidate.positionId];
    AskForQuestions(position, ResumeText(candidate.resume, svc), svc)
  }

  /** Whether the pass went through the whole list or stopped at an interview
      whose save raised. */
  datatype PassOutcome = Finished | Aborted(interviewId: int)

  datatype PassResult = PassResult(db: Db, outcome: PassOutcome)

  /** The loop of process_pending_interviews over a pending list. */
  function QuestionPass(db: Db, pending: seq<(int, int)>, svc: Services, now: int): PassResult
    decreases |pending|
  {
    if pending == [] then PassResult(db, Finished)
    else match GenerateStep(db, pending[0].0, pending[0].1, svc, now)
      case Skipped => QuestionPass(db, pending[1..], svc, now)
      case Saved(d) => QuestionPass(d, pending[1..], svc, now)
      case Failed => PassResult(db, Aborted(pending[0].0))
  }

  /** process_pending_interviews. An empty pending list returns at once, which
      the loop does as well. */
  method ProcessPendingInterviews(db: Database, svc: Services, now: int) returns (outcome: PassOutcome)
    requires db.Valid()
    modifies db
    ensures db.Valid()
    ensures PassResult(db.Snapshot(), outcome) ==
              QuestionPass(old(db.Snapshot()), PendingInterviews(old(db.Snapshot())), svc, now)
  {
    var pending := PendingInterviews(db.Snapshot());
    outcome := GenerateAll(db, pending, svc, now);
  }

  /** The loop of process_pending_interviews over the list it read. */
  method GenerateAll(db: Database, pending: seq<(int, int)>, svc: Services, now: int) returns (outcome: PassOutcome)
    requires db.Valid()
    modifies db
    ensures db.Valid()
    ensures PassResult(db.Snapshot(), outcome) == QuestionPass(old(db.Snapshot()), pending, svc, now)
  {
    ghost var start := db.Snapshot();
    for i := 0 to |pending|
      invariant db.Valid()
      invariant QuestionPass(start, pending, svc, now) == QuestionPass(db.Snapshot(), pending[i..], svc, now)
    {
      assert pending[i..][1..] == pending[i + 1..];
      var (id, candidateId) := pending[i];
      var failed := GenerateInterview(db, id, candidateId, svc, now);
      if failed {
        return Aborted(id);
      }
      QuestionPassUnfold(db.Snapshot(), pending[i..], svc, now);
    }
    return Finished;
  }

  /** The body of the loop of process_pending_interviews for one interview;
      the result says whether the save raised. */
  method GenerateInterview(db: Database, id: int, candidateId: int, svc: Services, now: int) returns (failed: bool)
    requires db.Valid()
    modifies db
    ensures db.Valid()
    ensures failed <==> GenerateStep(old(db.Snapshot()), id, candidateId, svc, now).Failed?
    ensures failed ==> db.Snapshot() == old(db.Snapshot())
    ensures !failed ==> db.Snapshot() == AfterStep(old(db.Snapshot()), id, candidateId, svc, now)
  {
    if candidateId !in db.candidates {
      return false;
    }
    var candidate := db.candidates[candidateId];
    if candidate.positionId !in db.positions {
      return false;
    }
    var position := db.positions[candidate.positionId];
    var resumeText := ExtractText(candidate.resume, svc);
    var questions := AskForQuestions(position, resumeText, svc);
    var saved := SaveQuestions(db, id, questions, now);
    return !saved;
  }

  lemma {:induction false} QuestionPassKeepsWellFormed(db: Db, pending: seq<(int, int)>, svc: Services, now: int)
    requires WellFormed(db)
    ensures WellFormed(QuestionPass(db, pending, svc, now).db)
    decreases |pending|
  {
    if pending != [] {
      match GenerateStep(db, pending[0].0, pending[0].1, svc, now)
      case Skipped => QuestionPassKeepsWellFormed(db, pending[1..], svc, now);
      case Saved(d) => QuestionPassKeepsWellFormed(d, pending[1..], svc, now);
      case Failed =>
    }
  }

  /** An interview the pass readied: status 1 and a question count, every other
      column as it was. */
  predicate Readied(before: Interview, after: Interview)
  {
    after == before.(status := QuestionsReady, questionCount := after.questionCount)
  }

  lemma PendingIdsCons(pending: seq<(int, int)>)
    requires pending != []
    ensures PendingIds(pending) == {pending[0].0} + PendingIds(pending[1..])
  {
    var rest := pending[1..];
    forall x | x in PendingIds(pending) ensures x in {pending[0].0} + PendingIds(rest) {
      var i :| 0 <= i < |pending| && pending[i].0 == x;
      if i > 0 { assert rest[i - 1].0 == x; }
    }
    forall x | x in PendingIds(rest) ensures x in PendingIds(pending) {
      var i :| 0 <= i < |rest| && rest[i].0 == x;
      assert pending[i + 1].0 == x;
    }
  }

  /** What a pass may change: positions and candidates stay, no interview appears
      or disappears, an interview outside the list is untouched and one on it is
      untouched or readied, existing questions stay as they are, and only the
      interviews on the list gain questions. */
  lemma {:induction false} QuestionPassFrame(db: Db, pending: seq<(int, int)>, svc: Services, now: int)
    requires WellFormed(db)
    ensures var r := QuestionPass(db, pending, svc, now).db;
            && r.positions == db.positions && r.candidates == db.candidates
            && r.interviews.Keys == db.interviews.Keys
            && (forall k | k in db.interviews && k !in PendingIds(pending) :: r.interviews[k] == db.interviews[k])
            && (forall k | k in db.interviews ::
                  r.interviews[k] == db.interviews[k] || Readied(db.interviews[k], r.interviews[k]))
            && (forall k | k in db.questions :: k in r.questions && r.questions[k] == db.questions[k])
            && (forall j | j !in PendingIds(pending) :: QuestionIdsOf(r.questions, j) == QuestionIdsOf(db.questions, j))
    decreases |pending|
  {
    if pending != [] {
      PendingIdsCons(pending);
      match GenerateStep(db, pending[0].0, pending[0].1, svc, now)
      case Skipped => QuestionPassFrame(db, pending[1..], svc, now);
      case Saved(d) => QuestionPassFrame(d, pending[1..], svc, now);
      case Failed =>
    }
  }

  /** Every interview changed between two stores holds, as its question count,
      the number of questions it gained. */
  predicate CountsAgree(before: Db, after: Db)
  {
    forall k | k in before.interviews && k in after.interviews && after.interviews[k] != before.interviews[k] ::
      after.interviews[k].questionCount ==
        Some(|QuestionIdsOf(after.questions, k)| - |QuestionIdsOf(before.questions, k)|)
  }

  /** Every interview a pass changed holds, as its question count, the number of
      questions the pass created for it, provided the list names each interview
      once. */
  lemma {:induction false} QuestionPassCounts(db: Db, pending: seq<(int, int)>, svc: Services, now: int)
    requires WellFormed(db)
    requires forall i, j | 0 <= i < j < |pending| :: pending[i].0 != pending[j].0
    ensures CountsAgree(db, QuestionPass(db, pending, svc, now).db)
    decreases |pending|
  {
    if pending != [] {
      var rest := pending[1..];
      match GenerateStep(db, pending[0].0, pending[0].1, svc, now)
      case Skipped => QuestionPassCounts(db, rest, svc, now);
      case Saved(d) =>
        var id := pending[0].0;
        assert SaveEffect(db, id, GeneratedReply(db, pending[0].1, svc), now) == Some(d);
        QuestionPassCounts(d, rest, svc, now);
        QuestionPassFrame(d, rest, svc, now);
        assert forall i | 0 <= i < |rest| :: rest[i] == pending[i + 1];
        assert id !in PendingIds(rest);
        CountsAfterSave(db, d, QuestionPass(d, rest, svc, now).db, id);
      case Failed =>
    }
  }

  lemma CountsAfterSave(db: Db, d: Db, r: Db, id: int)
    requires d.interviews.Keys == db.interviews.Keys
    requires forall k | k in db.interviews && k != id :: d.interviews[k] == db.interviews[k]
    requires id in db.interviews ==>
               d.interviews[id].questionCount == Some(|QuestionIdsOf(d.questions, id)| - |QuestionIdsOf(db.questions, id)|)
    requires forall j | j != id :: QuestionIdsOf(d.questions, j) == QuestionIdsOf(db.questions, j)
    requires CountsAgree(d, r)
    requires id in d.interviews ==> id in r.interviews && r.interviews[id] == d.interviews[id]
    requires QuestionIdsOf(r.questions, id) == QuestionIdsOf(d.questions, id)
    ensures CountsAgree(db, r)
  {
  }

  /** A pass that went through the whole list left every listed interview whose
      candidate and position exist at status 1. */
  lemma {:induction false} FinishedPassReadiesResolvable(db: Db, pending: seq<(int, int)>, svc: Services, now: int)
    requires WellFormed(db)
    requires forall i | 0 <= i < |pending| :: pending[i].0 in db.interviews
    ensures var res := QuestionPass(db, pending, svc, now);
            res.outcome == Finished ==>
              forall i | 0 <= i < |pending| && Resolvable(db, pending[i].1) ::
                pending[i].0 in res.db.interviews && res.db.interviews[pending[i].0].status == QuestionsReady
    decreases |pending|
  {
    if pending != [] {
      var rest := pending[1..];
      match GenerateStep(db, pending[0].0, pending[0].1, svc, now)
      case Skipped =>
        FinishedPassReadiesResolvable(db, rest, svc, now);
        assert forall i | 1 <= i < |pending| :: pending[i] == rest[i - 1];
      case Saved(d) =>
        FinishedPassReadiesResolvable(d, rest, svc, now);
        QuestionPassFrame(d, rest, svc, now);
        assert forall i | 1 <= i < |pending| :: pending[i] == rest[i - 1];
      case Failed =>
    }
  }

  /** A pass stops only at an interview on its list. */
  lemma {:induction false} AbortIsListed(db: Db, pending: seq<(int, int)>, svc: Services, now: int)
    ensures QuestionPass(db, pending, svc, now).outcome.Aborted? ==>
              QuestionPass(db, pending, svc, now).outcome.interviewId in PendingIds(pending)
    decreases |pending|
  {
    if pending != [] {
      PendingIdsCons(pending);
      match GenerateStep(db, pending[0].0, pending[0].1, svc, now)
      case Skipped => AbortIsListed(db, pending[1..], svc, now);
      case Saved(d) => AbortIsListed(d, pending[1..], svc, now);
      case Failed =>
    }
  }

  /** A pass that stopped at the i-th interview stopped because that interview's
      candidate and position exist and its questions could not be saved; it and
      every interview after it on the list are left as they were. */
  lemma {:induction false} AbortedPassLeavesRestUntouched(
    db: Db, pending: seq<(int, int)>, svc: Services, now: int, i: int)
    requires WellFormed(db)
    requires forall a, b | 0 <= a < b < |pending| :: pending[a].0 != pending[b].0
    requires 0 <= i < |pending|
    requires QuestionPass(db, pending, svc, now).outcome == Aborted(pending[i].0)
    ensures Resolvable(db, pending[i].1)
    ensures var r := QuestionPass(db, pending, svc, now).db;
            forall j | i <= j < |pending| && pending[j].0 in db.interviews ::
              pending[j].0 in r.interviews && r.interviews[pending[j].0] == db.interviews[pending[j].0]
    decreases |pending|
  {
    var rest := pending[1..];
    if !GenerateStep(db, pending[0].0, pending[0].1, svc, now).Failed? {
      var next := AfterStep(db, pending[0].0, pending[0].1, svc, now);
      QuestionPassUnfold(db, pending, svc, now);
      if i == 0 {
        AbortIsListed(next, rest, svc, now);
        assert false;
      }
      AfterStepFrame(db, pending[0].0, pending[0].1, svc, now);
      AbortedPassLeavesRestUntouched(next, rest, svc, now, i - 1);
      assert forall j | 1 <= j < |pending| :: pending[j] == rest[j - 1];
    }
  }

  /** A pass that stopped at the i-th interview keeps what it saved before: every
      earlier interview on the list whose candidate and position exist is at
      status 1, since each save is committed on its own. */
  lemma {:induction false} AbortedPassKeepsEarlierSaves(
    db: Db, pending: seq<(int, int)>, svc: Services, now: int, i: int)
    requires WellFormed(db)
    requires forall a, b | 0 <= a < b < |pending| :: pending[a].0 != pending[b].0
    requires 0 <= i < |pending|
    requires QuestionPass(db, pending, svc, now).outcome == Aborted(pending[i].0)
    ensures var r := QuestionPass(db, pending, svc, now).db;
            forall j | 0 <= j < i && pending[j].0 in db.interviews && Resolvable(db, pending[j].1) ::
              pending[j].0 in r.interviews && r.interviews[pending[j].0].status == QuestionsReady
    decreases |pending|
  {
    var rest := pending[1..];
    if i > 0 && !GenerateStep(db, pending[0].0, pending[0].1, svc, now).Failed? {
      var next := AfterStep(db, pending[0].0, pending[0].1, svc, now);
      QuestionPassUnfold(db, pending, svc, now);
      AfterStepFrame(db, pending[0].0, pending[0].1, svc, now);
      assert forall j | 1 <= j < |pending| :: pending[j] == rest[j - 1];
      assert pending[0].0 !in PendingIds(rest);
      if pending[0].0 in db.interviews {
        UnlistedInterviewUntouched(next, rest, svc, now, pending[0].0);
      }
      AbortedPassKeepsEarlierSaves(next, rest, svc, now, i - 1);
    }
  }

  lemma UnlistedInterviewUntouched(db: Db, pending: seq<(int, int)>, svc: Services, now: int, k: int)
    requires WellFormed(db)
    requires k in db.interviews && k !in PendingIds(pending)
    ensures k in QuestionPass(db, pending, svc, now).db.interviews
    ensures QuestionPass(db, pending, svc, now).db.interviews[k] == db.interviews[k]
  {
    QuestionPassFrame(db, pending, svc, now);
  }

  /** The store after one iteration that did not end the pass. */
  function AfterStep(db: Db, id: int, candidateId: int, svc: Services, now: int): Db
  {
    match GenerateStep(db, id, candidateId, svc, now)
    case Saved(d) => d
    case _ => db
  }

  lemma QuestionPassUnfold(db: Db, pending: seq<(int, int)>, svc: Services, now: int)
    requires pending != [] && !GenerateStep(db, pending[0].0, pending[0].1, svc, now).Failed?
    ensures QuestionPass(db, pending, svc, now) ==
              QuestionPass(AfterStep(db, pending[0].0, pending[0].1, svc, now), pending[1..], svc, now)
  {
  }

  /** One iteration keeps the store well-formed, changes no position, candidate
      or other interview, and a save readies its interview. */
  lemma AfterStepFrame(db: Db, id: int, candidateId: int, svc: Services, now: int)
    requires WellFormed(db)
    ensures var d := AfterStep(db, id, candidateId, svc, now);
            && WellFormed(d) && d.positions == db.positions && d.candidates == db.candidates
            && d.interviews.Keys == db.interviews.Keys
            && (forall k | k in db.interviews && k != id :: d.interviews[k] == db.interviews[k])
            && (GenerateStep(db, id, candidateId, svc, now).Saved? && id in db.interviews ==>
                  d.interviews[id].status == QuestionsReady)
  {
    if GenerateStep(db, id, candidateId, svc, now).Saved? {
      assert SaveEffect(db, id, GeneratedReply(db, candidateId, svc), now).Some?;
    }
  }

  /** On the list process_pending_interviews reads, a pass changes an interview
      only by moving it from status 0 to status 1. */
  lemma PassOnlyAdvancesNotStarted(db: Db, svc: Services, now: int)
    requires WellFormed(db)
    ensures var r := QuestionPass(db, PendingInterviews(db), svc, now).db;
            forall k | k in db.interviews ::
              && k in r.interviews
              && (r.interviews[k] == db.interviews[k]
                  || (db.interviews[k].status == NotStarted && Readied(db.interviews[k], r.interviews[k])))
  {
    var pending := PendingInterviews(db);
    QuestionPassFrame(db, pending, svc, now);
    forall k | k in PendingIds(pending) ensures k in db.interviews && db.interviews[k].status == NotStarted {
      var i :| 0 <= i < |pending| && pending[i].0 == k;
    }
  }

  /** After a pass that was not stopped, an interview still at status 0 is one
      whose candidate or position is missing. */
  lemma FinishedPassLeavesOnlyUnresolvable(db: Db, svc: Services, now: int)
    requires WellFormed(db)
    ensures var res := QuestionPass(db, PendingInterviews(db), svc, now);
            res.outcome == Finished ==>
              forall k | k in res.db.interviews && res.db.interviews[k].status == NotStarted ::
                !Resolvable(res.db, res.db.interviews[k].candidateId)
  {
    var pending := PendingInterviews(db);
    var res := QuestionPass(db, pending, svc, now);
    PassOnlyAdvancesNotStarted(db, svc, now);
    QuestionPassFrame(db, pending, svc, now);
    FinishedPassReadiesResolvable(db, pending, svc, now);
    if res.outcome == Finished {
      forall k | k in res.db.interviews && res.db.interviews[k].status == NotStarted
        ensures !Resolvable(res.db, res.db.interviews[k].candidateId)
      {
        assert res.db.interviews[k] == db.interviews[k];
        assert k in PendingIds(pending);
        var i :| 0 <= i < |pending| && pending[i].0 == k;
      }
    }
  }

  /** On that list every interview appears once, so each one the pass changed
      holds the number of questions created for it. */
  lemma PassCountsMatchQuestions(db: Db, svc: Services, now: int)
    requires WellFormed(db)
    ensures CountsAgree(db, QuestionPass(db, PendingInterviews(db), svc, now).db)
  {
    QuestionPassCounts(db, PendingInterviews(db), svc, now);
  }

  /** A generation request that raises makes that interview's step fail, which
      ends the pass. */
  lemma GenerationFailureFailsStep(db: Db, id: int, candidateId: int, svc: Services, now: int)
    requires Resolvable(db, candidateId)
    requires var candidate := db.candidates[candidateId];
             svc.generate(SystemPrompt, UserPrompt(db.positions[candidate.positionId], ResumeText(candidate.resume, svc))).None?
    ensures GenerateStep(db, id, candidateId, svc, now) == Failed
  {
    NothingGeneratedIsNotSaved(db, id, now);
  }

  /** An interview whose candidate or position is missing leaves the pass without
      any change to it or to its questions, provided the list names each interview
      once. */
  lemma {:induction false} UnresolvableInterviewsUntouched(db: Db, pending: seq<(int, int)>, svc: Services, now: int)
    requires WellFormed(db)
    requires forall i, j | 0 <= i < j < |pending| :: pending[i].0 != pending[j].0
    ensures var r := QuestionPass(db, pending, svc, now).db;
            forall i | 0 <= i < |pending| && pending[i].0 in db.interviews && !Resolvable(db, pending[i].1) ::
              && pending[i].0 in r.interviews
              && r.interviews[pending[i].0] == db.interviews[pending[i].0]
              && QuestionIdsOf(r.questions, pending[i].0) == QuestionIdsOf(db.questions, pending[i].0)
    decreases |pending|
  {
    if pending != [] {
      var rest := pending[1..];
      assert forall i | 0 <= i < |rest| :: rest[i] == pending[i + 1];
      match GenerateStep(db, pending[0].0, pending[0].1, svc, now)
      case Skipped =>
        UnresolvableInterviewsUntouched(db, rest, svc, now);
        QuestionPassFrame(db, rest, svc, now);
        assert pending[0].0 !in PendingIds(rest);
      case Saved(d) =>
        assert SaveEffect(db, pending[0].0, GeneratedReply(db, pending[0].1, svc), now) == Some(d);
        UnresolvableInterviewsUntouched(d, rest, svc, now);
      case Failed =>
    }
  }
}
