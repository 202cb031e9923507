# AI interview system: the interview lifecycle

This project models the interview lifecycle of an AI-driven hiring-interview system, with proofs.

An interview row moves through these status codes:

| code | meaning |
|---|---|
| 0 | not started |
| 1 | questions ready |
| 2 | in progress |
| 3 | interview finished |
| 4 | report ready |

Four parts of the code act on interview rows:

- **The candidate's session** (`app/server.py`, the routes keyed by the interview token):
  - a candidate opens the interview link that carries a token;
  - the candidate may ask for the interview's information and switch the voice-reading flag;
  - the candidate is served the interview's questions in ascending id order;
  - the candidate submits a spoken answer to a question, which is transcribed and stored; a second submission for the same question overwrites the stored answer;
  - after an answer to the last question, the interview is marked finished (status 3) when every question has an answer.
- **The staff side of the server** (`app/server.py`):
  - issues tokens when an interview is created or edited;
  - deletes an interview together with its questions.
- **The question-generation pass** (`app/generate_interview_questions.py`):
  - picks up every interview at status 0;
  - extracts the candidate's résumé text;
  - asks the language model for questions and saves one row per question;
  - moves the interview to status 1 with its question count.
- **The report pass** (`app/generate_interview_reports.py`):
  - picks up every interview at status 3;
  - builds the evaluation prompt from the questions and answers;
  - asks the language model for an evaluation (an empty one when that fails);
  - renders the report and stores it with status 4.

## Modules

| file | module | contents |
|---|---|---|
| `schema.dfy` | `Schema` | The four tables as Dafny values (`Position`, `Candidate`, `Interview`, `Question`, `Db`) and the status codes. Also the store `Database`: a class whose map fields and AUTOINCREMENT counters the handlers update in place. |
| `server.dfy` | `Server` | Two kinds of member. Read-only queries are pure functions: token lookup, next question, info. Handlers are methods that change the store, each proved equal to a function of the old store. |
| `question_generation.dfy` | `QuestionGeneration` | The résumé-text fallback chain, the generation request, `save_questions` with its insert loop and rollback, and the pass. |
| `report_generation.dfy` | `ReportGeneration` | The selectors, the prompt assembly loop, the fallback evaluation, the report update and the pass. |
| `json.dfy` | `Json` | The part of Python's JSON and sqlite3 behaviour that `save_questions` depends on: `json.dumps`, iteration over a decoded value, dict lookup and parameter binding. |
| `util.dfy` | `Util` | `Option`, least element and ascending order of id sets, integer printing, string joining, Python's `str.isspace` and `str.strip`, and substring occurrence (`Contains`). |

How the model is set up:

- **External services are parameters.** Function-valued fields in a `Services` value (or a plain function argument) stand for each of these:
  - speech transcription;
  - the PDF reader;
  - UTF-8 decoding;
  - the chat-completion calls together with their `json.loads`;
  - PDF rendering.
  
  A service that may raise returns an `Option`.
- **Time and tokens are parameters.** The current time, the report date and the generated token are passed in.
- **A pass is a fold.** A pass is modelled as a head-recursive function over the list the pass reads. Each pass method's loop is proved against that function. Lemmas then state what the fold guarantees.

## Model

| member | source | states |
|---|---|---|
| Schema.Database.constructor | app/create_interview_system_db.py:8-61 | A new store is empty, well-formed, and both AUTOINCREMENT counters start at 1. |
| Server.LookupToken | app/server.py:284-288 | None exactly when no interview holds the token. Otherwise the result holds the token and is the smallest such id. |
| Server.LookupTokenDependsOnTokensOnly | app/server.py:324-328 | Two tables with the same ids and the same tokens resolve every token alike. So a submission, which changes no id and no token, never changes who the token belongs to. |
| Server.FirstQuestion | app/server.py:292-300 | The result is a question of the interview, and the lowest-id one. None exactly when the interview has no question. |
| Server.NextQuestion | app/server.py:303-309 | The result is a question of the same interview with an id strictly above the cursor, and the smallest such id. None exactly when every question of the interview is at or below the cursor. |
| Server.GetQuestion | app/server.py:277-317 | An unknown token, and only that, gives status 404 with the "invalid interview" body. Otherwise the reply `Serves` the token's interview: it is the lowest eligible question (any question at cursor 0, one with a higher id otherwise), with its text. The "finished" sentinel comes exactly when no question is eligible. Questions of other interviews are never returned. |
| Server.ZeroCursorIsFirstQuestion | app/server.py:292-309 | Ids start at 1, so the `id > 0` query selects the same row as the first-question query. |
| Server.RecordAnswer | app/server.py:350-354 | Only the row whose id is the question id and whose interview is the token's interview changes. On that row only the audio, the transcript and the answer time change, to the given values. A question id of another interview, or one that does not exist, changes nothing. |
| Server.RecordAnswerKeepsAnsweredTogether | app/server.py:350-354 | Recording an answer writes the transcript and the answer time together, so if every question had an answer time exactly when it had a transcript, that still holds afterwards. |
| Server.RecordAnswerKeepsQuestionIds | app/server.py:350-354 | Recording an answer never moves a question between interviews. |
| Server.TallyMatchesMeansAllAnswered | app/server.py:370-377 | The COUNT/SUM check holds iff the interview has at least one question and all of its questions are answered. SUM over no rows is NULL. |
| Server.CompletionRule | app/server.py:368-379 | Status 3 is written iff three things hold: no question of the interview has an id above the submitted one, there is at least one question, and all of them are answered. |
| Server.AfterSubmit | app/server.py:350-379 | After a submission the questions are `RecordAnswer`'s result. Other interviews and all other tables are unchanged. The token's interview differs at most in its status. That status is 3 exactly when the completion rule fires, whatever it was before (so 4 can go back to 3), and unchanged otherwise. Well-formedness is kept. |
| Server.SubmitAnswer | app/server.py:320-394 | Three cases. An unknown token gives 404 and the store unchanged. A missing question id or audio gives 400 and the store unchanged. Otherwise the new store is `AfterSubmit` of the old one, and the reply carries the next question of the updated store, or the "finished" sentinel. Status 200, and the "answer stored" message, come exactly in the last case. |
| Server.SubmitReplyAgreesWithGetQuestion | app/server.py:357-391 | The `next_question` in the reply is what get_question returns on the updated store with the submitted id as cursor, including for id 0. |
| Server.AnsweringLastCompletes | app/server.py:368-379 | Suppose the question answered is the highest-id question of the interview and all the others are answered. Then the interview goes to status 3 whatever its status was, and no next question is served. |
| Server.AnsweringEarlierKeepsStatus | app/server.py:357-379 | While a question with a higher id exists, a submission leaves the status alone, even when every question is answered. The next question served is at or below that one. |
| Server.SetVoiceReading | app/server.py:399-405 | Every interview holding the token gets `voice_reading` 1 when enabled and 0 otherwise. No other column and no other row changes, and no row appears or disappears. |
| Server.Truthy | app/server.py:400-405 | The flag written by `1 if enabled else 0`: false exactly for null, false, 0, the empty string, the empty list and the empty dict. |
| Server.SetVoiceReadingIdempotent | app/server.py:404-405 | Setting the same value twice equals setting it once. |
| Server.ToggleVoiceReading | app/server.py:397-409 | The store changes exactly as `SetVoiceReading` with the truthiness of `enabled` (default false). The reply echoes the value as sent, whether or not any row matched. |
| Server.DeleteCascade | app/server.py:226-229 | The interview and exactly its questions disappear. Every other interview and question is unchanged. Other interviews keep their question sets. Well-formedness is kept. |
| Server.DeleteInterview | app/server.py:220-233 | The new store is `DeleteCascade` of the old one. |
| Server.TimeLabelOf | app/server.py:260-263 | "Not scheduled" exactly when `start_time` is NULL or 0. Otherwise the label carries the stored `start_time` itself. |
| Server.GetInfo | app/server.py:236-274 | 404 (and only then the not-found reply) iff no interview holding the token has both its candidate and that candidate's position (the inner JOINs). Otherwise the reply holds that interview's id, status, question count, voice-reading flag and time label, with the candidate's name and the position's name. Such an interview is also found by the plain token lookup. |
| Server.InsertInterview | app/server.py:167-170 | The row is added under the next AUTOINCREMENT id, which was free, and no other row changes. The interview counter advances by one, and the other tables and the question counter stay. Well-formedness is kept. |
| Server.CreateInterview | app/server.py:161-173 | The new store is the old one with the request's row and the generated token inserted. All other columns are NULL. |
| Server.CreatedInterviewIsReachable | app/server.py:164-170 | When no existing interview holds the new token, looking the token up finds the created interview. |
| Server.UpdateInterviewRow | app/server.py:181-184 | Only the row with that id changes, and only if it exists. It gets the request's candidate, interviewer, start time, status and pass flag and the new token. Every other column, among them the question count, the report and the voice-reading flag, stays. |
| Server.UpdateInterview | app/server.py:175-187 | The new store is the old one with `UpdateInterviewRow` applied. |
| Server.UpdateRevokesOldToken | app/server.py:178-184 | Suppose the interview's old token is its own and the new token differs. After an edit, get_question with the old token answers "invalid interview". |
| Json.Member | app/generate_interview_questions.py:155-162 | A dict lookup finds a value exactly when some member has that key. The value found is that of the first member with the key. |
| Json.Dumps | app/generate_interview_questions.py:157 | The text is never empty. A string is written in double quotes, a list in brackets, a dict in braces. A string with no quote, backslash or control character is written as itself between quotes (`ensure_ascii=False` keeps other characters). |
| Json.DumpsHoldsMembers | app/generate_interview_questions.py:157 | A dict's text contains, for each member, the quoted key, ": " and the member value's own text. A list's text contains each item's text. |
| Json.DumpsObjectCons | app/generate_interview_questions.py:157 | A dict's text member by member: `{}` when empty, `{"key": value}` for one member, and otherwise the first member, ", " and the rest's text without its opening brace. |
| Json.DumpsArrayCons | app/generate_interview_questions.py:157 | A list's text item by item in the same way: `[]`, `[item]`, or the first item, ", " and the rest's text without its opening bracket. |
| Json.EscapeKeepsPlainText | app/generate_interview_questions.py:157 | Escaping leaves a string with no quote, backslash or control character unchanged. |
| Json.Iterate | app/generate_interview_questions.py:153 | A `for` loop runs over a list (its items), a dict (its keys, in order) or a string (its one-character strings, in order). Any other value raises. |
| Json.BindText | app/generate_interview_questions.py:159-162 | sqlite3 parameter binding into a TEXT column: None binds NULL, a string binds as itself, an integer in the signed 64-bit range as its decimal text and a boolean as "1" or "0". A list or dict cannot be bound, and neither can an integer outside that range (sqlite3 raises OverflowError). |
| Util.BlankIffStripsToEmpty | app/generate_interview_questions.py:42 | `not text.strip()` holds exactly when every character of the text is whitespace (`IsBlank`). |
| QuestionGeneration.JoinedPagesBlankIffPagesBlank | app/generate_interview_questions.py:36-43 | The text the page loop accumulates is blank iff every page's text is blank. |
| QuestionGeneration.ResumeText | app/generate_interview_questions.py:23-54 | No résumé, or empty bytes, gives "无简历内容". A résumé the parser rejects gives its UTF-8 decoding. A parsed résumé gives a text that is never blank. That text is "无法从PDF中提取文本内容" iff every page is blank, and otherwise it is the pages' text, each page followed by a newline. |
| QuestionGeneration.ExtractText | app/generate_interview_questions.py:23-54 | The page loop returns `ResumeText`. |
| QuestionGeneration.UserPromptMentions | app/generate_interview_questions.py:131 | The user message carries the position's name, its requirements and responsibilities (as "None" when NULL) and the résumé text. |
| QuestionGeneration.AskForQuestions | app/generate_interview_questions.py:107-145 | The result is the decoded reply, or None when the request or the decoding raised. In that case the result cannot be iterated, so saving it fails. |
| QuestionGeneration.ConvertItemFails | app/generate_interview_questions.py:153-162 | An item raises iff one of these holds: it is not a dict, it lacks `score_standard`, it lacks `question`, its question does not bind as text (the column is NOT NULL), its score standard is a list, or its score standard is an integer outside the signed 64-bit range. |
| QuestionGeneration.ConvertItemSpec | app/generate_interview_questions.py:153-162 | A converted item stores the question text. It stores the score standard as given for a string, as NULL for None, as `json.dumps` text for a dict, and as the text the TEXT column makes of an integer (its decimal digits) or a boolean ("1" or "0"). |
| QuestionGeneration.ConvertAll | app/generate_interview_questions.py:153-162 | The loop raises iff some item raises. Otherwise there is one row per item, in list order. |
| QuestionGeneration.InsertRowsEffect | app/generate_interview_questions.py:159-162 | Rows are inserted in order: row j under the id `nextQuestionId + j`. The counter advances by the number of rows. Earlier questions and all other tables are unchanged. |
| QuestionGeneration.InsertRowsCounts | app/generate_interview_questions.py:153-162 | On a well-formed store, the interview gains exactly one question per row and no other interview gains any. Well-formedness is kept. |
| QuestionGeneration.InsertRowsKeepAnsweredTogether | app/generate_interview_questions.py:159-162 | Inserted questions have neither a transcript nor an answer time, so if every question had an answer time exactly when it had a transcript, that still holds afterwards. |
| QuestionGeneration.MarkReady | app/generate_interview_questions.py:165-167 | Only the interview with that id changes. It gets status 1 and the item count. |
| QuestionGeneration.SaveEffect | app/generate_interview_questions.py:149-170 | The save fails (None, nothing committed) iff the reply cannot be iterated or some item raises. On success, other tables and other interviews are unchanged, and the interview differs only in status 1 and its count. Existing questions stay. Only this interview gains questions, and its count equals the number it gained. |
| QuestionGeneration.NothingGeneratedIsNotSaved | app/generate_interview_questions.py:144-153 | A failed generation yields None, and saving None fails. |
| QuestionGeneration.ObjectReplyIsSavedOnlyWhenEmpty | app/generate_interview_questions.py:133-155 | A JSON-object reply (the format requested) saves iff it is the empty object. Iterating a dict yields strings, which cannot be indexed by key. |
| QuestionGeneration.InsertQuestions | app/generate_interview_questions.py:153-162 | The insert loop returns `ConvertAll` of the items. On success the store is the old one with those rows inserted. When an item raises, the store is rolled back to the old one. The store stays well-formed. |
| QuestionGeneration.SaveQuestions | app/generate_interview_questions.py:149-170 | Returns true iff `SaveEffect` succeeds. The new store is `SaveEffect`'s store, or the old store on failure. The store stays well-formed. |
| QuestionGeneration.PendingInterviews | app/generate_interview_questions.py:61-74 | Lists every interview at status 0, each once, in ascending id order, with its candidate id, and nothing else. |
| QuestionGeneration.GenerateStep | app/generate_interview_questions.py:188-210 | An interview is skipped iff its candidate or its candidate's position is missing. |
| QuestionGeneration.GenerationFailureFailsStep | app/generate_interview_questions.py:144-153 | A generation request that raises makes the save fail, so the step fails and the pass stops there. |
| QuestionGeneration.ProcessPendingInterviews | app/generate_interview_questions.py:173-213 | The new store and the outcome are those of `QuestionPass` over the status-0 list of the old store. Well-formedness is kept. |
| QuestionGeneration.GenerateAll | app/generate_interview_questions.py:185-213 | The loop over a given list ends with the store and outcome of `QuestionPass` over that list. Well-formedness is kept. |
| QuestionGeneration.GenerateInterview | app/generate_interview_questions.py:186-210 | One iteration fails iff `GenerateStep` fails, and then leaves the store as it was. Otherwise the store is the one after that step. Well-formedness is kept. |
| QuestionGeneration.AfterStepFrame | app/generate_interview_questions.py:186-210 | One iteration keeps the store well-formed. It changes no position, no candidate and no other interview, and a save leaves its interview at status 1. |
| QuestionGeneration.QuestionPassKeepsWellFormed | app/generate_interview_questions.py:185-210 | A pass keeps the store well-formed. |
| QuestionGeneration.QuestionPassFrame | app/generate_interview_questions.py:185-210 | Positions and candidates stay, and no interview appears or disappears. Unlisted interviews are untouched. A listed one is untouched or only gets status 1 and a count. Existing questions stay, and only listed interviews gain questions. |
| QuestionGeneration.QuestionPassCounts | app/generate_interview_questions.py:164-167 | When the list names each interview once, every interview the pass changed has a `question_count` equal to the number of questions it gained. |
| QuestionGeneration.FinishedPassReadiesResolvable | app/generate_interview_questions.py:185-210 | After a pass that was not stopped, every listed interview whose candidate and position exist is at status 1. |
| QuestionGeneration.AbortedPassLeavesRestUntouched | app/generate_interview_questions.py:185-213 | When the pass stops at the i-th interview, that interview's candidate and position exist. That interview and every later one on the list are left as they were. |
| QuestionGeneration.AbortedPassKeepsEarlierSaves | app/generate_interview_questions.py:169-213 | When the pass stops at the i-th interview, each earlier interview on the list whose candidate and position exist is at status 1: every save was committed on its own. |
| QuestionGeneration.AbortIsListed | app/generate_interview_questions.py:185-213 | A pass can stop only at an interview on its list. |
| QuestionGeneration.UnresolvableInterviewsUntouched | app/generate_interview_questions.py:189-200 | An interview with a missing candidate or position is left unchanged, and so are its questions. |
| QuestionGeneration.PassOnlyAdvancesNotStarted | app/generate_interview_questions.py:66-70 | A pass changes an interview only by moving it from status 0 to status 1 with a count. |
| QuestionGeneration.FinishedPassLeavesOnlyUnresolvable | app/generate_interview_questions.py:185-210 | After a pass that was not stopped, any interview still at status 0 has a missing candidate or position. |
| QuestionGeneration.PassCountsMatchQuestions | app/generate_interview_questions.py:165-167 | Over the list the pass reads, each changed interview's count equals the number of questions it gained. |
| ReportGeneration.InterviewQuestionIds | app/generate_interview_reports.py:74-78 | Exactly the ids of the interview's questions, each once, in ascending order. |
| ReportGeneration.InterviewQuestions | app/generate_interview_reports.py:68-80 | The interview's rows in that order, each belonging to the interview. |
| ReportGeneration.PromptHeaderMentions | app/generate_interview_reports.py:96-103 | The opening of the prompt names the candidate, the position and the interviewer ("None" when NULL). |
| ReportGeneration.QuestionBlockMentions | app/generate_interview_reports.py:106-112 | A question's block carries its number, the question, the score standard and the answer ("None" when NULL). |
| ReportGeneration.QuestionNumbering | app/generate_interview_reports.py:106-112 | The i-th fetched question appears as block number i + 1. It comes after the blocks of the questions before it and before those of the ones after it. |
| ReportGeneration.EvaluationPromptShape | app/generate_interview_reports.py:96-136 | The prompt opens with the header, closes with the requested-format footer, and holds the block of the i-th question under number i + 1. |
| ReportGeneration.EvaluationPromptNames | app/generate_interview_reports.py:96-103 | The prompt names the candidate and the position. |
| ReportGeneration.EvaluationPromptCarriesAnswers | app/generate_interview_reports.py:106-112 | For every question the prompt carries its text, its score standard and the candidate's answer. |
| ReportGeneration.ModelOutputFor | app/generate_interview_reports.py:138-176 | The output carries the candidate name, position name, interviewer and date as given. It carries the decoded evaluation, or `{}` when the request or the decoding failed. |
| ReportGeneration.CallAiModel | app/generate_interview_reports.py:82-176 | The prompt loop and the request return `ModelOutputFor`. |
| ReportGeneration.SetReport | app/generate_interview_reports.py:273-277 | Only the interview with that id changes. It gets the report and status 4. |
| ReportGeneration.UpdateInterviewReport | app/generate_interview_reports.py:268-280 | The new store is the old one with `SetReport` applied. The store stays well-formed. |
| ReportGeneration.CompletedInterviews | app/generate_interview_reports.py:24-36 | Lists every interview at status 3, each once, in ascending id order, with its candidate and interviewer, and nothing else. |
| ReportGeneration.ReportFor | app/generate_interview_reports.py:299-325 | An interview whose candidate or position is missing gets no report. Otherwise the report is the rendering of the evaluation of that interview's own questions, with the candidate's and the position's names, the interviewer and the date. |
| ReportGeneration.ReportPass | app/generate_interview_reports.py:295-334 | No interview appears or disappears, and each one is either as it was or has a report and status 4, every other column kept. |
| ReportGeneration.ProcessPendingReports | app/generate_interview_reports.py:282-334 | The new store is `ReportPass` over the status-3 list of the old store. Well-formedness is kept. |
| ReportGeneration.ReportInterview | app/generate_interview_reports.py:296-330 | One iteration leaves the store that `ReportFor` dictates: unchanged when the candidate or position is missing or nothing is rendered, and otherwise the report stored at status 4. Well-formedness is kept. |
| ReportGeneration.ReportPassFrame | app/generate_interview_reports.py:295-334 | A pass changes only interviews and keeps their ids. Unlisted interviews are untouched. |
| ReportGeneration.ReportPassEffect | app/generate_interview_reports.py:295-334 | When each interview is listed once, each listed one ends as its own iteration left it: the iterations do not affect one another. |
| ReportGeneration.PendingReportsOutcome | app/generate_interview_reports.py:282-334 | An interview not at status 3 is untouched. One at status 3 either gets its report and status 4 or stays unchanged. It stays when its candidate or position is missing or rendering raised, and is retried by the next pass. |
| ReportGeneration.EvaluationFailureStillReports | app/generate_interview_reports.py:165-176 | When the evaluation request fails, the report is rendered from an empty evaluation and stored if rendering succeeds. |

## Left out

- **Flask, CORS and request parsing.** Request fields arrive as typed parameters. Missing JSON keys (`KeyError`) and malformed request bodies are not modelled.
- **Speech transcription.** Whisper and the temporary file are the `transcribe` function. Its errors are not modelled.
- **The chat-completion service.** Both requests and `json.loads` are oracles of the system and user messages. An oracle returns None for any exception. The oracle is deterministic, so two identical requests get the same reply.
- **PDF reading.** PyPDF2 is the `parse` oracle: the text of each page, or None when it raises.
- **UTF-8 decoding.** `decode('utf-8', errors='ignore')` is the `decode` oracle. It cannot raise on bytes, so the "无法解析简历内容" fallback is never reached. A résumé stored as TEXT rather than BLOB is not modelled.
- **Report rendering.** Jinja and WeasyPrint are the `render` oracle; None stands for an exception.
- **Dates and times.**
  - `datetime` formatting is left as is: `TimeLabelOf` keeps the raw timestamp, and the report date is a string parameter.
  - A pass receives one `now` for all its inserts. `created_at` is set to that `now`, since the clock does not advance within the model.
- **Token generation.** The `secrets` randomness is out of scope. The token is a parameter, and `IsToken` (32 ASCII letters or digits) stands for `generate_token`'s output.
- **Scheduling and concurrency.** The scheduler threads, `time.sleep` loops and `__main__` blocks are out of scope, and so is concurrency between the two pollers and the request handlers. One pass is one method call.
- **Record management.** Position and candidate CRUD, the interview listing, and the résumé and report downloads are plain record management.
- **Database errors.** SQLite errors other than those the model states (NOT NULL on `question`, unbindable values) are out of scope.
- **Floating-point JSON numbers.** JSON numbers are integers only.
- **`status` column type.** The column is nullable in the DDL; the model gives every interview an integer status.
- **Server.LookupToken, Server.GetInfo:** an unordered `fetchone()` with several matching rows is taken to return the smallest id (rowid scan order). For the info query this assumes the join is planned over `interviews` first.
- **Server.GetInfo:** the query also selects the candidate's email and the position's requirements. The reply never shows them, so they are not modelled.
- **Server.SubmitAnswer:** `question_id` is form text, which SQLite compares with the integer `id` as a number. It is modelled as an integer: None for a missing or empty field, and non-numeric text is not modelled. A file part sent with an empty filename counts as missing audio, as `FileStorage` truthiness makes it.
- **QuestionGeneration.PendingInterviews, ReportGeneration.CompletedInterviews, ReportGeneration.InterviewQuestions:** these SELECTs have no `ORDER BY`. They are modelled in ascending id order, the order SQLite returns for a plain rowid scan. So for the report prompt the block numbering follows the fetched order, modelled as id order.
- **Json.Member:** a `JObject` may list a key twice, but a dict built by `json.loads` keeps only the last value for a key. `Member` returns the first, so replies with duplicate keys are not modelled as Python reads them.
