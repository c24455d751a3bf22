/**
 * The machine-learning routes of apps/backend/src/routes/ml.ts: the local
 * copy of `parseModelOutput`, the presence checks on the request body, the
 * `count` defaults, and the re-parsing of string results. A request body is
 * a decoded JSON value; a handler's answer is a status and a JSON body.
 */
module MlRoutes {
  import opened Outcome
  import opened Json
  import opened Environment
  import opened Http
  import ModelOutput
  import Tasks

  // ---------------------------------------------------------------- parseModelOutput (ml.ts)

  /** The TypeError of reading `generated_text` from the first element when it is `undefined` or `null`. */
  function NoFirstRecord(first: Option<Json>): Error {
    Error("Cannot read properties of " + (if first.None? then "undefined" else "null") + " (reading 'generated_text')")
  }

  /**
   * The local `parseModelOutput(raw)`: `null` (None) for a falsy value, a
   * string as it is, otherwise a truthy `generated_text` or `summary_text` of
   * the first array element or of the object, otherwise the JSON text of the
   * whole value. An empty array, or one whose first element is `null`,
   * throws on the field read.
   */
  function MlParseModelOutput(raw: Json): (r: Result<Option<Json>>)
    ensures r == Ok(None) <==> !Truthy(raw)
    ensures r.Throw? <==> raw.JArr? && (raw.items == [] || raw.items[0] == JNull)
    ensures r.Ok? && r.value.Some? ==> Truthy(r.value.value) || (raw.JArr? && raw.items[0] == JStr(""))
  {
    if !Truthy(raw) then Ok(None)
    else if raw.JStr? then Ok(Some(raw))
    else if raw.JArr? then
      var first := if raw.items == [] then None else Some(raw.items[0]);
      if first.None? || first.value == JNull then Throw(NoFirstRecord(first))
      else if first.value.JStr? then Ok(Some(first.value))
      else if ModelOutput.TextField(first.value).Some? then Ok(ModelOutput.TextField(first.value))
      else Ok(Some(JStr(Stringify(raw))))
    else if ModelOutput.TextField(raw).Some? then Ok(ModelOutput.TextField(raw))
    else Ok(Some(JStr(Stringify(raw))))
  }

  /**
   * Each branch of the local `parseModelOutput`, for every truthy input: a
   * string is returned as it is; an array is read through its first element
   * (the element itself when it is a string, else its text field, else the
   * JSON text of the whole array); any other value through its text field,
   * else its JSON text.
   */
  lemma MlParseModelOutputCases(raw: Json)
    ensures raw.JStr? && Truthy(raw) ==> MlParseModelOutput(raw) == Ok(Some(raw))
    ensures raw.JArr? && raw.items != [] && raw.items[0].JStr? ==> MlParseModelOutput(raw) == Ok(Some(raw.items[0]))
    ensures raw.JArr? && raw.items != [] && raw.items[0] != JNull && !raw.items[0].JStr? ==>
      MlParseModelOutput(raw) ==
        if ModelOutput.TextField(raw.items[0]).Some? then Ok(ModelOutput.TextField(raw.items[0]))
        else Ok(Some(JStr(Stringify(raw))))
    ensures Truthy(raw) && !raw.JStr? && !raw.JArr? ==>
      MlParseModelOutput(raw) ==
        if ModelOutput.TextField(raw).Some? then Ok(ModelOutput.TextField(raw)) else Ok(Some(JStr(Stringify(raw))))
  {
  }

  /**
   * On a non-empty string, on an object, and on an array whose first record
   * is a non-empty string or carries a text field, both copies agree.
   */
  lemma CopiesAgreeOnTexts(raw: Json)
    requires || (raw.JStr? && raw.s != [])
             || (raw.JObj? && ModelOutput.TextField(raw).Some?)
             || (raw.JArr? && raw.items != [] && Truthy(raw.items[0]) &&
                 (raw.items[0].JStr? || ModelOutput.TextField(raw.items[0]).Some?))
    ensures MlParseModelOutput(raw) == Ok(Some(ModelOutput.ParseModelOutput(raw)))
  {
    if raw.JArr? {
      assert ModelOutput.ParseModelOutput(raw) ==
        (if raw.items[0].JStr? then raw.items[0] else ModelOutput.TextField(raw.items[0]).value);
    }
  }

  /**
   * Where the copies part: `null` gives `null` here and `""` there; an
   * array whose first record has neither a text field nor string values
   * gives the JSON text of the whole array here and of that record alone
   * there; and an array whose first element is `""` gives `""` here and the
   * array's JSON text there.
   */
  lemma CopiesDiffer(record: Json)
    requires record.JObj? && ModelOutput.TextField(record).None? && ModelOutput.JoinedStrings(record) == []
    ensures MlParseModelOutput(JNull) == Ok(None) && ModelOutput.ParseModelOutput(JNull) == JStr("")
    ensures MlParseModelOutput(JArr([record])) == Ok(Some(JStr(Stringify(JArr([record])))))
    ensures ModelOutput.ParseModelOutput(JArr([record])) == JStr(Stringify(record))
    ensures Stringify(record) != Stringify(JArr([record]))
    ensures MlParseModelOutput(JArr([JStr("")])) == Ok(Some(JStr("")))
    ensures ModelOutput.ParseModelOutput(JArr([JStr("")])) == JStr(Stringify(JArr([JStr("")])))
  {
    assert Stringify(JArr([record]))[0] == '[';
    assert Stringify(record)[0] == '{';
  }

  // ---------------------------------------------------------------- the handlers

  /** A failure answer: a status other than 200 and the body `{ error }` with a non-empty message. */
  predicate IsFailure(r: Response) {
    && r.status != 200
    && r.body.JObj? && |r.body.fields| == 1 && r.body.fields[0].0 == "error"
    && r.body.fields[0].1.JStr? && r.body.fields[0].1.s != []
  }

  /** A success answer: status 200 and the body `{ key: value }`. */
  predicate IsAnswer(r: Response, key: string) {
    r.status == 200 && r.body.JObj? && |r.body.fields| == 1 && r.body.fields[0].0 == key
  }

  /**
   * `res.status(500).json({ error: err.message || fallback })`: a failure
   * whose message is never empty, the error's own when it has one.
   */
  function ServerError(e: Error, fallback: string): (r: Response)
    requires fallback != []
    ensures r.status == 500 && IsFailure(r)
    ensures e.message != [] ==> r.body == Field("error", JStr(e.message))
  {
    ErrorResponse(500, if e.message != [] then e.message else fallback)
  }

  const TEXT_REQUIRED := "text required"
  const TEXT_AND_QUESTION_REQUIRED := "text and question required"

  function BadRequest(message: string): Response {
    ErrorResponse(400, message)
  }

  /**
   * The services declare `text: string`, but the body's `text` is passed
   * through unchecked: a truthy non-string reaches `input.replace` in
   * `redactSensitive`, which throws.
   */
  function TextArgument(text: Json): Result<string> {
    if text.JStr? then Ok(text.s) else Throw(Error("input.replace is not a function"))
  }

  /**
   * `count || fallback`: the count a service receives is never falsy, and a
   * truthy count passes unchanged.
   */
  function RouteCount(count: Option<Json>, fallback: int): (r: Json)
    requires fallback != 0
    ensures Truthy(r)
    ensures TruthyOpt(count) ==> r == count.value
  {
    if TruthyOpt(count) then count.value else JNum(fallback)
  }

  /**
   * The services the handlers call: the three tasks of hf.ts and
   * `JSON.parse`. `Backend(env, svc)` wires them to the model of hf.ts.
   */
  datatype Services = Services(
    summarize: string -> Result<Json>,
    quiz: (string, Option<Json>) -> Result<Json>,
    flashcards: (string, Option<Json>) -> Result<Json>,
    parse: string -> Option<Json>)

  function Backend(env: Env, svc: Tasks.Services): Services {
    Services(
      text => Tasks.SummarizeText(env, svc, text),
      (text, count) => Tasks.GenerateQuiz(env, svc, text, count),
      (text, count) => Tasks.GenerateFlashcards(env, svc, text, count),
      svc.parse)
  }

  /**
   * A string result is returned parsed when it parses and as it is
   * otherwise; any other result passes through.
   */
  function Reparse(api: Services, out: Json): Json {
    if out.JStr? && api.parse(out.s).Some? then api.parse(out.s).value else out
  }

  /** `GET /status`: `{ hfConfigured }`, true exactly when `HF_API_KEY` is defined and not empty. */
  function Status(env: Env): (r: Response)
    ensures IsAnswer(r, "hfConfigured") && r.body.fields[0].1.JBool?
    ensures r.body.fields[0].1.b <==> "HF_API_KEY" in env && env["HF_API_KEY"] != ""
  {
    Response(200, Field("hfConfigured", JBool(IsSet(Var(env, "HF_API_KEY")))))
  }

  /**
   * `POST /summarize`: 400 exactly for a missing or falsy `text`; 200 with a
   * string summary exactly when `text` is a string and the service
   * succeeds; a failure with a message otherwise.
   */
  function Summarize(api: Services, body: Json): (r: Response)
    ensures r.status == 400 <==> !TruthyOpt(Get(body, "text"))
    ensures r.status == 200 <==> TruthyOpt(Get(body, "text")) && Get(body, "text").value.JStr? &&
                                 api.summarize(Get(body, "text").value.s).Ok?
    ensures r.status == 200 ==> IsAnswer(r, "summary") && r.body.fields[0].1.JStr?
    ensures r.status != 200 ==> IsFailure(r) && (r.status == 400 || r.status == 500)
  {
    var text := Get(body, "text");
    if !TruthyOpt(text) then BadRequest(TEXT_REQUIRED)
    else
      var arg := TextArgument(text.value);
      if arg.Throw? then ServerError(arg.error, "summarization failed")
      else
        var out := api.summarize(arg.value);
        if out.Throw? then ServerError(out.error, "summarization failed")
        else Response(200, Field("summary", JStr(if out.value.JStr? then out.value.s else Stringify(out.value))))
  }

  /**
   * `POST /quiz`: 400 exactly for a missing or falsy `text`; 200 with the
   * re-parsed quiz exactly when `text` is a string and the service, given
   * a truthy count, succeeds; a failure with a message otherwise.
   */
  function Quiz(api: Services, body: Json): (r: Response)
    ensures r.status == 400 <==> !TruthyOpt(Get(body, "text"))
    ensures r.status == 200 <==> TruthyOpt(Get(body, "text")) && Get(body, "text").value.JStr? &&
                                 api.quiz(Get(body, "text").value.s, Some(RouteCount(Get(body, "count"), 5))).Ok?
    ensures r.status == 200 ==> IsAnswer(r, "quiz")
    ensures r.status != 200 ==> IsFailure(r) && (r.status == 400 || r.status == 500)
  {
    var text := Get(body, "text");
    if !TruthyOpt(text) then BadRequest(TEXT_REQUIRED)
    else
      var arg := TextArgument(text.value);
      if arg.Throw? then ServerError(arg.error, "quiz generation failed")
      else
        var out := api.quiz(arg.value, Some(RouteCount(Get(body, "count"), 5)));
        if out.Throw? then ServerError(out.error, "quiz generation failed")
        else Response(200, Field("quiz", Reparse(api, out.value)))
  }

  /**
   * `POST /flashcards`: 400 exactly for a missing or falsy `text`; 200 with
   * the re-parsed cards exactly when `text` is a string and the service,
   * given a truthy count, succeeds; a failure with a message otherwise.
   */
  function Flashcards(api: Services, body: Json): (r: Response)
    ensures r.status == 400 <==> !TruthyOpt(Get(body, "text"))
    ensures r.status == 200 <==> TruthyOpt(Get(body, "text")) && Get(body, "text").value.JStr? &&
                                 api.flashcards(Get(body, "text").value.s, Some(RouteCount(Get(body, "count"), 10))).Ok?
    ensures r.status == 200 ==> IsAnswer(r, "flashcards")
    ensures r.status != 200 ==> IsFailure(r) && (r.status == 400 || r.status == 500)
  {
    var text := Get(body, "text");
    if !TruthyOpt(text) then BadRequest(TEXT_REQUIRED)
    else
      var arg := TextArgument(text.value);
      if arg.Throw? then ServerError(arg.error, "flashcard generation failed")
      else
        var out := api.flashcards(arg.value, Some(RouteCount(Get(body, "count"), 10)));
        if out.Throw? then ServerError(out.error, "flashcard generation failed")
        else Response(200, Field("flashcards", Reparse(api, out.value)))
  }

  /**
   * `POST /upload`, given the uploaded file's path, if any, and the
   * document reader: 400 exactly when no file came, 200 with the content
   * exactly when it was read, and a failure with a message otherwise.
   */
  function Upload(file: Option<string>, processDocument: string -> Result<Json>): (r: Response)
    ensures r.status == 400 <==> file.None?
    ensures r.status == 200 <==> file.Some? && processDocument(file.value).Ok?
    ensures r.status == 200 ==> r == Response(200, Field("content", processDocument(file.value).value))
    ensures r.status != 200 ==> IsFailure(r) && (r.status == 400 || r.status == 500)
  {
    if file.None? then BadRequest("No file uploaded")
    else
      var content := processDocument(file.value);
      if content.Throw? then ServerError(content.error, "File processing failed")
      else Response(200, Field("content", content.value))
  }

  /**
   * `POST /qa`, with the question-answering call as a parameter: 200 with
   * the answer exactly when both inputs are truthy and the call succeeds,
   * and a failure with a message otherwise.
   */
  function Qa(body: Json, qa: (Json, Json) -> Result<Json>): (r: Response)
    ensures r.status == 200 <==> TruthyOpt(Get(body, "text")) && TruthyOpt(Get(body, "question")) &&
                                 qa(Get(body, "text").value, Get(body, "question").value).Ok?
    ensures r.status == 200 ==> IsAnswer(r, "answer")
    ensures r.status != 200 ==> IsFailure(r) && (r.status == 400 || r.status == 500)
  {
    var text := Get(body, "text");
    var question := Get(body, "question");
    if !TruthyOpt(text) || !TruthyOpt(question) then BadRequest(TEXT_AND_QUESTION_REQUIRED)
    else
      var answer := qa(text.value, question.value);
      if answer.Throw? then ServerError(answer.error, "Q&A failed")
      else Response(200, Field("answer", answer.value))
  }

  /** A request without a truthy `text` is refused with 400 before any service is called; with one it never is. */
  lemma TextRequired(api: Services, body: Json)
    ensures !TruthyOpt(Get(body, "text")) <==> Summarize(api, body) == BadRequest(TEXT_REQUIRED)
    ensures !TruthyOpt(Get(body, "text")) <==> Quiz(api, body) == BadRequest(TEXT_REQUIRED)
    ensures !TruthyOpt(Get(body, "text")) <==> Flashcards(api, body) == BadRequest(TEXT_REQUIRED)
  {
  }

  /** Q&A is refused with 400 exactly when `text` or `question` is missing or falsy. */
  lemma QaInputsRequired(body: Json, qa: (Json, Json) -> Result<Json>)
    ensures Qa(body, qa).status == 400 <==> !TruthyOpt(Get(body, "text")) || !TruthyOpt(Get(body, "question"))
    ensures Qa(body, qa).status == 400 ==> Qa(body, qa) == BadRequest(TEXT_AND_QUESTION_REQUIRED)
  {
  }

  /**
   * A falsy count, 0 included, is replaced by the route's default, which is
   * also the service's own default: two requests that differ only in falsy
   * counts get the same answer.
   */
  lemma FalsyCountsAlike(api: Services, b1: Json, b2: Json)
    requires Get(b1, "text") == Get(b2, "text")
    requires !TruthyOpt(Get(b1, "count")) && !TruthyOpt(Get(b2, "count"))
    ensures Quiz(api, b1) == Quiz(api, b2)
    ensures Flashcards(api, b1) == Flashcards(api, b2)
    ensures RouteCount(Get(b1, "count"), 5) == Tasks.CountOrDefault(None, 5)
    ensures RouteCount(Get(b1, "count"), 10) == Tasks.CountOrDefault(None, 10)
  {
  }

  /**
   * With a string `text`, the quiz and flashcard routes answer 200 with the
   * service's result, re-parsed, or 500 with the service's error message.
   */
  lemma GenerationAnswer(api: Services, body: Json, text: string)
    requires Get(body, "text") == Some(JStr(text)) && text != []
    ensures var out := api.quiz(text, Some(RouteCount(Get(body, "count"), 5)));
      && (out.Ok? ==> Quiz(api, body) == Response(200, Field("quiz", Reparse(api, out.value))))
      && (out.Throw? ==> Quiz(api, body) == ServerError(out.error, "quiz generation failed"))
    ensures var out := api.flashcards(text, Some(RouteCount(Get(body, "count"), 10)));
      && (out.Ok? ==> Flashcards(api, body) == Response(200, Field("flashcards", Reparse(api, out.value))))
      && (out.Throw? ==> Flashcards(api, body) == ServerError(out.error, "flashcard generation failed"))
  {
  }

  /** A summary is always answered as a string: the result itself, or its JSON text. */
  lemma SummaryIsString(api: Services, body: Json)
    ensures Summarize(api, body).status == 200 ==>
      exists s :: Summarize(api, body).body == Field("summary", JStr(s))
  {
  }

  /**
   * A service that hands back its JSON as text has it delivered as the JSON
   * value, whenever `JSON.parse` reads that text back; a result that is
   * not a string is delivered unchanged.
   */
  lemma ReparseRecoversJson(api: Services, v: Json, out: Json)
    requires api.parse(Stringify(v)) == Some(v)
    requires !out.JStr?
    ensures Reparse(api, JStr(Stringify(v))) == v
    ensures Reparse(api, out) == out
  {
  }

  /** A truthy `text` that is not a string makes the services throw before any request. */
  lemma NonStringText(api: Services, body: Json)
    requires TruthyOpt(Get(body, "text")) && !Get(body, "text").value.JStr?
    ensures Summarize(api, body) == ServerError(Error("input.replace is not a function"), "summarization failed")
    ensures Quiz(api, body) == ServerError(Error("input.replace is not a function"), "quiz generation failed")
    ensures Flashcards(api, body) == ServerError(Error("input.replace is not a function"), "flashcard generation failed")
  {
  }
}
