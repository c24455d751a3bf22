/**
 * The three generation tasks of apps/backend/src/services/hf.ts:
 * `summarizeText`, and the escalation ladders of `generateQuiz` and
 * `generateFlashcards` (model fallback, JSON parse, text formats, JSON
 * coercion by the model, Gemini). The outside world is a `Services` value:
 * the inference API answering a request for a model and a payload, the
 * Gemini HTTP exchange, and `JSON.parse` on a string (None when it throws).
 * An inference request also carries its attempt number within the retry
 * sequence it belongs to (the candidates of `tryModels`, the primary and
 * fallback model of `summarizeText`), so asking the same model twice may
 * give two different outcomes; the single coercion request is attempt 0.
 */
module Tasks {
  import opened Outcome
  import opened Text
  import opened Json
  import opened Environment
  import opened Redact
  import opened ModelOutput
  import opened Echo
  import opened ModelFallback
  import opened Gemini
  import QuizParser
  import FlashcardParser

  /** `{ inputs, parameters: { max_new_tokens, temperature: 0.0 } }`. */
  datatype Payload = Payload(inputs: string, maxNewTokens: int)

  datatype Services = Services(
    hf: (string, Payload, nat) -> Result<Json>,
    gemini: Request -> Result<Reply>,
    parse: string -> Option<Json>)

  /** `JSON.parse(v)`, which converts a non-string argument with `String(v)` first. */
  function JsonParse(svc: Services, v: Json): Option<Json> {
    svc.parse(ToJsString(v))
  }

  // ---------------------------------------------------------------- summarizeText

  const HF_SUMMARY_MODEL := "HF_SUMMARY_MODEL"
  const HF_SUMMARY_FALLBACK := "HF_SUMMARY_FALLBACK"
  const DEFAULT_SUMMARY_MODEL := "facebook/bart-large-cnn"
  const DEFAULT_SUMMARY_FALLBACK := "google/flan-t5-large"
  const SUMMARY_MAX_NEW_TOKENS := 200

  /** `HF_SUMMARY_MODEL || HF_MODEL || 'facebook/bart-large-cnn'`. */
  function SummaryModel(env: Env): string {
    OrDefault(Or(Var(env, HF_SUMMARY_MODEL), Var(env, HF_MODEL)), DEFAULT_SUMMARY_MODEL)
  }

  /** `HF_SUMMARY_FALLBACK || 'google/flan-t5-large'`. */
  function SummaryFallback(env: Env): string {
    OrDefault(Var(env, HF_SUMMARY_FALLBACK), DEFAULT_SUMMARY_FALLBACK)
  }

  const SUMMARY_INSTRUCTION := "Summarize the following text in 3-5 concise sentences. Do not include links, emails, or promotional text. Output only the summary. Text:\n\n"

  function InstructionPrompt(clean: string): string {
    SUMMARY_INSTRUCTION + clean
  }

  /** `/bart|pegasus|summar/i.test(model)`. */
  predicate IsSummarizationModel(model: string) {
    ContainsCI(model, "bart") || ContainsCI(model, "pegasus") || ContainsCI(model, "summar")
  }

  /** A summarisation model gets the text itself, any other model the instruction prompt. */
  function SummaryPayload(summarizer: bool, clean: string): Payload {
    if summarizer then Payload(clean, SUMMARY_MAX_NEW_TOKENS)
    else Payload(InstructionPrompt(clean), SUMMARY_MAX_NEW_TOKENS)
  }

  /** The prompt whose echo is stripped: none for a summarisation model. */
  function UsedPrompt(summarizer: bool, clean: string): Option<string> {
    if summarizer then None else Some(InstructionPrompt(clean))
  }

  /**
   * `stripEchoedPrompt(summary, usedPrompt)` on the normalised response: the
   * helper as written, or the corrected one of `Echo` when `corrected`. A
   * falsy value is returned as is; a truthy value that is not a string has
   * no `trim` or `replace`, which throws.
   */
  function StripSummary(summary: Json, usedPrompt: Option<string>, corrected: bool): Result<Json> {
    if !Truthy(summary) then Ok(summary)
    else if !summary.JStr? then
      Throw(Error(if Given(usedPrompt) then "s.replace is not a function" else "output.trim is not a function"))
    else if corrected then Ok(JStr(StripEchoedPromptFixed(summary.s, usedPrompt)))
    else Ok(JStr(StripEchoedPrompt(summary.s, usedPrompt)))
  }

  /** The response of the primary model, or of the fallback model (attempt 1) when the primary request throws. */
  function SummaryResponse(env: Env, svc: Services, payload: Payload): Result<Json> {
    var first := svc.hf(SummaryModel(env), payload, 0);
    if first.Ok? then first else svc.hf(SummaryFallback(env), payload, 1)
  }

  /** The request `summarizeText` makes for `text`, which depends on whether the model is a summariser. */
  function SummaryRequest(env: Env, text: string): Payload {
    SummaryPayload(IsSummarizationModel(SummaryModel(env)), RedactSensitive(text))
  }

  /** The prompt whose echo `summarizeText` strips for `text`. */
  function SummaryPrompt(env: Env, text: string): Option<string> {
    UsedPrompt(IsSummarizationModel(SummaryModel(env)), RedactSensitive(text))
  }

  /**
   * `summarizeText(text)`: a trimmed string, or the error of the fallback
   * request when both requests throw.
   */
  function SummarizeText(env: Env, svc: Services, text: string): (r: Result<Json>)
    ensures r.Ok? ==> r.value.JStr? && Trimmed(r.value.s)
    ensures SummaryResponse(env, svc, SummaryRequest(env, text)).Throw? ==>
      r == Throw(SummaryResponse(env, svc, SummaryRequest(env, text)).error)
  {
    var out := SummaryResponse(env, svc, SummaryRequest(env, text));
    SummaryIsTrimmed(out, SummaryPrompt(env, text), false);
    SummaryOf(out, SummaryPrompt(env, text), false)
  }

  /** `summarizeText` with the corrected echo stripper of `Echo`: the same guarantees. */
  function SummarizeTextFixed(env: Env, svc: Services, text: string): (r: Result<Json>)
    ensures r.Ok? ==> r.value.JStr? && Trimmed(r.value.s)
    ensures SummaryResponse(env, svc, SummaryRequest(env, text)).Throw? ==>
      r == Throw(SummaryResponse(env, svc, SummaryRequest(env, text)).error)
  {
    var out := SummaryResponse(env, svc, SummaryRequest(env, text));
    SummaryIsTrimmed(out, SummaryPrompt(env, text), true);
    SummaryOf(out, SummaryPrompt(env, text), true)
  }

  /** The summary drawn from the inference response; a request that threw leaves `summarizeText` uncaught. */
  function SummaryOf(out: Result<Json>, usedPrompt: Option<string>, corrected: bool): Result<Json> {
    if out.Throw? then Throw(out.error)
    else StripSummary(ParseModelOutput(out.value), usedPrompt, corrected)
  }

  /**
   * The model and the fallback come from the environment in the order
   * `HF_SUMMARY_MODEL`, `HF_MODEL`, the default; the fallback is asked, with
   * the same payload, only when the primary request throws, and as a new
   * attempt even when it names the same model.
   */
  lemma SummaryModels(env: Env, svc: Services, payload: Payload)
    ensures IsSet(Var(env, HF_SUMMARY_MODEL)) ==> SummaryModel(env) == env[HF_SUMMARY_MODEL]
    ensures !IsSet(Var(env, HF_SUMMARY_MODEL)) && IsSet(Var(env, HF_MODEL)) ==> SummaryModel(env) == env[HF_MODEL]
    ensures !IsSet(Var(env, HF_SUMMARY_MODEL)) && !IsSet(Var(env, HF_MODEL)) ==> SummaryModel(env) == DEFAULT_SUMMARY_MODEL
    ensures svc.hf(SummaryModel(env), payload, 0).Ok? ==> SummaryResponse(env, svc, payload) == svc.hf(SummaryModel(env), payload, 0)
    ensures svc.hf(SummaryModel(env), payload, 0).Throw? ==> SummaryResponse(env, svc, payload) == svc.hf(SummaryFallback(env), payload, 1)
  {
  }

  /** The default model is a summarisation model, so it is sent the text without instructions. */
  lemma DefaultModelGetsRawText(clean: string)
    ensures IsSummarizationModel(DEFAULT_SUMMARY_MODEL)
    ensures SummaryPayload(IsSummarizationModel(DEFAULT_SUMMARY_MODEL), clean).inputs == clean
    ensures UsedPrompt(IsSummarizationModel(DEFAULT_SUMMARY_MODEL), clean) == None
  {
    assert DEFAULT_SUMMARY_MODEL[9..][..4] == "bart";
    ContainsAt(DEFAULT_SUMMARY_MODEL, "bart", 9);
  }

  /**
   * The prompt whose echo is stripped is exactly what was sent: either the
   * model got the text alone and nothing is stripped but white space, or it
   * got the instruction prompt and that prompt is the one looked for.
   */
  lemma StrippedPromptIsSentPrompt(summarizer: bool, clean: string)
    ensures UsedPrompt(summarizer, clean).None? ==> SummaryPayload(summarizer, clean).inputs == clean
    ensures UsedPrompt(summarizer, clean).Some? ==>
      UsedPrompt(summarizer, clean).value == SummaryPayload(summarizer, clean).inputs == InstructionPrompt(clean)
    ensures SummaryPayload(summarizer, clean).maxNewTokens == SUMMARY_MAX_NEW_TOKENS
  {
  }

  /**
   * A summary is a trimmed string, with either helper; a truthy non-string
   * text field of the response makes `summarizeText` throw, and the error
   * of a failed request passes through.
   */
  lemma SummaryIsTrimmed(out: Result<Json>, usedPrompt: Option<string>, corrected: bool)
    ensures out.Throw? ==> SummaryOf(out, usedPrompt, corrected) == Throw(out.error)
    ensures SummaryOf(out, usedPrompt, corrected).Ok? ==> SummaryOf(out, usedPrompt, corrected).value.JStr?
    ensures SummaryOf(out, usedPrompt, corrected).Ok? ==> Trimmed(SummaryOf(out, usedPrompt, corrected).value.s)
  {
    if out.Ok? {
      var summary := ParseModelOutput(out.value);
      if Truthy(summary) && summary.JStr? {
        StripResultTrimmed(summary.s, usedPrompt);
      } else if !Truthy(summary) {
        ResultIsStringOrTextField(out.value);
      }
    }
  }

  /** A non-empty string response is handed to the echo stripper unchanged. */
  lemma SummaryOfText(o: string, usedPrompt: Option<string>)
    requires o != []
    ensures SummaryOf(Ok(JStr(o)), usedPrompt, false) == Ok(JStr(StripEchoedPrompt(o, usedPrompt)))
    ensures SummaryOf(Ok(JStr(o)), usedPrompt, true) == Ok(JStr(StripEchoedPromptFixed(o, usedPrompt)))
  {
    assert ParseModelOutput(JStr(o)) == JStr(o);
    assert Truthy(JStr(o));
  }

  /**
   * With the corrected helper, a response that repeats the instruction
   * prompt verbatim is cut after it, whatever the text summarised.
   */
  lemma FixedSummaryDropsEcho(clean: string, rest: string)
    ensures SummaryOf(Ok(JStr(InstructionPrompt(clean) + rest)), Some(InstructionPrompt(clean)), true) ==
      Ok(JStr(Trim(StripLead(rest))))
  {
    var p := InstructionPrompt(clean);
    assert |SUMMARY_INSTRUCTION| > 0;
    SummaryOfText(p + rest, Some(p));
    FixedStripsVerbatimEcho(p, rest);
  }

  // ---------------------------------------------------------------- coerceJson

  const COERCE_MAX_NEW_TOKENS := 600

  const COERCE_INSTRUCTION := "Convert the following model output into valid JSON. Output ONLY valid JSON.\n\n"

  function CoercePrompt(rawText: Json): string {
    COERCE_INSTRUCTION + ToJsString(rawText)
  }

  /**
   * `coerceJson(model, rawText)`: one more request, asking the model to
   * rewrite its output as JSON. It throws exactly when that request does,
   * and otherwise gives a string or a truthy text field.
   */
  function CoerceJson(svc: Services, model: string, rawText: Json): (r: Result<Json>)
    ensures r.Throw? <==> svc.hf(model, Payload(CoercePrompt(rawText), COERCE_MAX_NEW_TOKENS), 0).Throw?
    ensures r.Ok? ==> r.value.JStr? || Truthy(r.value)
  {
    var out := svc.hf(model, Payload(CoercePrompt(rawText), COERCE_MAX_NEW_TOKENS), 0);
    if out.Throw? then Throw(out.error) else Ok(ParseModelOutput(out.value))
  }

  /** `JSON.parse(await coerceJson(model, raw))`, None when either step throws. */
  function Coerced(svc: Services, model: string, raw: Json): Option<Json> {
    var c := CoerceJson(svc, model, raw);
    if c.Ok? then JsonParse(svc, c.value) else None
  }

  // ---------------------------------------------------------------- the ladders

  const GEMINI_MODEL := "gemini-1.5-flash"
  const LADDER_MAX_NEW_TOKENS := 700

  /** A count that is `undefined` takes the parameter's default. */
  function CountOrDefault(count: Option<Json>, default: int): Json {
    if count.Some? then count.value else JNum(default)
  }

  /** `tryModels(models, payload)` against the inference API: the `n`-th candidate is attempt `n`. */
  function Attempts(svc: Services, models: seq<string>, payload: Payload): Result<Attempted> {
    FirstSuccess(models, (m: string, n: nat) => svc.hf(m, payload, n), 0, None)
  }

  const QUIZ_EXAMPLE := "[START OF EXAMPLE]\nContext: The Moon is Earth's only natural satellite. It is the fifth largest satellite in the Solar System. The dark areas on its surface are called maria.\nQuiz:\nQ: What is the Moon's status relative to Earth?\nA) A man-made satellite\nB) A natural satellite\nC) A dwarf planet\nD) A star\nAnswer: B\nQ: The dark areas on the Moon's surface are known as what?\nA) Craters\nB) Valleys\nC) Maria\nD) Highlands\nAnswer: C\n[END OF EXAMPLE]"

  const FLASHCARD_EXAMPLE := "[START OF EXAMPLE]\nContext: The Moon is Earth's only natural satellite. It is the fifth largest satellite in the Solar System. The dark areas on its surface are called maria.\nFlashcards:\nFlashcard 1:\nFront: What is Earth's only natural satellite?\nBack: The Moon\nFlashcard 2:\nFront: What are the dark areas on the Moon's surface called?\nBack: Maria\n[END OF EXAMPLE]"

  const TASK_CONTEXT := "\n\n[START OF TASK]\nContext: "
  const TASK_COUNT := "\n\nGenerate exactly "
  const QUIZ_TASK := " multiple-choice questions in the same format. Each question must have 4 options (A-D) and indicate the correct Answer.\n\nQuiz:"
  const FLASHCARD_TASK := " flashcards in the same format.\n\nFlashcards:"

  function QuizPrompt(clean: string, count: Json): string {
    QUIZ_EXAMPLE + TASK_CONTEXT + clean + TASK_COUNT + ToJsString(count) + QUIZ_TASK
  }

  function FlashcardPrompt(clean: string, count: Json): string {
    FLASHCARD_EXAMPLE + TASK_CONTEXT + clean + TASK_COUNT + ToJsString(count) + FLASHCARD_TASK
  }

  /** The objects `{ question, choices, answerIndex }` the quiz parser pushes. */
  function QuizJson(items: seq<QuizParser.QuizItem>): Json {
    JArr(seq(|items|, i requires 0 <= i < |items| =>
      JObj([("question", JStr(items[i].question)),
            ("choices", JArr(seq(|items[i].choices|, k requires 0 <= k < |items[i].choices| => JStr(items[i].choices[k])))),
            ("answerIndex", JNum(items[i].answerIndex))])))
  }

  /** The objects `{ question, answer }` the flashcard parsers push. */
  function CardsJson(cards: seq<FlashcardParser.Card>): Json {
    JArr(seq(|cards|, i requires 0 <= i < |cards| =>
      JObj([("question", JStr(cards[i].question)), ("answer", JStr(cards[i].answer))])))
  }

  /**
   * The last rung of `generateQuiz`: Gemini when `GEMINI_API_KEY` is set.
   * Its output is returned parsed as JSON, else as questions read by
   * `parseQAFormat`, else as it is; a failing Gemini call, or an output the
   * parser cannot take (not a string), gives the raw Hugging Face text.
   * Nothing here throws.
   */
  function QuizGeminiRung(env: Env, svc: Services, prompt: string, raw: Json): Json {
    if !IsSet(Var(env, GEMINI_API_KEY)) then raw
    else
      var g := GenerateWithDefaults(env, GEMINI_MODEL, prompt, svc.gemini);
      if g.Throw? then raw
      else if JsonParse(svc, g.value).Some? then JsonParse(svc, g.value).value
      else if !Truthy(g.value) then g.value
      else if !g.value.JStr? then raw
      else
        var parsed := QuizParser.ParseQA(g.value.s);
        if parsed.Some? then QuizJson(parsed.value) else g.value
  }

  /**
   * `generateQuiz(text, count)`: it throws only when every candidate model
   * failed, with the error `tryModels` threw; once a model answered, it
   * returns a value.
   */
  function GenerateQuiz(env: Env, svc: Services, text: string, count: Option<Json>): (r: Result<Json>)
    ensures var tried := QuizAttempts(env, svc, text, count);
      (tried.Throw? ==> r == Throw(tried.error)) && (tried.Ok? ==> r.Ok?)
  {
    var tried := QuizAttempts(env, svc, text, count);
    QuizLadder(env, svc, QuizPrompt(RedactSensitive(text), CountOrDefault(count, 5)), tried)
  }

  /** The ladder's first rung: the candidate models asked in turn with the redacted prompt. */
  function QuizAttempts(env: Env, svc: Services, text: string, count: Option<Json>): Result<Attempted> {
    Attempts(svc, CandidateModels(env), Payload(QuizPrompt(RedactSensitive(text), CountOrDefault(count, 5)), LADDER_MAX_NEW_TOKENS))
  }

  /** What `generateQuiz` does with the outcome of `tryModels`. */
  function QuizLadder(env: Env, svc: Services, prompt: string, tried: Result<Attempted>): (r: Result<Json>)
    ensures tried.Throw? ==> r == Throw(tried.error)
    ensures tried.Ok? ==> r.Ok?
  {
    if tried.Throw? then Throw(tried.error)
    else
      var raw := ParseModelOutput(tried.value.out);
      if JsonParse(svc, raw).Some? then Ok(JsonParse(svc, raw).value)
      else if Coerced(svc, tried.value.model, raw).Some? then Ok(Coerced(svc, tried.value.model, raw).value)
      else Ok(QuizGeminiRung(env, svc, prompt, raw))
  }

  /** The last rung of `generateFlashcards`, with the second copy of the parser. */
  function FlashcardGeminiRung(env: Env, svc: Services, prompt: string, raw: Json): Json {
    if !IsSet(Var(env, GEMINI_API_KEY)) then raw
    else
      var g := GenerateWithDefaults(env, GEMINI_MODEL, prompt, svc.gemini);
      if g.Throw? then raw
      else if JsonParse(svc, g.value).Some? then JsonParse(svc, g.value).value
      else if !Truthy(g.value) then g.value
      else if !g.value.JStr? then raw
      else
        var parsed := FlashcardParser.ParseSecond(g.value.s);
        if parsed.Some? then CardsJson(parsed.value) else g.value
  }

  /**
   * The `try` block of `generateFlashcards` once the raw text failed to
   * parse as JSON: the first copy of the flashcard parser, then the JSON
   * coercion. A raw value the parser cannot take (truthy, not a string)
   * throws there and, like a failed coercion, leads to the Gemini rung.
   */
  function FlashcardHfRung(env: Env, svc: Services, prompt: string, model: string, raw: Json): Json {
    if Truthy(raw) && !raw.JStr? then FlashcardGeminiRung(env, svc, prompt, raw)
    else
      var parsed := if raw.JStr? then FlashcardParser.ParseFirst(raw.s) else None;
      if parsed.Some? then CardsJson(parsed.value)
      else if Coerced(svc, model, raw).Some? then Coerced(svc, model, raw).value
      else FlashcardGeminiRung(env, svc, prompt, raw)
  }

  /**
   * `generateFlashcards(text, count)`: it throws only when every candidate
   * model failed, with the error `tryModels` threw; once a model answered,
   * it returns a value.
   */
  function GenerateFlashcards(env: Env, svc: Services, text: string, count: Option<Json>): (r: Result<Json>)
    ensures var tried := FlashcardAttempts(env, svc, text, count);
      (tried.Throw? ==> r == Throw(tried.error)) && (tried.Ok? ==> r.Ok?)
  {
    var tried := FlashcardAttempts(env, svc, text, count);
    FlashcardLadder(env, svc, FlashcardPrompt(RedactSensitive(text), CountOrDefault(count, 10)), tried)
  }

  /** The ladder's first rung: the candidate models asked in turn with the redacted prompt. */
  function FlashcardAttempts(env: Env, svc: Services, text: string, count: Option<Json>): Result<Attempted> {
    Attempts(svc, CandidateModels(env), Payload(FlashcardPrompt(RedactSensitive(text), CountOrDefault(count, 10)), LADDER_MAX_NEW_TOKENS))
  }

  /** What `generateFlashcards` does with the outcome of `tryModels`. */
  function FlashcardLadder(env: Env, svc: Services, prompt: string, tried: Result<Attempted>): (r: Result<Json>)
    ensures tried.Throw? ==> r == Throw(tried.error)
    ensures tried.Ok? ==> r.Ok?
  {
    if tried.Throw? then Throw(tried.error)
    else
      var raw := ParseModelOutput(tried.value.out);
      if JsonParse(svc, raw).Some? then Ok(JsonParse(svc, raw).value)
      else Ok(FlashcardHfRung(env, svc, prompt, tried.value.model, raw))
  }

  /** Once a model answered, an answer that parses as JSON is returned parsed by both tasks. */
  lemma AnsweredTasksSucceed(env: Env, svc: Services, prompt: string, tried: Result<Attempted>)
    requires tried.Ok?
    ensures var parsed := JsonParse(svc, ParseModelOutput(tried.value.out));
      parsed.Some? ==> QuizLadder(env, svc, prompt, tried) == Ok(parsed.value) &&
                       FlashcardLadder(env, svc, prompt, tried) == Ok(parsed.value)
  {
  }

  /**
   * Without `GEMINI_API_KEY`, or when the Gemini call throws, the last rung
   * of either ladder gives the raw Hugging Face text.
   */
  lemma NoGeminiGivesRaw(env: Env, svc: Services, prompt: string, raw: Json)
    requires !IsSet(Var(env, GEMINI_API_KEY)) || GenerateWithDefaults(env, GEMINI_MODEL, prompt, svc.gemini).Throw?
    ensures QuizGeminiRung(env, svc, prompt, raw) == raw
    ensures FlashcardGeminiRung(env, svc, prompt, raw) == raw
  {
  }

  /**
   * When Gemini answers with a text that is neither JSON nor in the
   * expected format, that text is returned; in the expected format, the
   * records read from it are.
   */
  lemma GeminiTextReturned(env: Env, svc: Services, prompt: string, raw: Json, out: string)
    requires IsSet(Var(env, GEMINI_API_KEY))
    requires GenerateWithDefaults(env, GEMINI_MODEL, prompt, svc.gemini) == Ok(JStr(out))
    requires svc.parse(out) == None && out != []
    ensures QuizParser.ParseQA(out).None? ==> QuizGeminiRung(env, svc, prompt, raw) == JStr(out)
    ensures QuizParser.ParseQA(out).Some? ==> QuizGeminiRung(env, svc, prompt, raw) == QuizJson(QuizParser.ParseQA(out).value)
    ensures FlashcardParser.ParseSecond(out).None? ==> FlashcardGeminiRung(env, svc, prompt, raw) == JStr(out)
    ensures FlashcardParser.ParseSecond(out).Some? ==>
      FlashcardGeminiRung(env, svc, prompt, raw) == CardsJson(FlashcardParser.ParseSecond(out).value)
  {
    assert JsonParse(svc, JStr(out)) == None;
  }

  /**
   * The quiz text format is looked for only in Gemini output: a raw
   * Hugging Face text in that format, which neither parses nor coerces,
   * comes back unread when Gemini is not configured.
   */
  lemma QuizFormatOnlyFromGemini(env: Env, svc: Services, prompt: string, tried: Result<Attempted>, raw: string)
    requires tried.Ok? && ParseModelOutput(tried.value.out) == JStr(raw)
    requires svc.parse(raw) == None && Coerced(svc, tried.value.model, JStr(raw)) == None
    requires !IsSet(Var(env, GEMINI_API_KEY))
    ensures QuizLadder(env, svc, prompt, tried) == Ok(JStr(raw))
  {
    assert JsonParse(svc, JStr(raw)) == None;
  }

  /**
   * The flashcard text format is read from the Hugging Face text itself,
   * before any coercion or Gemini call.
   */
  lemma FlashcardFormatFromHf(env: Env, svc: Services, prompt: string, tried: Result<Attempted>, raw: string)
    requires tried.Ok? && ParseModelOutput(tried.value.out) == JStr(raw)
    requires svc.parse(raw) == None && FlashcardParser.ParseFirst(raw).Some?
    ensures FlashcardLadder(env, svc, prompt, tried) == Ok(CardsJson(FlashcardParser.ParseFirst(raw).value))
  {
    assert JsonParse(svc, JStr(raw)) == None;
    assert FlashcardHfRung(env, svc, prompt, tried.value.model, JStr(raw)) == CardsJson(FlashcardParser.ParseFirst(raw).value);
  }
}
