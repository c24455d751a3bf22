/**
 * `generateWithGemini` (apps/backend/src/services/gemini.ts): the request to
 * the Generative Language API and the extraction of the generated text from
 * its reply. The HTTP exchange is an oracle `fetch` from the request to
 * either a rejection or a reply whose `text()` and `json()` reads may each
 * fail (None).
 */
module Gemini {
  import opened Outcome
  import opened Text
  import opened Json
  import opened Environment
  import opened Uri

  const GEN_API_BASE := "https://generativelanguage.googleapis.com/v1beta2/models"
  const GEMINI_API_KEY := "GEMINI_API_KEY"
  const NOT_CONFIGURED := "GEMINI_API_KEY not configured"
  const DEFAULT_MAX_OUTPUT_TOKENS := 600
  const DEFAULT_TEMPERATURE: real := 0.7

  /** `{ prompt: { text: prompt }, temperature, maxOutputTokens }`. */
  datatype Body = Body(promptText: string, temperature: real, maxOutputTokens: int)

  /** A POST with `Content-Type: application/json` to `url`, carrying `body` serialised. */
  datatype Request = Request(url: string, body: Body)

  /** The response: `ok`, `status`, `statusText`, and what `text()` and `json()` yield (None when they reject). */
  datatype Reply = Reply(ok: bool, status: int, statusText: string, text: Option<string>, json: Option<Json>)

  /** `${GEN_API_BASE}/${model}:generateText?key=${encodeURIComponent(key)}`. */
  function Url(model: string, key: string): string {
    GEN_API_BASE + "/" + model + ":generateText?key=" + EncodeURIComponent(key)
  }

  /** `Gemini ${res.status} ${res.statusText} - ${txt}`. */
  function ErrorMessage(status: int, statusText: string, txt: string): string {
    "Gemini " + IntToString(status) + " " + statusText + " - " + txt
  }

  /** `v?.content` when it is truthy. */
  function Content(v: Option<Json>): (r: Option<Json>)
    ensures r.Some? ==> Truthy(r.value)
  {
    if v.Some? && TruthyOpt(Get(v.value, "content")) then Get(v.value, "content") else None
  }

  /** `data?.candidates && Array.isArray(data.candidates) && data.candidates[0]?.content`. */
  function CandidateContent(data: Json): (r: Option<Json>)
    ensures r.Some? ==> Truthy(r.value)
  {
    var c := Get(data, "candidates");
    if c.Some? && c.value.JArr? then Content(Index0(c.value)) else None
  }

  /** `data?.output?.[0]?.content`. */
  function OutputContent(data: Json): (r: Option<Json>)
    ensures r.Some? ==> Truthy(r.value)
  {
    var o := Get(data, "output");
    if o.Some? && o.value != JNull then Content(Index0(o.value)) else None
  }

  /** The value `generateWithGemini` returns for the decoded reply `data`. */
  function Extract(data: Json): Json {
    if CandidateContent(data).Some? then CandidateContent(data).value
    else if OutputContent(data).Some? then OutputContent(data).value
    else JStr(Stringify(data))
  }

  /** The request `generateWithGemini` sends for a configured key. */
  function GeminiRequest(model: string, key: string, prompt: string, maxOutputTokens: int, temperature: real): Request {
    Request(Url(model, key), Body(prompt, temperature, maxOutputTokens))
  }

  /**
   * `generateWithGemini(model, prompt, maxOutputTokens, temperature)`: it
   * fails without a key, succeeds only on an ok reply to the request it
   * built, and then always gives a truthy value.
   */
  function GenerateWithGemini(env: Env, model: string, prompt: string, maxOutputTokens: int, temperature: real,
                              fetch: Request -> Result<Reply>): (r: Result<Json>)
    ensures !IsSet(Var(env, GEMINI_API_KEY)) ==> r == Throw(Error(NOT_CONFIGURED))
    ensures r.Ok? ==>
      && IsSet(Var(env, GEMINI_API_KEY))
      && var reply := fetch(GeminiRequest(model, env[GEMINI_API_KEY], prompt, maxOutputTokens, temperature));
         reply.Ok? && reply.value.ok
    ensures r.Ok? ==> Truthy(r.value)
  {
    var key := Var(env, GEMINI_API_KEY);
    if !IsSet(key) then Throw(Error(NOT_CONFIGURED))
    else
      match fetch(GeminiRequest(model, key.value, prompt, maxOutputTokens, temperature))
      case Throw(e) => Throw(e)
      case Ok(res) =>
        if !res.ok then Throw(Error(ErrorMessage(res.status, res.statusText, if res.text.Some? then res.text.value else "")))
        else
          var data := if res.json.Some? then res.json.value else JNull;
          ExtractIsTruthy(data);
          Ok(Extract(data))
  }

  /** The call with the defaults of its last two parameters. */
  function GenerateWithDefaults(env: Env, model: string, prompt: string, fetch: Request -> Result<Reply>): Result<Json> {
    GenerateWithGemini(env, model, prompt, DEFAULT_MAX_OUTPUT_TOKENS, DEFAULT_TEMPERATURE, fetch)
  }

  /**
   * Without a key nothing is sent: every `fetch` gives the same error.
   * With one, the outcome depends on nothing but the reply to the request
   * built from the model, key, prompt, token limit and temperature.
   */
  lemma KeyDecidesTheRequest(env: Env, model: string, prompt: string, m: int, t: real,
                              f1: Request -> Result<Reply>, f2: Request -> Result<Reply>)
    ensures !IsSet(Var(env, GEMINI_API_KEY)) ==>
      GenerateWithGemini(env, model, prompt, m, t, f1) == Throw(Error(NOT_CONFIGURED))
    ensures (IsSet(Var(env, GEMINI_API_KEY)) &&
             f1(GeminiRequest(model, env[GEMINI_API_KEY], prompt, m, t)) == f2(GeminiRequest(model, env[GEMINI_API_KEY], prompt, m, t))) ==>
      GenerateWithGemini(env, model, prompt, m, t, f1) == GenerateWithGemini(env, model, prompt, m, t, f2)
  {
  }

  /**
   * The URL is the model's `generateText` endpoint, and the encoded key
   * after `key=` holds no character that would end the parameter.
   */
  lemma UrlCarriesKey(model: string, key: string)
    ensures var u := Url(model, key);
      var prefix := GEN_API_BASE + "/" + model + ":generateText?key=";
      prefix <= u && forall k :: |prefix| <= k < |u| ==> u[k] !in "&=#?/ +"
  {
    EncodedIsQuerySafe(key);
    var prefix := GEN_API_BASE + "/" + model + ":generateText?key=";
    assert Url(model, key)[|prefix|..] == EncodeURIComponent(key);
  }

  /** The defaults are 600 output tokens and temperature 0.7. */
  lemma DefaultBody(env: Env, model: string, prompt: string, fetch: Request -> Result<Reply>)
    requires IsSet(Var(env, GEMINI_API_KEY))
    ensures GenerateWithDefaults(env, model, prompt, fetch) ==
      GenerateWithGemini(env, model, prompt, 600, 0.7, fetch)
    ensures GeminiRequest(model, env[GEMINI_API_KEY], prompt, DEFAULT_MAX_OUTPUT_TOKENS, DEFAULT_TEMPERATURE).body ==
      Body(prompt, 0.7, 600)
  {
  }

  /** A reply that is not ok becomes an error naming its status, status text and body. */
  lemma NotOkThrows(env: Env, model: string, prompt: string, m: int, t: real, fetch: Request -> Result<Reply>, res: Reply)
    requires IsSet(Var(env, GEMINI_API_KEY))
    requires fetch(GeminiRequest(model, env[GEMINI_API_KEY], prompt, m, t)) == Ok(res) && !res.ok
    ensures res.text.Some? ==>
      GenerateWithGemini(env, model, prompt, m, t, fetch) == Throw(Error(ErrorMessage(res.status, res.statusText, res.text.value)))
    ensures res.text.None? ==>
      GenerateWithGemini(env, model, prompt, m, t, fetch) == Throw(Error(ErrorMessage(res.status, res.statusText, "")))
  {
  }

  /** The message of a 401 reply. */
  lemma UnauthorizedMessage()
    ensures ErrorMessage(401, "Unauthorized", "Invalid API key") == "Gemini 401 Unauthorized - Invalid API key"
  {
    StatusDigits();
  }

  lemma StatusDigits()
    ensures IntToString(401) == "401"
  {
    assert NatToString(4) == "4" by {
      assert DigitChar(4) == '4';
    }
    assert NatToString(40) == "40" by {
      assert 40 / 10 == 4 && 40 % 10 == 0 && DigitChar(0) == '0';
    }
    assert NatToString(401) == "401" by {
      assert 401 / 10 == 40 && 401 % 10 == 1 && DigitChar(1) == '1';
    }
  }

  /**
   * The generated value is always truthy: a truthy content, or a non-empty
   * JSON text.
   */
  lemma ExtractIsTruthy(data: Json)
    ensures Truthy(Extract(data))
  {
    if CandidateContent(data).None? && OutputContent(data).None? {
      assert Stringify(data) != [];
    }
  }

  /** A body that is not valid JSON gives the string "null". */
  lemma InvalidJsonGivesNull(env: Env, model: string, prompt: string, m: int, t: real, fetch: Request -> Result<Reply>, res: Reply)
    requires IsSet(Var(env, GEMINI_API_KEY))
    requires fetch(GeminiRequest(model, env[GEMINI_API_KEY], prompt, m, t)) == Ok(res) && res.ok && res.json.None?
    ensures GenerateWithGemini(env, model, prompt, m, t, fetch) == Ok(JStr("null"))
  {
    assert Get(JNull, "candidates") == None && Get(JNull, "output") == None;
  }

  /** `{candidates: [{content: s}, ...], ...}` gives `s` whatever else the reply holds. */
  lemma CandidatesFirst(s: string, more: seq<Json>, rest: seq<(string, Json)>)
    requires s != []
    ensures Extract(JObj([("candidates", JArr([JObj([("content", JStr(s))])] + more))] + rest)) == JStr(s)
  {
    var data := JObj([("candidates", JArr([JObj([("content", JStr(s))])] + more))] + rest);
    assert Get(data, "candidates") == Some(JArr([JObj([("content", JStr(s))])] + more));
    assert Content(Some(JObj([("content", JStr(s))]))) == Some(JStr(s));
  }

  /** Without a `candidates` field, `{output: [{content: s}]}` gives `s`. */
  lemma OutputSecond(s: string, more: seq<Json>, rest: seq<(string, Json)>)
    requires s != []
    requires Lookup(rest, "candidates") == None
    ensures Extract(JObj([("output", JArr([JObj([("content", JStr(s))])] + more))] + rest)) == JStr(s)
  {
    var data := JObj([("output", JArr([JObj([("content", JStr(s))])] + more))] + rest);
    assert Get(data, "candidates") == None;
    assert Get(data, "output") == Some(JArr([JObj([("content", JStr(s))])] + more));
    assert Content(Some(JObj([("content", JStr(s))]))) == Some(JStr(s));
  }

  /** A reply with neither field is returned as its JSON text. */
  lemma UnknownShapeStringified(fields: seq<(string, Json)>)
    requires Lookup(fields, "candidates") == None && Lookup(fields, "output") == None
    ensures Extract(JObj(fields)) == JStr(Stringify(JObj(fields)))
  {
  }
}
