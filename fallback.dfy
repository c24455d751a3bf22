/**
 * The model fallback of apps/backend/src/services/hf.ts: the candidate list
 * `generateQuiz` and `generateFlashcards` build, and `tryModels`, which asks
 * each candidate in turn and returns the first answer. A call to the
 * inference API is an oracle `call(model, n)`: the outcome of the `n`-th
 * attempt, made for `model`, so the same model may fare differently when it
 * is listed twice.
 */
module ModelFallback {
  import opened Outcome
  import opened Json
  import opened Environment

  const HF_INSTRUCT_MODEL := "HF_INSTRUCT_MODEL"
  const HF_MODEL := "HF_MODEL"
  const ALL_FAILED := "All model attempts failed"

  /** The fixed candidates that follow the configured model. */
  const DEFAULT_MODELS: seq<string> := ["google/flan-t5-large", "sshleifer/distilbart-cnn-12-6", "facebook/bart-large-cnn"]

  /** `process.env.HF_INSTRUCT_MODEL || process.env.HF_MODEL`. */
  function Configured(env: Env): Option<string> {
    Or(Var(env, HF_INSTRUCT_MODEL), Var(env, HF_MODEL))
  }

  /** `.filter(Boolean)`: the entries that are set and not empty. */
  function PresentOnly(xs: seq<Option<string>>): (r: seq<string>)
    ensures |r| <= |xs|
    ensures forall i :: 0 <= i < |r| ==> r[i] != []
  {
    if xs == [] then []
    else (if IsSet(xs[0]) then [xs[0].value] else []) + PresentOnly(xs[1..])
  }

  /** `[configured, ...defaults].filter(Boolean)`. */
  function CandidateModels(env: Env): seq<string> {
    PresentOnly([Configured(env), Some(DEFAULT_MODELS[0]), Some(DEFAULT_MODELS[1]), Some(DEFAULT_MODELS[2])])
  }

  /**
   * The candidates are the configured model, when `HF_INSTRUCT_MODEL` or
   * else `HF_MODEL` names one, followed by the three defaults; nothing is
   * removed as a duplicate.
   */
  lemma CandidatesAreConfiguredThenDefaults(env: Env)
    ensures IsSet(Configured(env)) ==> CandidateModels(env) == [Configured(env).value] + DEFAULT_MODELS
    ensures !IsSet(Configured(env)) ==> CandidateModels(env) == DEFAULT_MODELS
    ensures IsSet(Var(env, HF_INSTRUCT_MODEL)) ==> CandidateModels(env)[0] == env[HF_INSTRUCT_MODEL]
    ensures !IsSet(Var(env, HF_INSTRUCT_MODEL)) && IsSet(Var(env, HF_MODEL)) ==> CandidateModels(env)[0] == env[HF_MODEL]
  {
    var xs := [Configured(env), Some(DEFAULT_MODELS[0]), Some(DEFAULT_MODELS[1]), Some(DEFAULT_MODELS[2])];
    assert xs[1..][1..][1..][1..] == [];
    assert PresentOnly(xs[1..][1..][1..]) == [DEFAULT_MODELS[2]];
    assert PresentOnly(xs[1..]) == DEFAULT_MODELS;
  }

  /** A configured model that is also a default is tried twice. */
  lemma DuplicatesKept(env: Env)
    requires Configured(env) == Some(DEFAULT_MODELS[0])
    ensures |CandidateModels(env)| == 4 && CandidateModels(env)[0] == CandidateModels(env)[1]
  {
    CandidatesAreConfiguredThenDefaults(env);
  }

  /** What `tryModels` returns: the response and the model that gave it. */
  datatype Attempted = Attempted(out: Json, model: string)

  /**
   * `tryModels` from the `n`-th attempt on, `lastErr` being the error of the
   * attempt before: the first success wins; when every candidate fails the
   * last error is thrown, and with no candidate at all 'All model attempts
   * failed'.
   */
  function FirstSuccess(models: seq<string>, call: (string, nat) -> Result<Json>, n: nat, lastErr: Option<Error>): Result<Attempted>
    requires n <= |models|
    decreases |models| - n
  {
    if n == |models| then Throw(if lastErr.Some? then lastErr.value else Error(ALL_FAILED))
    else
      match call(models[n], n)
      case Ok(out) => Ok(Attempted(out, models[n]))
      case Throw(e) => FirstSuccess(models, call, n + 1, Some(e))
  }

  method TryModels(models: seq<string>, call: (string, nat) -> Result<Json>) returns (r: Result<Attempted>)
    ensures r == FirstSuccess(models, call, 0, None)
  {
    var lastErr: Option<Error> := None;
    for i := 0 to |models|
      invariant FirstSuccess(models, call, i, lastErr) == FirstSuccess(models, call, 0, None)
    {
      var m := models[i];
      var attempt := call(m, i);
      if attempt.Ok? {
        return Ok(Attempted(attempt.value, m));
      }
      lastErr := Some(attempt.error);
    }
    r := Throw(if lastErr.Some? then lastErr.value else Error(ALL_FAILED));
  }

  /** The index of the first successful attempt, or -1 when all fail. */
  function FirstOk(models: seq<string>, call: (string, nat) -> Result<Json>, n: nat): (k: int)
    requires n <= |models|
    ensures k == -1 || (n <= k < |models| && call(models[k], k).Ok?)
    ensures forall j :: n <= j < |models| && (k == -1 || j < k) ==> call(models[j], j).Throw?
    decreases |models| - n
  {
    if n == |models| then -1 else if call(models[n], n).Ok? then n else FirstOk(models, call, n + 1)
  }

  /**
   * `tryModels` in terms of the first successful attempt: its response and
   * model when there is one (every earlier candidate having failed);
   * otherwise the error of the last attempt, or 'All model attempts failed'
   * for an empty list.
   */
  lemma {:induction false} FirstSuccessMeaning(models: seq<string>, call: (string, nat) -> Result<Json>, n: nat, lastErr: Option<Error>)
    requires n <= |models|
    ensures var k := FirstOk(models, call, n);
      FirstSuccess(models, call, n, lastErr) ==
        if k >= 0 then Ok(Attempted(call(models[k], k).value, models[k]))
        else if n < |models| then Throw(call(models[|models| - 1], |models| - 1).error)
        else Throw(if lastErr.Some? then lastErr.value else Error(ALL_FAILED))
    decreases |models| - n
  {
    if n < |models| && call(models[n], n).Throw? {
      FirstSuccessMeaning(models, call, n + 1, Some(call(models[n], n).error));
    }
  }

  /**
   * A 404 is handled like every other error: which errors the failed
   * attempts gave makes no difference except to the error finally thrown.
   */
  lemma {:induction false} ErrorsOnlyReachTheEnd(models: seq<string>, c1: (string, nat) -> Result<Json>, c2: (string, nat) -> Result<Json>, n: nat, e1: Option<Error>, e2: Option<Error>)
    requires n <= |models|
    requires forall j :: n <= j < |models| ==> c1(models[j], j).Ok? == c2(models[j], j).Ok?
    requires forall j :: n <= j < |models| && c1(models[j], j).Ok? ==> c1(models[j], j) == c2(models[j], j)
    ensures FirstSuccess(models, c1, n, e1).Ok? == FirstSuccess(models, c2, n, e2).Ok?
    ensures FirstSuccess(models, c1, n, e1).Ok? ==> FirstSuccess(models, c1, n, e1) == FirstSuccess(models, c2, n, e2)
    decreases |models| - n
  {
    if n < |models| && c1(models[n], n).Throw? {
      ErrorsOnlyReachTheEnd(models, c1, c2, n + 1, Some(c1(models[n], n).error), Some(c2(models[n], n).error));
    }
  }
}
