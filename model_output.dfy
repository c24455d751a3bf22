/**
 * `parseModelOutput` (apps/backend/src/services/hf.ts): the normalisation of
 * the several shapes a Hugging Face inference response takes (a string, an
 * array of result records, a single record) into the text the rest of the
 * service works on. The function is declared to return a string, but a
 * truthy `generated_text` or `summary_text` field is returned as it is,
 * whatever its type, so the result is a JSON value.
 */
module ModelOutput {
  import opened Text
  import opened Json
  import opened Outcome

  const GENERATED_TEXT := "generated_text"
  const SUMMARY_TEXT := "summary_text"

  /**
   * The text field of a result record, by precedence: a truthy
   * `generated_text`, else a truthy `summary_text`, else none.
   */
  function TextField(v: Json): (r: Option<Json>)
    ensures r.Some? ==> Truthy(r.value)
    ensures r.Some? <==> TruthyOpt(Get(v, GENERATED_TEXT)) || TruthyOpt(Get(v, SUMMARY_TEXT))
    ensures TruthyOpt(Get(v, GENERATED_TEXT)) ==> r == Get(v, GENERATED_TEXT)
    ensures !TruthyOpt(Get(v, GENERATED_TEXT)) && TruthyOpt(Get(v, SUMMARY_TEXT)) ==> r == Get(v, SUMMARY_TEXT)
  {
    if TruthyOpt(Get(v, GENERATED_TEXT)) then Get(v, GENERATED_TEXT)
    else if TruthyOpt(Get(v, SUMMARY_TEXT)) then Get(v, SUMMARY_TEXT)
    else None
  }

  /** The string-valued fields of a record joined with newlines (`Object.values(first)...join('\n')`). */
  function JoinedStrings(v: Json): string {
    Join(StringValues(Values(v)), "\n")
  }

  /** `parseModelOutput(raw)` for a decoded response body: a string, or a truthy text field. */
  function ParseModelOutput(raw: Json): (r: Json)
    ensures r.JStr? || Truthy(r)
  {
    match raw
    case JNull => JStr("")
    case JStr(_) => raw
    case JArr(items) =>
      if items == [] || !Truthy(items[0]) then JStr(Stringify(raw))
      else if items[0].JStr? then items[0]
      else if TextField(items[0]).Some? then TextField(items[0]).value
      else if JoinedStrings(items[0]) != [] then JStr(JoinedStrings(items[0]))
      else JStr(Stringify(items[0]))
    case JObj(_) => if TextField(raw).Some? then TextField(raw).value else JStr(Stringify(raw))
    case _ => JStr(ToJsString(raw))
  }

  /**
   * Each branch of `parseModelOutput`, for every input: `null` gives `""`, a
   * string is returned as it is, an array is read through its first element
   * (the JSON text of the array when that element is missing or falsy; the
   * element itself when it is a string; its text field; its string values
   * joined with newlines; the JSON text of the element), an object through
   * its text field or its JSON text, and a boolean or number through `String`.
   */
  lemma ParseModelOutputCases(raw: Json)
    ensures raw == JNull ==> ParseModelOutput(raw) == JStr("")
    ensures raw.JStr? ==> ParseModelOutput(raw) == raw
    ensures raw.JArr? && (raw.items == [] || !Truthy(raw.items[0])) ==> ParseModelOutput(raw) == JStr(Stringify(raw))
    ensures raw.JArr? && raw.items != [] && Truthy(raw.items[0]) && raw.items[0].JStr? ==>
      ParseModelOutput(raw) == raw.items[0]
    ensures raw.JArr? && raw.items != [] && Truthy(raw.items[0]) && !raw.items[0].JStr? && TextField(raw.items[0]).Some? ==>
      ParseModelOutput(raw) == TextField(raw.items[0]).value
    ensures raw.JArr? && raw.items != [] && Truthy(raw.items[0]) && !raw.items[0].JStr? && TextField(raw.items[0]).None? ==>
      var first := raw.items[0];
      ParseModelOutput(raw) == JStr(if JoinedStrings(first) != [] then JoinedStrings(first) else Stringify(first))
    ensures raw.JObj? && TextField(raw).Some? ==> ParseModelOutput(raw) == TextField(raw).value
    ensures raw.JObj? && TextField(raw).None? ==> ParseModelOutput(raw) == JStr(Stringify(raw))
    ensures raw.JBool? || raw.JNum? ==> ParseModelOutput(raw) == JStr(ToJsString(raw))
  {
  }

  /**
   * The result is a string unless it is the truthy text field of the response
   * record (the first array element, or the object itself).
   */
  lemma ResultIsStringOrTextField(raw: Json)
    ensures var r := ParseModelOutput(raw);
      r.JStr? ||
      (Truthy(r) && ((raw.JObj? && TextField(raw) == Some(r)) ||
                     (raw.JArr? && raw.items != [] && TextField(raw.items[0]) == Some(r))))
  {
  }

  /** Null and the empty string both give the empty string; nothing else does except an empty text. */
  lemma EmptyResult(raw: Json)
    ensures ParseModelOutput(raw) == JStr("") <==> raw == JNull || raw == JStr("")
  {
    match raw
    case JArr(items) =>
      if items == [] || !Truthy(items[0]) {
        assert Stringify(raw) != [];
      } else if items[0].JStr? {
      } else if TextField(items[0]).Some? {
      } else if JoinedStrings(items[0]) != [] {
      } else {
        assert Stringify(items[0]) != [];
      }
    case JObj(_) =>
      if TextField(raw).None? {
        assert Stringify(raw) != [];
      }
    case JNum(n) => assert IntToString(n) != [];
    case _ =>
  }

  /**
   * Applying the normalisation to its own string result changes nothing, so a
   * caller that normalises twice gets the same text.
   */
  lemma ParseModelOutputIdempotent(raw: Json)
    requires ParseModelOutput(raw).JStr?
    ensures ParseModelOutput(ParseModelOutput(raw)) == ParseModelOutput(raw)
  {
  }

  /** Several records: only the first is looked at. */
  lemma OnlyFirstRecordCounts(first: Json, rest: seq<Json>, other: seq<Json>)
    requires Truthy(first) && !first.JStr?
    requires TextField(first).Some? || JoinedStrings(first) != []
    ensures ParseModelOutput(JArr([first] + rest)) == ParseModelOutput(JArr([first] + other))
  {
  }

  /** `summary_text` is used only when `generated_text` is absent or falsy. */
  lemma GeneratedTextWins(fields: seq<(string, Json)>, g: Json, s: Json)
    requires Lookup(fields, GENERATED_TEXT) == Some(g) && Truthy(g)
    requires Lookup(fields, SUMMARY_TEXT) == Some(s) && Truthy(s)
    ensures ParseModelOutput(JObj(fields)) == g
    ensures ParseModelOutput(JArr([JObj(fields)])) == g
  {
  }
}
