/**
 * The values a JSON response can hold, with the JavaScript operations the
 * source applies to them: truthiness, property reads, `Object.values`,
 * `Array.isArray` and `JSON.stringify`.
 */
module Json {
  import opened Outcome
  import opened Text

  /** A parsed JSON value. Numbers are integers; an object keeps its keys in insertion order. */
  datatype Json =
    | JNull
    | JBool(b: bool)
    | JNum(n: int)
    | JStr(s: string)
    | JArr(items: seq<Json>)
    | JObj(fields: seq<(string, Json)>)

  /** JavaScript truthiness: `null`, `false`, `0` and `""` are falsy, arrays and objects are truthy. */
  predicate Truthy(j: Json) {
    match j
    case JNull => false
    case JBool(b) => b
    case JNum(n) => n != 0
    case JStr(s) => s != []
    case _ => true
  }

  /** The truthiness of a value that may be `undefined`. */
  predicate TruthyOpt(v: Option<Json>) {
    v.Some? && Truthy(v.value)
  }

  /** The value bound to `key` in an object's field list (the first binding). */
  function Lookup(fields: seq<(string, Json)>, key: string): (r: Option<Json>)
    ensures r.Some? <==> exists i :: 0 <= i < |fields| && fields[i].0 == key
    ensures r.Some? ==> exists i :: 0 <= i < |fields| && fields[i] == (key, r.value)
  {
    if fields == [] then None
    else if fields[0].0 == key then Some(fields[0].1)
    else
      var r := Lookup(fields[1..], key);
      assert forall i :: 1 <= i < |fields| ==> fields[i] == fields[1..][i - 1];
      r
  }

  /**
   * The property read `v.key` on a non-null value: an object's field, or
   * `undefined` (None) on every other kind of value.
   */
  function Get(v: Json, key: string): (r: Option<Json>)
    ensures !v.JObj? ==> r == None
  {
    if v.JObj? then Lookup(v.fields, key) else None
  }

  /** The property read `v[0]`: an array's first element or an object's field "0". */
  function Index0(v: Json): (r: Option<Json>)
    ensures v.JArr? ==> (r.Some? <==> v.items != [])
  {
    match v
    case JArr(items) => if items == [] then None else Some(items[0])
    case JObj(fields) => Lookup(fields, "0")
    case _ => None
  }

  /** `Object.values(v)`: an array's elements or an object's values; nothing for primitives. */
  function Values(v: Json): (r: seq<Json>)
    ensures v.JArr? ==> r == v.items
    ensures v.JObj? ==> |r| == |v.fields| && forall i :: 0 <= i < |r| ==> r[i] == v.fields[i].1
    ensures !v.JArr? && !v.JObj? ==> r == []
  {
    match v
    case JArr(items) => items
    case JObj(fields) => seq(|fields|, i requires 0 <= i < |fields| => fields[i].1)
    case _ => []
  }

  /** The string-valued entries of a list of values, in order (`.filter(v => typeof v === 'string')`). */
  function StringValues(vs: seq<Json>): (r: seq<string>)
    ensures |r| <= |vs|
    ensures (forall i :: 0 <= i < |vs| ==> !vs[i].JStr?) ==> r == []
  {
    if vs == [] then []
    else (if vs[0].JStr? then [vs[0].s] else []) + StringValues(vs[1..])
  }

  /** A string literal in JSON text: quotes, with backslash, quote and newline escaped. */
  function Quote(s: string): (r: string)
    ensures |r| >= 2 && r[0] == '"'
  {
    "\"" + Escape(s) + "\""
  }

  function Escape(s: string): string {
    if s == [] then []
    else
      (if s[0] == '"' then "\\\"" else if s[0] == '\\' then "\\\\" else if s[0] == '\n' then "\\n" else [s[0]])
      + Escape(s[1..])
  }

  /** `JSON.stringify(v)`: the JSON text of a value. */
  function Stringify(v: Json): (r: string)
    ensures r != []
    ensures v == JNull ==> r == "null"
    ensures v.JArr? ==> r[0] == '['
    ensures v.JObj? ==> r[0] == '{'
    ensures v.JStr? ==> r[0] == '"'
  {
    match v
    case JNull => "null"
    case JBool(b) => if b then "true" else "false"
    case JNum(n) => IntToString(n)
    case JStr(s) => Quote(s)
    case JArr(items) =>
      "[" + Join(seq(|items|, i requires 0 <= i < |items| => Stringify(items[i])), ",") + "]"
    case JObj(fields) =>
      "{" + Join(seq(|fields|, i requires 0 <= i < |fields| => Quote(fields[i].0) + ":" + Stringify(fields[i].1)), ",") + "}"
  }

  /**
   * `String(v)`, which is also what a template literal `${v}` prints: a string
   * as itself, an array as its elements joined with "," (null elements print
   * as nothing), a plain object as "[object Object]".
   */
  function ToJsString(v: Json): (r: string)
    ensures v.JStr? ==> r == v.s
    ensures v.JObj? ==> r == "[object Object]"
    ensures v.JNull? || v.JBool? || v.JNum? ==> r == Stringify(v)
  {
    match v
    case JNull => "null"
    case JBool(b) => if b then "true" else "false"
    case JNum(n) => IntToString(n)
    case JStr(s) => s
    case JArr(items) =>
      Join(seq(|items|, i requires 0 <= i < |items| => if items[i].JNull? then "" else ToJsString(items[i])), ",")
    case JObj(_) => "[object Object]"
  }
}
