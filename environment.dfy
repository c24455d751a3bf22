/**
 * `process.env` and the `||` the source uses to pick among its values: an
 * unset variable is `undefined`, and the empty string is falsy like it.
 */
module Environment {
  import opened Outcome

  type Env = map<string, string>

  /** `process.env[name]`. */
  function Var(env: Env, name: string): Option<string> {
    if name in env then Some(env[name]) else None
  }

  /** A string that may be undefined is truthy when it is defined and not empty. */
  predicate IsSet(v: Option<string>) {
    v.Some? && v.value != []
  }

  /** `a || b`. */
  function Or(a: Option<string>, b: Option<string>): (r: Option<string>)
    ensures IsSet(a) ==> r == a
    ensures !IsSet(a) ==> r == b
  {
    if IsSet(a) then a else b
  }

  /** `a || fallback` for a fallback that is a non-empty string. */
  function OrDefault(a: Option<string>, fallback: string): (r: string)
    ensures IsSet(a) ==> r == a.value
    ensures !IsSet(a) ==> r == fallback
  {
    if IsSet(a) then a.value else fallback
  }
}
