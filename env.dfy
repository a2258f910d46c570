/** Inputs the action reads from its environment (index.js:23-25). */
module Env {

  /** An environment variable is either unset or holds a string. */
  datatype Option<+T> = None | Some(value: T)

  /** JavaScript's falsiness test `!x` on an environment variable: unset or empty. */
  predicate Blank(v: Option<string>)
  {
    v.None? || v.value == ""
  }
}
