/** Optional values and pass/fail outcomes, standing for JavaScript's
    `null`/`undefined` and for operations that throw. */
module Wrappers {

  datatype Option<+T> = None | Some(value: T)

  datatype Outcome<+E> = Pass | Fail(error: E)
}
