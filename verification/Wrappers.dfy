module Wrappers {
  datatype Option<+T> = None | Some(value: T)

  /** SQL's `coalesce(x, y)` for a nullable x. */
  function Coalesce<T>(x: Option<T>, y: T): T {
    if x.Some? then x.value else y
  }
}
