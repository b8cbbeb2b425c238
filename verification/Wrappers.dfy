/** A value that may be absent, and Python's `or` on a nullable string. */
module Wrappers {
  datatype Option<+T> = None | Some(value: T)

  /** `value or fallback`: None and the empty string are both falsy. */
  function OrElse(value: Option<string>, fallback: string): string {
    if value.Some? && value.value != "" then value.value else fallback
  }
}
