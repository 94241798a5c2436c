/** Values as the hook receives them from decoded JSON, and the JavaScript
    truthiness tests the hook applies to them. */
module Js {

  /** `None` stands for JavaScript's `null` or `undefined`. */
  datatype Option<+T> = None | Some(value: T)

  /** A number is truthy when it is present and not zero (reals have no NaN). */
  predicate Truthy(x: Option<real>) {
    x.Some? && x.value != 0.0
  }

  /** A string is truthy when it is present and not empty. */
  predicate TruthyText(s: Option<string>) {
    s.Some? && s.value != ""
  }
}
