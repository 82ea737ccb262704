/** The optional value used throughout the model: `None` stands for JavaScript's
    `undefined`, `null`, `NaN` or `false` where the JavaScript code returns one of them
    instead of a value. */
module Wrappers {
  datatype Option<+T> = None | Some(value: T)
}
