/** The optional value shared by the modules of the model: JavaScript's
  * `undefined` / `null` on one side, a value on the other. */
module Wrappers {
  datatype Option<T> = None | Some(value: T)
}
