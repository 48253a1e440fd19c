/** The null-or-value shape the components use for optional state. */
module Wrappers {

  datatype Option<+T> = None | Some(value: T)
}
