/** The null-or-value shape the generator uses for a tree branch that may be missing. */
module Wrappers {

  datatype Option<+T> = None | Some(value: T)
}
