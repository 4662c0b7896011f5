/** An absent-or-present value, used where the Java code returns null for "not found". */
module Wrappers {

  datatype Option<+T> = None | Some(value: T)
}
