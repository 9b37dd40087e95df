/** Absent-or-present values; `None` stands for a Java `null` argument. */
module Wrappers {

  datatype Option<+T> = None | Some(value: T)
}
