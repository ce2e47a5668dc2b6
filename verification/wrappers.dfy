/** The Option datatype used wherever a scan may find nothing. */
module Wrappers {

  datatype Option<+T> = None | Some(value: T)
}
