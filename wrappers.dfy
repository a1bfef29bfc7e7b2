/** The optional value used wherever the source leaves a field unassigned or a link null. */
module Wrappers {
  datatype Option<+T> = None | Some(value: T)
}
