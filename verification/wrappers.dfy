/** The optional value used where the action may or may not produce something
    (a comment body, a parsed reference list). */
module Wrappers {

  datatype Option<+T> = None | Some(value: T)
}
