/** The nullable values of the page (`string | null`) as an Option. */
module Wrappers {
  datatype Option<+T> = None | Some(value: T)
}
