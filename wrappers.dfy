/** The nullable values of the page: `getAttribute` answers a string or null. */
module Wrappers {

  datatype Option<+T> = None | Some(value: T)
}
