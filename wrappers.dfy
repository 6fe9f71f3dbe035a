/** Swift's `Optional`, as returned by the queue observers. */
module Wrappers {

  datatype Option<+T> = None | Some(value: T)

}
