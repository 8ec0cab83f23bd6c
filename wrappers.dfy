/** Optional values: `None` stands for the point where the Java code throws. */
module Wrappers {

  datatype Option<+T> = None | Some(value: T)
}
