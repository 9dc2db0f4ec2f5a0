/** Small datatypes and idioms shared by every part of the model. */
module Wrappers {
  datatype Option<+T> = None | Some(value: T)

  /** The next key of a map iteration: any key not yet visited. */
  method Any<T(==)>(keys: set<T>) returns (k: T)
    requires keys != {}
    ensures k in keys
  {
    k :| k in keys;
  }
}
