/** What several modules share: an optional value, and the iteration over a map or a set in no order. */
module Basics {

  datatype Option<T> = None | Some(value: T)

  /** Go's map iteration: the next key, whichever it is. */
  method AnyOf<T>(todo: set<T>) returns (x: T)
    requires todo != {}
    ensures x in todo
  {
    x :| x in todo;
  }
}
