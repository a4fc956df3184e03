/** Walking through a set in no particular order. */
module Iteration {
  /** The next element of an iteration in no particular order. */
  method AnyOf<T(==)>(s: set<T>) returns (x: T)
    requires s != {}
    ensures x in s
  {
    x :| x in s;
  }
}
