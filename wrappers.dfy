/** The optional value used throughout the model: a JavaScript `null`/absent
    property, a Python `None`, or a query that found no row. */
module Wrappers {
  datatype Option<+T> = None | Some(value: T)
}
