/** The Some/None datatype used for inputs that may fail to parse and for
    aggregates that are undefined on an empty table. */
module Wrappers {

  datatype Option<+T> = None | Some(value: T)
}
