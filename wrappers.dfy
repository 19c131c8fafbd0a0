/** The conventional Some/None datatype, standing for JavaScript's null/undefined results
    and for operations that throw. */
module Wrappers {

  datatype Option<+T> = None | Some(value: T)
}
