/** The optional value used for board cells and for the base-class stub of `access_fields`. */
module Wrappers {

  datatype Option<+T> = None | Some(value: T)

}
