/** Option, the value-or-nothing wrapper used for absent indices and failed decodes. */
module Wrappers {

  datatype Option<+T> = None | Some(value: T)
}
