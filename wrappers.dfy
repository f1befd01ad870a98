/** Option type for values the source represents with `None`. */
module Wrappers {

  datatype Option<+T> = None | Some(value: T)
}
