/** The "no value yet" wrapper used where the source starts from positive infinity. */
module Wrappers {

  datatype Option<+T> = None | Some(value: T)

}
