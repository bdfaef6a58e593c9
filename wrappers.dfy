/** The optional value used for nullable slots (`T | null`, `field?: T`). */
module Wrappers {

  datatype Option<+T> = None | Some(value: T)

}
