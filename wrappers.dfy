/** The optional value used for the component's nullable state (`Campaign | null`, `string | null`). */
module Wrappers {

  datatype Option<+T> = None | Some(value: T)
}
