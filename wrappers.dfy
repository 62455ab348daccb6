/** Java's nullable references and optional values, written as an explicit Option. */
module Wrappers {

  datatype Option<+T> = None | Some(value: T)

}
