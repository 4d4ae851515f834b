/** An optional value: the script's "undefined when there is none". */
module Wrappers {

  datatype Option<+T> = None | Some(value: T)
}
