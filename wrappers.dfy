/** An optional value, used for the command a gesture may or may not send. */
module Wrappers {

  datatype Option<+T> = None | Some(value: T)
}
