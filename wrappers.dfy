/** A value that may be absent (`undefined` in the bot's code). */
module Wrappers {
  datatype Option<T> = None | Some(value: T)
}
