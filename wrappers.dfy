/** The `null`/`undefined` results of the game's JavaScript, as an explicit option type. */
module Wrappers {
  datatype Option<+T> = None | Some(value: T)
}
