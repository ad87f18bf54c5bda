/** The optional value used wherever the game code returns or stores `null`. */
module Wrappers {

  datatype Option<+T> = None | Some(value: T)
}
