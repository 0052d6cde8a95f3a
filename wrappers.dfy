/** The optional value used where the game keeps "a card or nothing". */
module Wrappers {

  datatype Option<+T> = None | Some(value: T)
}
