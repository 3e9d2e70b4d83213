/** Optional values: the nullable card slot of the game, and a move that ran out of fuel. */
module Wrappers {

  datatype Option<+T> = None | Some(value: T)
}
