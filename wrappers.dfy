/** The optional-value type shared by the checkers and tetris models. */
module Wrappers {
  /** An optional value: a board cell that may be empty, a parse that may fail. */
  datatype Option<+T> = None | Some(value: T)
}
