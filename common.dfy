/** Small helpers shared by the checkers and Tetris models. */
module Common {

  /** An optional value: Python's `None`, JavaScript's `null`. */
  datatype Option<+T> = None | Some(value: T)
}
