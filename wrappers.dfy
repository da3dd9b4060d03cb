/** The optional value the solver passes around where `sudoku.py` returns `None`. */
module Wrappers {

  datatype Option<+T> = None | Some(value: T)
}
