/** The optional value shared by the puzzle modules: `None` stands for an
    absent value or for a step where the program would stop with a panic. */
module Wrappers {
  datatype Option<+T> = None | Some(value: T)
}
