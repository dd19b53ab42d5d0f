/** The optional value used where the program either yields a value or
    raises (an index out of range, a file that cannot be opened). */
module Wrappers {

  datatype Option<+T> = None | Some(value: T)

}
