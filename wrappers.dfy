/** The optional-value datatype the model uses for a description that has not
    been set yet and for a wire name that names no event. */
module Wrappers {

  datatype Option<+T> = None | Some(value: T)
}
