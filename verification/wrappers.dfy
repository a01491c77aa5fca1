/** The Some/None datatype used for every partial operation of the model:
    a parse that may fail, a conversion that may raise. */
module Wrappers {

  datatype Option<+T> = None | Some(value: T)
}
