/** A value that may be missing. The C++ code reports failure by exceptions,
    empty optionals and failed results; only success and failure are modelled,
    not the error text. */
module Options {
  datatype Option<+T> = None | Some(value: T)
}
