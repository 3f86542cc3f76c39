/** The optional-value type used throughout the model for "produced a value
    or raised": `None` stands for a Python exception, `Some(v)` for a value. */
module Options {

  datatype Option<+T> = None | Some(value: T)

}
