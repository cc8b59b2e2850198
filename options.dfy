/** The optional value used wherever the scripts produce `null`, `NaN` or "not found". */
module Options {

  datatype Option<+T> = None | Some(value: T)

}
