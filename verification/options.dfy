/** The optional results the Swift code returns (`T?`). */
module Options {

  datatype Option<+T> = None | Some(value: T)
}
