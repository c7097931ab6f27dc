/** An optional value: Go's nil pointer and C's NULL become `None`. */
module Options {

  datatype Option<+T> = None | Some(value: T)
}
