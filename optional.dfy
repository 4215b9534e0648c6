/** A value that may be absent: Kotlin's nullable types and JavaScript's `null`. */
module Optional {

  datatype Option<+T> = None | Some(value: T)
}
