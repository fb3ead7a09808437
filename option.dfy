/** Kotlin's nullable values (`Double?`), as an Option. */
module Optional {
  datatype Option<+T> = None | Some(value: T)
}
