/** The optional value that Kotlin writes as a nullable type (`Int?`). */
module Options {

  datatype Option<+T> = None | Some(value: T)
}
