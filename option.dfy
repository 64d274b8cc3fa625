/** An optional value: C#'s null, or a missing dictionary entry. */
module Optional {
  datatype Option<T> = None | Some(value: T)
}
