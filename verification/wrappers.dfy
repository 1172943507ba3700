/** A value that may be missing; the model writes a C# null as None. */
module Optional {

  datatype Option<T> = None | Some(value: T)
}
