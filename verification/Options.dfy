// The optional value used throughout the model: an absent file, a failed parse, a missing entry.
module Options {
  datatype Option<+T> = None | Some(value: T)
}
