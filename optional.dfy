/** An optional value: `None` stands for a Java `null` or for an operation that threw. */
module Optional {
  datatype Option<+T> = None | Some(value: T)
}
