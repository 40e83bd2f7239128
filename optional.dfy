/** An optional value: stands for JavaScript's `undefined` where the engine tests for it. */
module Optional {
  datatype Option<+T> = None | Some(value: T)
}
