/** An optional value: JavaScript's `undefined`/`null` versus a present value. */
module Maybe {
  datatype Option<+T> = None | Some(value: T)
}
