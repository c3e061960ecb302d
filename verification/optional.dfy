/** An optional value: the model's counterpart of a value that may be `null`. */
module Optional {

  /** `None` stands for `null`; `Some(v)` for a present value `v`. */
  datatype Option<T> = None | Some(value: T)
}
