/** The absent-or-present value used across the model in place of JavaScript's
    `null` / `undefined`. */
module Optional {

  datatype Option<+T> = None | Some(value: T)
}
