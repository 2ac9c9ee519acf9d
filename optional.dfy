/** The absent-or-present value that `respond_to_greeting` and
    `respond_to_farewell` return (`None` or a reply). */
module Optional {
  datatype Option<T> = None | Some(value: T)
}
