/** The optional-value wrapper the searches of the validator return. */
module Options {

  /** A search result: `Some` value found, or `None` when there is nothing to find. */
  datatype Option<+T> = None | Some(value: T)
}
