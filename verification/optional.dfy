/** Presence and absence. A property the front end reads may be missing
    (`undefined`) or `null`; both are `None` here, and anything else is
    `Some` of its value. */
module Optional {
  datatype Option<+T> = None | Some(value: T)
}
