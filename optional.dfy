/** Python's `None`-or-value, for the optional fields of a session and the optional JSON fields
    of a chat request. */
module Optional {
  datatype Option<+T> = None | Some(value: T)
}
