/** The script's `None`-or-value fields (Python's `None`). */
module Optional {

  datatype Option<+T> = None | Some(value: T)
}
