/** The conventional Some/None datatype: Python's `None` versus a value. */
module Optional {

  datatype Option<+T> = None | Some(value: T)

}
