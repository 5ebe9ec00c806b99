/** The optional-value wrapper used wherever the plugins read an attribute that may be absent. */
module Optional {

  datatype Option<+T> = None | Some(value: T)
}
