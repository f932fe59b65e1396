/** Small shared datatypes. */
module Base {

  /** The conventional Some/None datatype, used for absent optional inputs and
      for parses that can fail. */
  datatype Option<+T> = None | Some(value: T)
}
