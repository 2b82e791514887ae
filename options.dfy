/** The optional value used for the wave's ship and UFO slots (Python's None). */
module Options {

  datatype Option<+T> = None | Some(value: T)
}
