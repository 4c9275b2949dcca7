/** The absence sentinel the game uses where Python returns None. */
module Options {

  datatype Option<+T> = None | Some(value: T)
}
