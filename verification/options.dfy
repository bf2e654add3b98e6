/** The optional value used by the parsing partners of the renderers. */
module Options {

  datatype Option<+T> = None | Some(value: T)
}
