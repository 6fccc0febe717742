/** Types shared by every module of the model. */
module Base {

  /** A nullable C pointer, or a Rust `Option`. */
  datatype Option<+T> = None | Some(value: T)

  /** The optional element as a sequence: the owned fields of a struct in drop order. */
  function Listed<T>(o: Option<T>): seq<T> {
    match o
    case None => []
    case Some(x) => [x]
  }
}
