/** Results shared by the models: a value that may be absent. */
module Options {
  datatype Option<+T> = None | Some(value: T)

  function ToSeq<T>(o: Option<T>): seq<T> {
    match o
    case None => []
    case Some(v) => [v]
  }
}
