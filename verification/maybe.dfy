/** The optional value used wherever the source reads a field that may be
    absent (a query parameter, a body field, a lookup that can miss). */
module Maybe {

  datatype Option<+T> = None | Some(value: T)

  function Min(a: int, b: int): int {
    if a <= b then a else b
  }
}
