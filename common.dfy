/** Vocabulary shared by the whole model: bytes, optional values and Go's int64 bound. */
module Common {

  /** One octet, as Go's `byte`. */
  newtype byte = x: int | 0 <= x < 256

  /** Go's `error` results are modelled as None (nil) or Some(kind). */
  datatype Option<+T> = None | Some(value: T)

  /** math.MaxInt64: what strconv.ParseInt returns for a positive value that overflows. */
  const MaxInt64: int := 0x7fff_ffff_ffff_ffff

  function Min(a: int, b: int): int
  {
    if a <= b then a else b
  }
}
