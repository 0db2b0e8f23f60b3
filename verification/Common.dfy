/** Small datatypes that several components share. */
module Common {
  datatype Option<+T> = None | Some(value: T)

  newtype Byte = x: int | 0 <= x < 256
}
