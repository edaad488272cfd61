/** Small types shared by the models of the kernel's components. */
module Common {
  datatype Option<+T> = None | Some(value: T)

  /** A `u8`. */
  type Byte = x: int | 0 <= x < 256
}
