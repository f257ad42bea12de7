/** Value types shared by the encoder modules. */
module Types {

  /** An unsigned 8-bit value, the element type of every buffer (`u8`). */
  newtype byte = x: int | 0 <= x < 0x100

  /** The conventional optional value, used for the match finder's result. */
  datatype Option<+T> = None | Some(value: T)
}
