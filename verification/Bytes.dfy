/** The machine types shared by every module, and the two result types. */
module Bytes {

  /** `uint8_t` / `u8` */
  type byte = x: int | 0 <= x < 0x100

  /** `uint16_t` / `u16` */
  type word = x: int | 0 <= x < 0x1_0000

  datatype Option<+T> = None | Some(value: T)

  datatype Result<+T, +E> = Ok(value: T) | Err(error: E)
}
