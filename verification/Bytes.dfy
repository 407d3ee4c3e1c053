/** Bytes and small sequence facts shared by the other modules. */
module Bytes {

  type byte = x: int | 0 <= x < 256

  const WORD_32 := 0x1_0000_0000

  /** An integer cut to a 32-bit int. */
  function Int32(n: int): int {
    (n + 0x8000_0000) % WORD_32 - 0x8000_0000
  }

  datatype Option<+T> = None | Some(value: T)

  datatype Result<+T> = Ok(value: T) | Err
}
