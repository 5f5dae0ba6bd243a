/** Definitions shared by the modules of this project. */
module Common {

  datatype Option<+T> = None | Some(value: T)

  /** One octet of memory or of a network buffer. */
  newtype byte = x: int | 0 <= x < 256

  /** The number of values of an unsigned 64-bit word (`size_t`, `uintptr_t`). */
  const U64 := 0x1_0000_0000_0000_0000

  /** The value of a word after conversion to the signed type of the same width. */
  function ToSigned(w: int): (r: int)
    requires 0 <= w < U64
    ensures w < U64 / 2 ==> r == w
    ensures w >= U64 / 2 ==> r == w - U64
  {
    if w < U64 / 2 then w else w - U64
  }

  /** A character of ASCII as an octet. */
  function Octet(c: char): byte
    requires c < 128 as char
  {
    c as int as byte
  }
}
