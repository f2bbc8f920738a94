/** Value types shared by every module of the model. */
module Base {

  /** An optional value: Python's `None` or a value. */
  datatype Option<+T> = None | Some(value: T)

  /**
   * One byte of a Python `bytes` object, kept as the character whose code
   * point equals the byte's value.  Byte strings and text strings are then
   * ordered by the same lexicographic comparison, as Python orders them
   * (bytes by value, str by code point).
   */
  type byte = c: char | c as int < 256 witness 'a'

  /** A Python `bytes` object. */
  type Bytes = seq<byte>

  /** The byte with value `n`. */
  function ByteOf(n: int): (b: byte)
    requires 0 <= n < 256
    ensures b as int == n
  {
    n as char
  }
}
