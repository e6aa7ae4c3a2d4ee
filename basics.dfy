/** Small value types shared by every component of the model. */
module Basics {

  /** A nullable value: `None` stands for a null pointer or handle. */
  datatype Option<+T> = None | Some(value: T)

  /** The value of an operation that either succeeds or throws / reports an error. */
  datatype Result<+T, +E> = Ok(value: T) | Err(error: E)

  /** An `unsigned char`: 0 .. 255. */
  newtype byte = b: int | 0 <= b < 256

  /** A (signed) `char` as stored in a `std::vector<char>` on the target platform. */
  newtype CChar = c: int | -128 <= c < 128

  /** The conversion `(unsigned char)c`: two's-complement reinterpretation of the bits. */
  function Unsigned(c: CChar): (b: byte)
    ensures b as int % 256 == c as int % 256
  {
    if c < 0 then (c as int + 256) as byte else c as byte
  }

  /** The conversion back, `(char)b`. */
  function Signed(b: byte): (c: CChar)
    ensures c as int % 256 == b as int % 256
  {
    if b < 128 then b as int as CChar else (b as int - 256) as CChar
  }

  /** The two conversions are mutually inverse, so `Unsigned` loses no information. */
  lemma UnsignedRoundTrip(c: CChar, b: byte)
    ensures Signed(Unsigned(c)) == c
    ensures Unsigned(Signed(b)) == b
  {
  }

  function Min(a: int, b: int): int { if a <= b then a else b }
}
