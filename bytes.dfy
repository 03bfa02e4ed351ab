/** Bytes as they travel over the serial link and the I2C bus. */
module Bytes {

  /** One octet. The C sources use `char`; every operation on it in the modelled
      code is a bit operation or an equality test, so an 8-bit vector is exact. */
  type byte = bv8

  datatype Option<+T> = None | Some(value: T)

  /** `(char) n` on a two's-complement machine: keep the low eight bits. */
  function Truncate(n: int): byte
  {
    (n % 256) as bv8
  }

  /** Two bytes are equal exactly when their numeric values are. */
  lemma Numbers(a: byte, b: byte)
    ensures a == b <==> a as int == b as int
  {
  }

  function Min(a: nat, b: nat): nat
  {
    if a <= b then a else b
  }
}
