/** Bytes and byte strings, as the C++ program stores them. */
module Bytes {

  type byte = n: int | 0 <= n < 256

  datatype Option<+T> = None | Some(value: T)

  /** Two bytes, most significant first (MQTT 3.1.1 section 1.5.2). */
  function BigEndian16(n: int): seq<byte> {
    [n / 256 % 256, n % 256]
  }

  /** The smaller of two sizes. */
  function Min(a: nat, b: nat): nat {
    if a < b then a else b
  }
}
