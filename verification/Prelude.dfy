/** Shared datatypes, machine-integer constants and names for plain values. */
module Prelude {

  datatype Option<+T> = None | Some(value: T)

  /** 2^64: Go's uint64 arithmetic is arithmetic modulo this number. */
  const TWO_64: nat := 0x1_0000_0000_0000_0000

  /** 2^32: Go's uint32 arithmetic is arithmetic modulo this number. */
  const TWO_32: nat := 0x1_0000_0000

  type U64 = n: int | 0 <= n < TWO_64

  type Byte = b: int | 0 <= b < 256

  /** Account addresses and storage words are compared and used as keys only. */
  type Address = nat
  type Hash = nat
}
