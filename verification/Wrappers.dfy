/** Small value types shared by the other modules. */
module Wrappers {

  /** A result that may be absent; stands for a pointer that may be NULL. */
  datatype Option<+T> = None | Some(value: T)

  /** The C integer widths that the modelled code relies on. */
  type u16 = x: nat | x < 0x1_0000
  type u32 = x: nat | x < 0x1_0000_0000

  /** A byte of packet data. */
  type byte = bv8
}
