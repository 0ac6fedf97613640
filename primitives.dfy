/** Values shared by every part of the model: an optional value and the
    widths of the machine integers the load generator computes with.
    A 64-bit target is assumed, so `usize` and `u64` have the same range. */
module Primitives {

  datatype Option<+T> = None | Some(value: T)

  /** `u64::MAX` */
  const U64_MAX: nat := 0xFFFF_FFFF_FFFF_FFFF

  /** `usize::MAX` on a 64-bit target */
  const USIZE_MAX: nat := 0xFFFF_FFFF_FFFF_FFFF

  /** Number of values of a 64-bit unsigned integer. */
  const TWO_TO_64: nat := 0x1_0000_0000_0000_0000

  /** An integer-to-integer `as u64` cast: keeps the low 64 bits. */
  function TruncateToU64(x: nat): (r: nat)
    ensures r <= U64_MAX
    ensures x <= U64_MAX ==> r == x
  {
    x % TWO_TO_64
  }
}
