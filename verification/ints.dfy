/** The fixed-width unsigned integers of the canister's records.
    Dafny integers are unbounded, so each width is a subset type of `int`;
    arithmetic that could leave a range is ruled out by preconditions at the
    call sites that perform it. */
module Ints {

  const U16_MAX: int := 0xFFFF
  const U32_MAX: int := 0xFFFF_FFFF
  const U64_MAX: int := 0xFFFF_FFFF_FFFF_FFFF

  type u16 = x: int | 0 <= x <= U16_MAX
  type u32 = x: int | 0 <= x <= U32_MAX
  type u64 = x: int | 0 <= x <= U64_MAX
}
