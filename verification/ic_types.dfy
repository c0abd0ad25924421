/** Values shared by the two canisters' interfaces. */
module IcTypes {

  /** Candid `nat32` / Rust `u32`. */
  type U32 = x: int | 0 <= x < 0x1_0000_0000
  /** Candid `nat64` / Rust `u64`. */
  type U64 = x: int | 0 <= x < 0x1_0000_0000_0000_0000

  /** An Internet Computer principal: opaque bytes, compared for equality only. */
  datatype Principal = Principal(bytes: seq<bv8>)
}
