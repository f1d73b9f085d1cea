/** Machine integers used by the contract's storage. */
module Int32 {

  /** The signed 32-bit range of Rust's `i32`. The contract stores and copies
      these values but never computes with them, so no wrap-around arises. */
  newtype i32 = x: int | -0x8000_0000 <= x < 0x8000_0000
}
