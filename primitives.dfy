/** Machine integers and byte strings. Rust's `usize` lengths and `str::len()` count bytes. */
module Primitives {
  newtype byte = b: int | 0 <= b < 0x100

  /** A Rust `String` or `&str`, seen as its UTF-8 bytes. */
  type Bytes = seq<byte>

  const U32Bound: nat := 0x1_0000_0000
  const U64Bound: nat := 0x1_0000_0000_0000_0000

  newtype u16 = x: int | 0 <= x < 0x1_0000
  newtype u32 = x: int | 0 <= x < 0x1_0000_0000
  newtype u64 = x: int | 0 <= x < 0x1_0000_0000_0000_0000

  /** The bytes of an ASCII string literal (each character taken modulo 256). */
  function Ascii(s: string): (r: Bytes)
    ensures |r| == |s|
    ensures forall i | 0 <= i < |s| :: r[i] as int == s[i] as int % 0x100
  {
    seq(|s|, i requires 0 <= i < |s| => (s[i] as int % 0x100) as byte)
  }
}
