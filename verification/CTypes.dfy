/** The C integer types and their wrapping increments, an optional value, and a fact
    about byte sequences. */
module CTypes {
  type uint8 = x: int | 0 <= x < 0x100
  type uint16 = x: int | 0 <= x < 0x1_0000
  type uint32 = x: int | 0 <= x < 0x1_0000_0000
  type uint64 = x: int | 0 <= x < 0x1_0000_0000_0000_0000
  type byte = uint8

  datatype Option<T> = None | Some(value: T)

  /** Concatenation is associative. */
  lemma Regroup(a: seq<byte>, b: seq<byte>, c: seq<byte>)
    ensures (a + b) + c == a + (b + c)
  {
  }

  function Inc16(x: uint16): uint16 {
    if x == 0xFFFF then 0 else x + 1
  }

  function Inc32(x: uint32): uint32 {
    if x == 0xFFFF_FFFF then 0 else x + 1
  }

  function Inc64(x: uint64): uint64 {
    if x == 0xFFFF_FFFF_FFFF_FFFF then 0 else x + 1
  }
}
