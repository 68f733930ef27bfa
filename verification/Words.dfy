/** The C integer types of the firmware, with the wrap-around of its unsigned arithmetic written out. */
module Words {
  const U8 := 0x100
  const U16 := 0x1_0000
  const U32 := 0x1_0000_0000

  type uint8 = x: int | 0 <= x < 0x100
  type uint16 = x: int | 0 <= x < 0x1_0000
  type uint32 = x: int | 0 <= x < 0x1_0000_0000
  type int16 = x: int | -0x8000 <= x < 0x8000
  type int32 = x: int | -0x8000_0000 <= x < 0x8000_0000

  datatype Option<+T> = None | Some(value: T)

  function Wrap8(x: int): uint8 { x % 0x100 }
  function Wrap16(x: int): uint16 { x % 0x1_0000 }
  function Wrap32(x: int): uint32 { x % 0x1_0000_0000 }

  // Counting in 32 bits counts modulo 2^32.
  lemma WrapStep(n: int, d: int)
    ensures Wrap32(Wrap32(n) + d) == Wrap32(n + d)
  {
  }

  // A 32-bit counter measures a distance shorter than its turn.
  lemma WrapDistance(from: int, to: int)
    requires 0 <= to - from < U32
    ensures Wrap32(Wrap32(to) - Wrap32(from)) == to - from
  {
  }

  function Min(a: int, b: int): int { if a < b then a else b }
}
