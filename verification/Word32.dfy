/** 32-bit machine words as integers, with the wrap-around and bitwise operations of the emulated
    processor written out. */
module Word32 {

  const WORD: int := 0x1_0000_0000
  const SIGN: int := 0x8000_0000

  type u32 = x: int | 0 <= x < 0x1_0000_0000

  function Wrap(x: int): u32 { x % 0x1_0000_0000 }

  function Plus(x: int, y: int): u32 { Wrap(x + y) }

  function Times(x: int, y: int): u32 { Wrap(x * y) }

  function Not(x: u32): u32 { WORD - 1 - x }

  predicate Negative(x: u32) { x >= SIGN }

  /** The word read as a two's complement number. */
  function Signed(x: u32): int { if x >= SIGN then x - WORD else x }

  function Pow2(n: nat): (r: nat)
    ensures r > 0
  {
    if n == 0 then 1 else 2 * Pow2(n - 1)
  }

  /** Combines the low `bits` bits of two numbers, bit by bit. */
  function Bitwise(x: nat, y: nat, bits: nat, f: (bool, bool) -> bool): (r: nat)
    ensures r < Pow2(bits)
    decreases bits
  {
    if bits == 0 then 0
    else (if f(x % 2 == 1, y % 2 == 1) then 1 else 0) + 2 * Bitwise(x / 2, y / 2, bits - 1, f)
  }

  function And(x: u32, y: u32): u32 { Wrap(Bitwise(x, y, 32, (a, b) => a && b)) }

  function Or(x: u32, y: u32): u32 { Wrap(Bitwise(x, y, 32, (a, b) => a || b)) }

  function Xor(x: u32, y: u32): u32 { Wrap(Bitwise(x, y, 32, (a: bool, b: bool) => a != b)) }

  function ShiftLeft(x: u32, n: nat): u32 { Wrap(x * Pow2(n)) }

  function ShiftRight(x: u32, n: nat): u32 { Wrap(x / Pow2(n)) }

  /** Shift right keeping the sign: the signed quotient, rounded down. */
  function ShiftRightSigned(x: u32, n: nat): u32 { Wrap(Signed(x) / Pow2(n)) }

  function Rotate(x: u32, n: nat): u32
    requires n < 32
  {
    Wrap(ShiftRight(x, n) + ShiftLeft(x, 32 - n))
  }

  predicate Odd(x: int) { x % 2 == 1 }

  /** The word with its lowest `n` bits cleared, for the two alignments that occur. */
  function AlignDown(x: u32, n: int): u32
    requires n == 2 || n == 4
  {
    x - x % n
  }
}
