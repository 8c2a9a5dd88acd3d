/** Machine words of the three Miresga programs, and the arithmetic on 32-bit
    sequence numbers (modulo 2^32) that all of them share. */
module Words {

  type u8 = x: int | 0 <= x < 0x100
  type u16 = x: int | 0 <= x < 0x1_0000
  type u32 = x: int | 0 <= x < 0x1_0000_0000

  const TWO_32: int := 0x1_0000_0000

  function Add32(a: u32, b: u32): (r: u32) {
    (a + b) % TWO_32
  }

  function Sub32(a: u32, b: u32): (r: u32) {
    (a - b) % TWO_32
  }

  /** `a` precedes `b` in the circular sequence space (section 3.4 of RFC 9293). */
  predicate SeqBefore(a: u32, b: u32) {
    0 < Sub32(b, a) < 0x8000_0000
  }

  /** The sequence number `k` bytes after `a`, for a stream of any length. */
  function Advance(a: u32, k: int): (r: u32) {
    (a + k) % TWO_32
  }
}
