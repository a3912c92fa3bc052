/** Fixed-width unsigned integers as the C sources use them, and the byte orders they are stored in. */
module Words {
  const W16 := 0x1_0000
  const W32 := 0x1_0000_0000

  type uint8 = x: int | 0 <= x < 0x100
  type uint16 = x: int | 0 <= x < 0x1_0000
  type uint32 = x: int | 0 <= x < 0x1_0000_0000

  datatype Option<+T> = None | Some(value: T)

  /** `x++` on a uint8_t. */
  function Inc8(x: uint8): uint8 {
    if x == 255 then 0 else x + 1
  }

  /** Unsigned 32-bit subtraction `a - b`, which wraps. */
  function Sub32(a: uint32, b: uint32): uint32 {
    if a >= b then a - b else a - b + W32
  }

  /** Unsigned 32-bit addition, which wraps. */
  function Add32(a: uint32, n: nat): uint32 { (a + n) % W32 }

  /** Network byte order. */
  function Be16(v: uint16): seq<uint8> { [v / 0x100, v % 0x100] }

  function Be32(v: uint32): seq<uint8> {
    [v / 0x100_0000, v / 0x1_0000 % 0x100, v / 0x100 % 0x100, v % 0x100]
  }

  /** The 32-bit tick counter shown by a clock whose true reading is `t` milliseconds. */
  function Tick(t: nat): uint32 {
    t % W32
  }

  lemma Regroup<T>(a: seq<T>, b: seq<T>, c: seq<T>)
    ensures (a + b) + c == a + (b + c)
  {
  }

  /** A wrapped tick difference never exceeds the time that really elapsed. */
  lemma TickDifference(earlier: nat, later: nat)
    requires earlier <= later
    ensures Sub32(Tick(later), Tick(earlier)) == (later - earlier) % W32
    ensures Sub32(Tick(later), Tick(earlier)) <= later - earlier
  {
  }
}
