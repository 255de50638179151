/** Go's fixed-width integers, with their conversions written out. */
module Words {
  const TWO_TO_31 := 0x8000_0000
  const TWO_TO_32 := 0x1_0000_0000
  const TWO_TO_63 := 0x8000_0000_0000_0000
  const TWO_TO_64 := 0x1_0000_0000_0000_0000
  const MAX_INT64 := TWO_TO_63 - 1

  type Int64 = x: int | -TWO_TO_63 <= x <= MAX_INT64

  type Uint64 = x: nat | x < TWO_TO_64

  type Uint32 = x: nat | x < TWO_TO_32

  /** Two's complement wrap-around of an int64. */
  function Wrap64(x: int): Int64 {
    (x + TWO_TO_63) % TWO_TO_64 - TWO_TO_63
  }

  /** The conversion to uint64. */
  function U64(x: int): Uint64 {
    x % TWO_TO_64
  }

  /** Division of signed integers truncates toward zero. */
  function TruncDiv(a: int, b: nat): int
    requires b > 0
  {
    if a >= 0 then a / b else -(-a / b)
  }
}
