/**
 * Go's fixed-width integers as they appear in the replica planner: broker and
 * partition ids are `int32`, replica counts and replication factors `int16`.
 * Go's arithmetic on them wraps around (two's complement); `Sub16` writes
 * that out where the source can overflow.
 */
module IntTypes {

  const MinInt16: int := -0x8000
  const MaxInt16: int := 0x7fff

  newtype int16 = x: int | -0x8000 <= x < 0x8000
  newtype int32 = x: int | -0x8000_0000 <= x < 0x8000_0000

  /** Reduces an integer to int16 the way a Go int16 result wraps. */
  function Wrap16(x: int): (r: int16)
    ensures MinInt16 <= x <= MaxInt16 ==> r as int == x
    ensures x < MinInt16 && MinInt16 - 0x10000 <= x ==> r as int == x + 0x10000
    ensures MaxInt16 < x && x <= MaxInt16 + 0x10000 ==> r as int == x - 0x10000
  {
    ((x - MinInt16) % 0x10000 + MinInt16) as int16
  }

  /** Go's `a - b` on two int16 values. */
  function Sub16(a: int16, b: int16): (r: int16)
    ensures MinInt16 <= a as int - b as int <= MaxInt16 ==> r as int == a as int - b as int
    ensures a as int - b as int < MinInt16 ==> r as int == a as int - b as int + 0x10000
    ensures MaxInt16 < a as int - b as int ==> r as int == a as int - b as int - 0x10000
  {
    Wrap16(a as int - b as int)
  }
}
