// Go's 64-bit integers, its conversion from floating point, and decimal digits.
module Numbers {

  const MAX_INT64: int := 0x7fff_ffff_ffff_ffff
  const MIN_INT64: int := -0x8000_0000_0000_0000

  predicate IsInt64(x: int) {
    MIN_INT64 <= x <= MAX_INT64
  }

  function Wrap64(x: int): int {
    (x - MIN_INT64) % 0x1_0000_0000_0000_0000 + MIN_INT64
  }

  function Truncate(x: real): int {
    if x >= 0.0 then x.Floor else -((-x).Floor)
  }

  // The number a decimal text stands for.
  function ValueOf(s: string): int {
    if s == "" then 0 else 10 * ValueOf(s[..|s| - 1]) + (s[|s| - 1] as int - '0' as int)
  }
}
