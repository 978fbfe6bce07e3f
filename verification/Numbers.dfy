/** Small arithmetic shared by the timed parts: durations are counted in nanoseconds. */
module Numbers {
  const SECOND: nat := 1_000_000_000

  function Min(a: int, b: int): int {
    if a < b then a else b
  }

  function Max(a: int, b: int): int {
    if a < b then b else a
  }
}
