/** Go's int64, in which durations are counted: arithmetic wraps around at 64 bits. */
module GoInt64 {
  const MIN := -0x8000_0000_0000_0000
  const MAX := 0x7fff_ffff_ffff_ffff
  const SPAN := 0x1_0000_0000_0000_0000

  predicate Fits(x: int) {
    MIN <= x <= MAX
  }

  /** The int64 congruent to x. */
  function Wrap(x: int): (r: int)
    ensures Fits(r) && (Fits(x) ==> r == x)
    ensures (x - r) % SPAN == 0
  {
    (x - MIN) % SPAN + MIN
  }

  /** What `time.Until` does instead of wrapping. */
  function Saturate(x: int): (r: int)
    ensures Fits(r) && (Fits(x) ==> r == x)
    ensures x > 0 <==> r > 0
    ensures x > 0 ==> r <= x
  {
    if x < MIN then MIN else if x > MAX then MAX else x
  }
}
