/** Go's fixed-width integer behaviour that the adapter relies on. */
module GoInt {

  const Int64Min: int := -0x8000_0000_0000_0000
  const Int64Max: int := 0x7FFF_FFFF_FFFF_FFFF
  const TwoTo64: int := 0x1_0000_0000_0000_0000

  /** Go's int64 (and int, which is 64 bits wide on the platforms the adapter targets). */
  type Int64 = x: int | Int64Min <= x <= Int64Max

  /** Two's-complement wrap-around of an int64 sum that left the range. */
  function Wrap64(x: int): (r: Int64)
    ensures Int64Min <= x <= Int64Max ==> r == x
    ensures (r - x) % TwoTo64 == 0
    ensures Int64Max < x < Int64Max + TwoTo64 ==> r == x - TwoTo64
  {
    (x - Int64Min) % TwoTo64 + Int64Min
  }

  /** Go's integer division, which truncates toward zero (Dafny's `/` is Euclidean). */
  function TruncDiv(a: int, d: int): (q: int)
    requires d > 0
    ensures 0 <= a ==> 0 <= q && q * d <= a < q * d + d
    ensures a < 0 ==> q <= 0 && q * d - d < a <= q * d
  {
    if a >= 0 then a / d else -((-a) / d)
  }
}
