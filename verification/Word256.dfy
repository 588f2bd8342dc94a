/** The 256-bit words the replay computes with, and the 512-bit words it widens products to. */
module Word256 {
  import opened FloorMath

  /** Wide enough for the fee and weight denominators, which is all the replay asks of a word. */
  type WordBound = n: nat | 0xFFFF_FFFF_FFFF_FFFF <= n witness 0xFFFF_FFFF_FFFF_FFFF

  /** The largest word, 2^256 - 1 in the program. It is left symbolic, so everything proved about
      the replay holds at this width and at every other. */
  const U256_MAX: WordBound

  const U512_MAX: nat := (U256_MAX + 1) * (U256_MAX + 1) - 1

  type U256 = x: int | 0 <= x <= U256_MAX

  type U512 = x: int | 0 <= x <= U512_MAX

  function SaturatingAdd(a: U256, b: U256): (r: U256)
    ensures a + b <= U256_MAX ==> r == a + b
    ensures a <= r <= a + b
  {
    if a + b <= U256_MAX then a + b else U256_MAX
  }

  function SaturatingSub(a: U256, b: U256): (r: U256)
    ensures b <= a ==> r == a - b
    ensures a < b ==> r == 0
  {
    if b <= a then a - b else 0
  }

  /** A product of two 256-bit words, which always fits 512 bits. */
  function WideningMul(a: U256, b: U256): U512 {
    ProductBound(a, b, U256_MAX, U256_MAX);
    a * b
  }

  /** A sum of two 256-bit words, which always fits 512 bits. */
  function WideningAdd(a: U256, b: U256): U512 {
    ProductBound(1, U256_MAX + 1, U256_MAX + 1, U256_MAX + 1);
    a + b
  }
}
