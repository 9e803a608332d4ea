/** The `size_t` of the 64-bit targets the library is built for, and the
    capacity limit that `std::vector::reserve` checks before it allocates. */
module SizeT {
  /** `size_t` arithmetic is carried out modulo 2^64. */
  const Modulus: nat := 0x1_0000_0000_0000_0000

  /** `SIZE_MAX`, the largest `size_t`. */
  const SizeMax: nat := 0xFFFF_FFFF_FFFF_FFFF

  /** `std::vector<double>::max_size()` in libstdc++, `PTRDIFF_MAX / sizeof(double)`:
      `reserve` of more throws `std::length_error`, and no vector of `double`s is longer. */
  const DoubleVectorMax: nat := 0x0FFF_FFFF_FFFF_FFFF

  /** `a + b` on two `size_t`s: the sum, less 2^64 when it passes `SIZE_MAX`. */
  function AddWrap(a: nat, b: nat): (r: nat)
    requires a <= SizeMax && b <= SizeMax
    ensures r <= SizeMax && r == Wrap(a + b)
  {
    if a + b <= SizeMax then a + b else a + b - Modulus
  }

  /** The `size_t` that an unbounded sum or product leaves behind. */
  function Wrap(x: nat): (r: nat)
    ensures r <= SizeMax
    ensures x <= SizeMax ==> r == x
    ensures SizeMax < x < 2 * Modulus ==> r == x - Modulus
  {
    x % Modulus
  }
}
