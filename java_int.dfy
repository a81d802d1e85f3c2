/** Java's 32-bit `int`, with the two's-complement wrap-around of `++`. */
module JavaInt {

  newtype int32 = x: int | -0x8000_0000 <= x < 0x8000_0000

  const Modulus: int := 0x1_0000_0000

  /** The `int` value that an unbounded integer wraps to: the one congruent to `x` modulo 2^32. */
  function Wrap(x: int): (r: int32)
    ensures (r as int - x) % Modulus == 0
  {
    ((x + 0x8000_0000) % Modulus - 0x8000_0000) as int32
  }

  /** Java's `m++` on an `int` field. */
  function Increment(m: int32): (r: int32)
    ensures r == Wrap(m as int + 1)
    ensures r != m
  {
    if m == 0x7fff_ffff then -0x8000_0000 else m + 1
  }

  /** Two counts wrap to the same `int` exactly when they differ by a multiple of 2^32. */
  lemma WrapSameIff(a: int, b: int)
    ensures Wrap(a) == Wrap(b) <==> (a - b) % Modulus == 0
  {
  }

  /** Incrementing the wrapped value of a count is wrapping the incremented count. */
  lemma IncrementWrap(x: int)
    ensures Increment(Wrap(x)) == Wrap(x + 1)
  {
  }
}
