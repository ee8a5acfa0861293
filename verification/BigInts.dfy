/** Heap-allocated integers of any size, as math/big has them: operations overwrite the receiver. */
module BigInts {
  import opened Numerals
  import opened Text

  class BigInt {
    var v: int

    constructor (n: int)
      ensures v == n
    {
      v := n;
    }

    /** The receiver becomes the product; it may itself be one of the factors. */
    method Mul(x: BigInt, y: BigInt)
      modifies this
      ensures v == old(x.v * y.v)
    {
      v := x.v * y.v;
    }

    /** The receiver becomes the quotient, rounded so that the remainder is not negative. */
    method Div(x: BigInt, y: BigInt)
      requires y.v != 0
      modifies this
      ensures v == old(x.v / y.v)
    {
      v := x.v / y.v;
    }
  }

  /** What lies above 64 bits is cut off, and the sign is ignored. */
  lemma LowBits(n: nat, k: nat)
    ensures Low64(n + k * UINT64_BOUND) == Low64(n) && Low64(0 - n) == Low64(n)
    ensures n < UINT64_BOUND ==> Low64(n) == n
  {
    DivModUnique(UINT64_BOUND, n / UINT64_BOUND + k, n % UINT64_BOUND);
    DivModIdentity(UINT64_BOUND, n);
    assert (n / UINT64_BOUND + k) * UINT64_BOUND == n / UINT64_BOUND * UINT64_BOUND + k * UINT64_BOUND;
  }

  /** big.Int.Uint64: the low 64 bits of the magnitude. */
  function Low64(n: int): uint64 {
    (if n < 0 then -n else n) % UINT64_BOUND
  }
}
