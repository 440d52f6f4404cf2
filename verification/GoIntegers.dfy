/** Go's integers where they differ from the mathematical ones: 64 bits, and division towards zero. */
module GoIntegers {

  const MAX_INT := 0x7FFF_FFFF_FFFF_FFFF
  const MAX_UINT := 0xFFFF_FFFF_FFFF_FFFF

  /** int(u) for a uint64, and the sum or difference of two ints: 2^64 is taken off what is too large. */
  function Wrapped(x: int): int {
    if x > MAX_INT then x - MAX_UINT - 1 else x
  }

  /** What is left of any integer in 64 bits: its two's complement value. */
  function Signed(x: int): int {
    Wrapped(x % (MAX_UINT + 1))
  }

  lemma SignedInRange(x: int)
    ensures -MAX_INT - 1 <= Signed(x) <= MAX_INT
    ensures Signed(x) == x <==> -MAX_INT - 1 <= x <= MAX_INT
    ensures Signed(x) == 0 <==> x % (MAX_UINT + 1) == 0
  {
  }

  function TruncDiv(a: int, b: int): int
    requires b > 0
  {
    if a >= 0 then a / b else -((-a) / b)
  }

  /** Division by any divisor but zero. */
  function Quotient(a: int, b: int): int
    requires b != 0
  {
    if b > 0 then TruncDiv(a, b) else -TruncDiv(a, -b)
  }

  lemma MulMonotone(a: int, b: int, n: int)
    requires a <= b && n > 0
    ensures a * n <= b * n
  {
  }

  lemma MulLess(a: int, b: int, n: int)
    requires a * n < b * n && n > 0
    ensures a < b
  {
    if a >= b {
      MulMonotone(b, a, n);
    }
  }

  lemma DivMod(x: nat, n: int)
    requires n > 0
    ensures 0 <= x / n && x / n * n <= x < x / n * n + n
    ensures x == x / n * n + x % n
  {
    assert x == x / n * n + x % n;
  }

  lemma QuotientAtLeast(x: nat, n: int, k: nat)
    requires n > 0
    ensures x / n >= k <==> x >= k * n
  {
    DivMod(x, n);
    var q := x / n;
    if q >= k {
      MulMonotone(k, q, n);
    } else {
      MulMonotone(q + 1, k, n);
      assert (q + 1) * n == q * n + n;
    }
  }
}
