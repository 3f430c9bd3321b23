/** What several modules share. */
module Basics {
  type byte = x: int | 0 <= x < 256

  datatype Option<+T> = None | Some(value: T)

  /** 2^32: where a 32-bit unsigned number wraps. */
  const UINT: nat := 0x1_0000_0000

  /** Quotient and remainder are what the division equation says. */
  lemma Quotient(n: nat, d: nat, q: nat, r: nat)
    requires r < d && n == d * q + r
    ensures n / d == q && n % d == r
  {
    if q > n / d {
      MulStep(d, q, n / d);
    } else if q < n / d {
      MulStep(d, n / d, q);
    }
  }

  lemma {:induction false} MulStep(d: nat, a: nat, b: nat)
    requires a > b
    ensures d * a >= d * b + d
  {
    if a > b + 1 { MulStep(d, a - 1, b); }
  }
}
