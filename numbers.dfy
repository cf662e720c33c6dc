/** Integer helpers shared by the polynomial modules: Python's `**` with a
    non-negative exponent, the built-in `sum` over a list of exponents, and `max`. */
module Numbers {

  /** `x ** n` for `n >= 0`; like Python, `Pow(0, 0) == 1`. */
  function Pow(x: int, n: nat): int
  {
    if n == 0 then 1 else x * Pow(x, n - 1)
  }

  /** Python's `sum(powers)` over an exponent vector. */
  function Sum(s: seq<nat>): nat
  {
    if s == [] then 0 else s[0] + Sum(s[1..])
  }

  function Max(a: int, b: int): int
  {
    if a >= b then a else b
  }

  /** A single exponent never exceeds the total degree of its vector. */
  lemma {:induction false} ElementAtMostSum(s: seq<nat>, k: nat)
    requires k < |s|
    ensures s[k] <= Sum(s)
  {
    if k > 0 {
      ElementAtMostSum(s[1..], k - 1);
    }
  }

  lemma {:induction false} PowTwoPositive(n: nat)
    ensures Pow(2, n) >= 1
  {
    if n > 0 {
      PowTwoPositive(n - 1);
    }
  }
}
