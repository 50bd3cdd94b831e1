/** Block arithmetic on non-negative integers. Products, floor quotients
    and remainders are written `Mul`, `Quot` and `Rem` (Python's `k * f`,
    `n // f` and `n % f` on non-negative operands) and used through the
    linear facts proved here, so that the index reasoning of the other
    modules does not depend on the solver's non-linear arithmetic. */
module Arith {

  /** `k * f`. */
  function Mul(k: nat, f: nat): nat
  {
    k * f
  }

  /** Python's `n // f` for `n >= 0`, `f >= 1`. */
  function Quot(n: nat, f: nat): nat
    requires f >= 1
  {
    n / f
  }

  /** Python's `n % f` for `n >= 0`, `f >= 1`. */
  function Rem(n: nat, f: nat): nat
    requires f >= 1
  {
    n % f
  }

  lemma MulZero(f: nat)
    ensures Mul(0, f) == 0
  {
  }

  lemma MulSucc(k: nat, f: nat)
    ensures Mul(k + 1, f) == Mul(k, f) + f
  {
  }

  lemma MulOne(k: nat)
    ensures Mul(k, 1) == k
  {
  }

  lemma MulMono(a: nat, b: nat, f: nat)
    requires a <= b
    ensures Mul(a, f) <= Mul(b, f)
  {
    assert b * f == a * f + (b - a) * f;
  }

  /** `n` is `n // f` whole blocks of `f` plus a remainder below `f`. */
  lemma QuotRem(n: nat, f: nat)
    requires f >= 1
    ensures n == Mul(Quot(n, f), f) + Rem(n, f) && Rem(n, f) < f
  {
  }

  /** Quotient and remainder are the only such pair. */
  lemma QuotRemUnique(n: nat, f: nat, q: nat, r: nat)
    requires f >= 1 && r < f && n == Mul(q, f) + r
    ensures Quot(n, f) == q && Rem(n, f) == r
  {
    QuotRem(n, f);
    if Quot(n, f) < q {
      MulMono(Quot(n, f) + 1, q, f);
      MulSucc(Quot(n, f), f);
    }
    if Quot(n, f) > q {
      MulMono(q + 1, Quot(n, f), f);
      MulSucc(q, f);
    }
  }

  /** Block `k` of a length-`n` axis, `[k*f, k*f+f)`, lies inside the axis
      when `k < n // f`. */
  lemma BlockFits(k: nat, n: nat, f: nat)
    requires f >= 1 && k < Quot(n, f)
    ensures Mul(k, f) + f <= n
  {
    MulMono(k + 1, Quot(n, f), f);
    MulSucc(k, f);
    QuotRem(n, f);
  }

  /** A stacking index below `f * f` has a quotient below `f`. */
  lemma QuotBound(t: nat, f: nat)
    requires f >= 1 && t < Mul(f, f)
    ensures Quot(t, f) < f
  {
    QuotRem(t, f);
    if Quot(t, f) >= f {
      MulMono(f, Quot(t, f), f);
    }
  }

  /** A whole number of blocks divides evenly. */
  lemma QuotOfMul(n: nat, f: nat)
    requires f >= 1
    ensures Quot(Mul(n, f), f) == n && Rem(Mul(n, f), f) == 0
  {
    QuotRemUnique(Mul(n, f), f, n, 0);
  }
}
