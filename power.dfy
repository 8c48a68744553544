/**
 * `Math.pow(base, n)` for a whole, non-negative exponent, over exact reals,
 * and the facts about it that the investor comparison relies on.
 */
module Power {

  /** `base` multiplied by itself `n` times; `Pow(base, 0)` is 1, as `Math.pow` gives. */
  function Pow(base: real, n: nat): (p: real)
    ensures base >= 0.0 ==> p >= 0.0
    ensures base > 0.0 ==> p > 0.0
  {
    if n == 0 then 1.0 else base * Pow(base, n - 1)
  }

  /** Multiplying by a non-negative factor keeps an inequality. */
  lemma MulMonotone(c: real, a: real, b: real)
    requires 0.0 <= c && a <= b
    ensures c * a <= c * b
  {}

  /** Multiplying by a positive factor keeps a strict inequality. */
  lemma MulStrictlyMonotone(c: real, a: real, b: real)
    requires 0.0 < c && a < b
    ensures c * a < c * b
  {}

  /** Every power of 1 is 1. */
  lemma {:induction false} PowOfOne(n: nat)
    ensures Pow(1.0, n) == 1.0
  {
    if n > 0 {
      PowOfOne(n - 1);
    }
  }

  /** Raising to a fixed power preserves the order of non-negative bases. */
  lemma {:induction false} PowMonotoneInBase(x: real, y: real, n: nat)
    requires 0.0 <= x <= y
    ensures Pow(x, n) <= Pow(y, n)
  {
    if n > 0 {
      PowMonotoneInBase(x, y, n - 1);
      calc {
        Pow(x, n);
      ==
        x * Pow(x, n - 1);
      <= { MulMonotone(Pow(x, n - 1), x, y); }
        y * Pow(x, n - 1);
      <= { MulMonotone(y, Pow(x, n - 1), Pow(y, n - 1)); }
        y * Pow(y, n - 1);
      ==
        Pow(y, n);
      }
    }
  }

  /** With at least one factor, a strictly larger non-negative base gives a strictly larger power. */
  lemma {:induction false} PowStrictlyMonotoneInBase(x: real, y: real, n: nat)
    requires 0.0 <= x < y
    requires n >= 1
    ensures Pow(x, n) < Pow(y, n)
  {
    PowMonotoneInBase(x, y, n - 1);
    calc {
      Pow(x, n);
    ==
      x * Pow(x, n - 1);
    <= { MulMonotone(x, Pow(x, n - 1), Pow(y, n - 1)); }
      x * Pow(y, n - 1);
    <  // Pow(y, n - 1) > 0 because y > 0
      y * Pow(y, n - 1);
    ==
      Pow(y, n);
    }
  }

  /** For a base of at least 1, more factors never give less. */
  lemma {:induction false} PowMonotoneInExponent(base: real, m: nat, n: nat)
    requires base >= 1.0
    requires m <= n
    ensures Pow(base, m) <= Pow(base, n)
    decreases n - m
  {
    if m < n {
      PowMonotoneInExponent(base, m, n - 1);
      calc {
        Pow(base, n - 1);
      ==
        Pow(base, n - 1) * 1.0;
      <= { MulMonotone(Pow(base, n - 1), 1.0, base); }
        Pow(base, n - 1) * base;
      ==
        Pow(base, n);
      }
    }
  }

  /** Bernoulli's inequality: `(1 + r)^n >= 1 + n·r` whenever `r >= -1`. */
  lemma {:induction false} Bernoulli(r: real, n: nat)
    requires r >= -1.0
    ensures Pow(1.0 + r, n) >= 1.0 + (n as real) * r
  {
    if n > 0 {
      Bernoulli(r, n - 1);
      var k := (n - 1) as real;
      var p := Pow(1.0 + r, n - 1);
      var growth, simple := 1.0 + r, 1.0 + k * r;
      calc {
        Pow(1.0 + r, n);
      ==
        growth * p;
      >= { MulMonotone(growth, simple, p); }
        growth * simple;
      ==
        1.0 + (k + 1.0) * r + k * (r * r);
      >= { MulMonotone(k, 0.0, r * r); }
        1.0 + (k + 1.0) * r;
      }
    }
  }
}
