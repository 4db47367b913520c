/** Facts about Euclidean division and multiplication by a positive number,
    used for the angle count and for the packing of two 16-bit words. */
module Arithmetic {

  /** Euclidean division is determined by its bounds. */
  lemma DivUnique(a: int, b: int, q: int)
    requires b > 0 && q * b <= a < q * b + b
    ensures a / b == q
  {
    var d := a / b - q;
    assert d * b == (a / b) * b - q * b;
    assert -b < d * b < b;
  }

  lemma DivShift(n: int, step: int)
    requires step > 0 && n >= step
    ensures (n - step) / step + 1 == n / step
  {
    var q := n / step;
    assert (q - 1) * step == q * step - step;
    DivUnique(n - step, step, q - 1);
  }

  /** `k * step <= n` exactly when `k <= n / step`. */
  lemma DivBound(n: int, step: int, k: int)
    requires step > 0
    ensures k * step <= n <==> k <= n / step
  {
    var q := n / step;
    if k <= q {
      MulMonotone(k, q, step);
    } else {
      MulMonotone(q + 1, k, step);
    }
  }

  lemma MulMonotone(a: int, b: int, step: int)
    requires a <= b && step > 0
    ensures a * step <= b * step
  {
    assert b * step - a * step == (b - a) * step;
  }
}
