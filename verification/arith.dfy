/** Facts about integer multiplication and Euclidean division that the
    solver does not find unaided. */
module Arithmetic {

  /** `a * k` is at least `k` for `a >= 1`. */
  lemma {:induction false} MulAtLeast(a: nat, k: nat)
    requires a >= 1
    ensures a * k >= k
  {
    if a > 1 {
      MulAtLeast(a - 1, k);
      assert a * k == (a - 1) * k + k;
    }
  }

  /** A multiple of `k` strictly between `-k` and `k` is zero. */
  lemma MulBetween(a: int, k: int)
    requires k > 0 && -k < a * k < k
    ensures a == 0
  {
    if a > 0 {
      MulAtLeast(a, k);
    }
  }

  /** Euclidean division is unique: `q * k + m` with `0 <= m < k` divides
      into `q` with remainder `m`. */
  lemma DivModUnique(x: int, q: int, m: int, k: int)
    requires k > 0 && 0 <= m < k && x == q * k + m
    ensures x / k == q && x % k == m
  {
    var q', m' := x / k, x % k;
    assert (q - q') * k == m' - m;
    MulBetween(q - q', k);
  }

  /** `a / d` is at least `b` whenever `a >= b * d`. */
  lemma DivAtLeast(a: int, b: int, d: int)
    requires d > 0 && a >= b * d
    ensures a / d >= b
  {
    var q, m := a / d, a % d;
    assert a == q * d + m && m < d;
    assert (q - b + 1) * d == q * d - b * d + d;
    assert (q - b + 1) * d > 0;
  }
}
