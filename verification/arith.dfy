/** Integer helpers shared by the models: clamping and facts about Euclidean division. */
module Arith {

  /** `clamp` of the math headers: the nearest value of `[lo, hi]`. */
  function Clamp(v: int, lo: int, hi: int): (r: int)
    requires lo <= hi
    ensures lo <= r <= hi
    ensures lo <= v <= hi ==> r == v
    ensures v < lo ==> r == lo
    ensures v > hi ==> r == hi
  {
    if v < lo then lo else if v > hi then hi else v
  }

  lemma MulAtLeastOne(k: int, m: int)
    requires k >= 1 && m > 0
    ensures k * m >= m
  {
    assert (k - 1) * m >= 0;
  }

  /** Euclidean division is unique: `q * m + r` with `0 <= r < m` has remainder `r`. */
  lemma ModUnique(y: int, m: int, q: int, r: int)
    requires m > 0 && 0 <= r < m && y == q * m + r
    ensures y % m == r
  {
    var q0, r0 := y / m, y % m;
    assert y == q0 * m + r0;
    assert (q - q0) * m == r0 - r;
    if q - q0 >= 1 {
      MulAtLeastOne(q - q0, m);
    } else if q0 - q >= 1 {
      MulAtLeastOne(q0 - q, m);
    }
    assert q == q0;
  }

  /** Adding a multiple of the modulus does not change the remainder. */
  lemma ModAddMultiple(a: int, k: int, m: int)
    requires m > 0
    ensures (a + k * m) % m == a % m
  {
    var q, r := a / m, a % m;
    assert a + k * m == (q + k) * m + r;
    ModUnique(a + k * m, m, q + k, r);
  }

  /** Multiplying by a natural number keeps the order. */
  lemma MulMonotone(a: nat, b: nat, m: nat)
    requires a <= b
    ensures a * m <= b * m
  {
    assert b * m == a * m + (b - a) * m;
  }

  /** Euclidean division is unique: `q * m + r` with `0 <= r < m` has quotient `q` and remainder `r`. */
  lemma DivModUnique(y: int, m: int, q: int, r: int)
    requires m > 0 && 0 <= r < m && y == q * m + r
    ensures y / m == q && y % m == r
  {
    ModUnique(y, m, q, r);
    assert y == (y / m) * m + y % m;
    assert (q - y / m) * m == 0;
  }

  /** A number below `n` whole rows of `m` lies in one of the first `n` rows. */
  lemma DivBelow(k: nat, m: int, n: nat)
    requires m > 0 && k < n * m
    ensures k / m < n
  {
    var q := k / m;
    assert k == q * m + k % m;
    assert (n - q) * m == n * m - q * m;
    assert (n - q) * m > 0;
  }

  /** A number already below the modulus is its own remainder. */
  lemma ModSmall(v: int, m: int)
    requires 0 <= v < m
    ensures v % m == v
  {
  }
}
