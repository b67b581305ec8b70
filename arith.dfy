/** Facts about Euclidean remainders used by the index arithmetic of the rotators. */
module Arith {

  /** `x % n` is the unique remainder in [0, n) of x modulo n. */
  lemma {:induction false} ModUnique(x: int, n: int, q: int, r: int)
    requires n > 0 && 0 <= r < n && x == n * q + r
    ensures x % n == r
  {
    var q', r' := x / n, x % n;
    assert x == n * q' + r';
    var d := q - q';
    assert n * q - n * q' == n * d;
    assert n * d == r' - r;
  }

  /** Reducing before adding does not change the remainder. */
  lemma {:induction false} ModAdd(a: nat, b: nat, n: int)
    requires n > 0
    ensures (a % n + b) % n == (a + b) % n
  {
    var q, r := a / n, a % n;
    var q2, r2 := (r + b) / n, (r + b) % n;
    ModUnique(a + b, n, q + q2, r2);
  }
}
