/** Integer facts the model needs: JavaScript's `%` and the step behaviour of
    Euclidean division and remainder. */
module Arith {

  function Abs(x: int): (r: nat)
    ensures r == x || r == -x
  {
    if x < 0 then -x else x
  }

  /** JavaScript's `%` on integers: truncating division, so the remainder
      takes the sign of the dividend (Dafny's own `%` is Euclidean). */
  function JsRem(a: int, b: int): (r: int)
    requires b != 0
    ensures Abs(r) < Abs(b)
    ensures a >= 0 ==> 0 <= r
    ensures a <= 0 ==> r <= 0
    ensures a >= 0 ==> r == a % Abs(b)
  {
    if a >= 0 then a % Abs(b) else -((-a) % Abs(b))
  }

  /** Division and remainder by a positive divisor are determined by any
      decomposition `x == q * d + r` with `0 <= r < d`. */
  lemma DivModUnique(x: int, d: int, q: int, r: int)
    requires d > 0 && 0 <= r < d && x == q * d + r
    ensures x / d == q && x % d == r
  {
    var q0, r0 := x / d, x % d;
    var k := q - q0;
    assert k * d == r0 - r by {
      assert q * d - q0 * d == (q - q0) * d;
    }
  }

  /** Counting up by one: the remainder wraps to 0 and the quotient grows
      exactly when the remainder was `d - 1`. */
  lemma DivModSucc(n: int, d: int)
    requires d > 0
    ensures n % d == d - 1 ==> (n + 1) % d == 0 && (n + 1) / d == n / d + 1
    ensures n % d != d - 1 ==> (n + 1) % d == n % d + 1 && (n + 1) / d == n / d
  {
    var q, r := n / d, n % d;
    if r == d - 1 {
      DivModUnique(n + 1, d, q + 1, 0);
    } else {
      DivModUnique(n + 1, d, q, r + 1);
    }
  }
}
