/** Small pieces of JavaScript semantics shared by every module of the model:
    a missing value, and the `%` operator as JavaScript evaluates it. */
module JsBase {

  /** A value that may be missing (`null`, `undefined`, or not of the expected type). */
  datatype Option<+T> = None | Some(value: T)

  /** JavaScript's `a % n` for a positive divisor: the remainder takes the sign of the
      dividend, unlike Dafny's `%`, whose remainder is never negative. */
  function Rem(a: int, n: int): (r: int)
    requires n > 0
    ensures a >= 0 ==> 0 <= r < n
    ensures a >= 0 ==> r == a % n
    ensures a < 0 ==> -n < r <= 0
    ensures (a - r) % n == 0
  {
    if a >= 0 then
      ModUnique(a - a % n, n, a / n, 0);
      a % n
    else
      ModUnique(a + (-a) % n, n, -((-a) / n), 0);
      -((-a) % n)
  }

  /** Dafny's `%` on a dividend known to lie in `[q * n, (q + 1) * n)`, for small `q`. */
  lemma ModBetween(a: int, n: int, q: int)
    requires n > 0 && 0 <= q <= 2 && q * n <= a < (q + 1) * n
    ensures a % n == a - q * n
  {
    var k := a / n;
    assert a == n * k + a % n;
    if k < q {
      assert false;
    } else if k > q {
      assert false;
    }
  }

  /** A product of a positive number and a positive multiplier is at least the number. */
  lemma MulMono(n: int, d: int)
    requires n > 0 && d >= 1
    ensures n * d >= n
  {
  }

  /** The only multiple of `n` strictly between `-n` and `n` is 0. */
  lemma MulZero(n: int, d: int)
    requires n > 0 && -n < n * d < n
    ensures d == 0
  {
    if d >= 1 {
      MulMono(n, d);
    } else if d <= -1 {
      MulMono(n, -d);
    }
  }

  /** Dafny's `%` gives the one remainder in `[0, n)` of any decomposition `n * q + r`. */
  lemma ModUnique(a: int, n: int, q: int, r: int)
    requires n > 0 && 0 <= r < n && a == n * q + r
    ensures a % n == r
  {
    var k := a / n;
    assert a == n * k + a % n;
    assert n * (k - q) == r - a % n;
    MulZero(n, k - q);
  }

  /** One more on the dividend moves the remainder one on, wrapping to 0. */
  lemma ModAddOne(a: int, n: int)
    requires n > 0
    ensures (a + 1) % n == if a % n == n - 1 then 0 else a % n + 1
  {
    var q := a / n;
    assert a == n * q + a % n;
    if a % n == n - 1 {
      ModUnique(a + 1, n, q + 1, 0);
    } else {
      ModUnique(a + 1, n, q, a % n + 1);
    }
  }
}
