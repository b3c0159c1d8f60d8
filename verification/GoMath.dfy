/** The numeric conversions and library functions the Go code uses, over exact reals. */
module GoMath {

  /** Go's int(x): truncation toward zero. */
  function Trunc(x: real): int {
    if x >= 0.0 then x.Floor else -((-x).Floor)
  }

  function Ceil(x: real): int {
    -((-x).Floor)
  }

  /** C's fdim. */
  function Fdim(x: real, y: real): real {
    if x > y then x - y else 0.0
  }

  /** Multiplication under a name, so that proofs can hide it. */
  function Times(x: real, y: real): real {
    x * y
  }

  function Min(x: real, y: real): real {
    if x <= y then x else y
  }

  function Max(x: real, y: real): real {
    if x >= y then x else y
  }

  function Abs(x: real): real {
    if x < 0.0 then -x else x
  }

  type Byte = b: int | 0 <= b < 256

  /** The point a fraction f of the way from a to b. */
  function Blend(a: real, b: real, f: real): real {
    Times(a, 1.0 - f) + Times(b, f)
  }

  // ---- signs and orders of products, quotients and remainders ----

  lemma TimesSign(p: real, q: real)
    ensures q > 0.0 ==> (Times(p, q) < 0.0 <==> p < 0.0) && (Times(p, q) > 0.0 <==> p > 0.0)
    ensures q < 0.0 ==> (Times(p, q) < 0.0 <==> p > 0.0) && (Times(p, q) > 0.0 <==> p < 0.0)
    ensures p == 0.0 || q == 0.0 ==> Times(p, q) == 0.0
  {
  }

  lemma TimesMonotone(g: real, x: real, y: real)
    requires x >= y
    ensures g >= 0.0 ==> Times(g, x) >= Times(g, y)
    ensures g <= 0.0 ==> Times(g, x) <= Times(g, y)
  {
  }

  lemma ProductOrder(p: real, q: real, c: real)
    requires c > 0.0
    ensures p <= q ==> p * c <= q * c
    ensures p < q ==> p * c < q * c
  {
  }

  lemma SquareOrder(a: real, b: real)
    requires 0.0 <= a < b
    ensures Times(a, a) < Times(b, b)
  {
    TimesSign(b - a, b + a);
    SquareDifference(a, b);
  }

  lemma SquareDifference(a: real, b: real)
    ensures Times(b - a, b + a) == Times(b, b) - Times(a, a)
  {
  }

  /** A point between a and b is between any bounds on both. */
  lemma BlendBetween(a: real, b: real, f: real, lo: real, hi: real)
    requires lo <= a <= hi && lo <= b <= hi && 0.0 <= f <= 1.0
    ensures lo <= Blend(a, b, f) <= hi
  {
    hide Blend;
    BlendSign(a - lo, b - lo, f);
    BlendSign(hi - a, hi - b, f);
    BlendShifts(a, b, f, lo);
    BlendShifts(a, b, f, hi);
  }

  lemma BlendSign(a: real, b: real, f: real)
    requires a >= 0.0 && b >= 0.0 && 0.0 <= f <= 1.0
    ensures Blend(a, b, f) >= 0.0
  {
    TimesSign(a, 1.0 - f);
    TimesSign(b, f);
    hide Times;
  }

  lemma BlendShifts(a: real, b: real, f: real, c: real)
    ensures Blend(a - c, b - c, f) == Blend(a, b, f) - c
    ensures Blend(c - a, c - b, f) == c - Blend(a, b, f)
  {
  }

  lemma Remainder(a: int, n: int, q: int, r: int)
    requires n > 0 && a == q * n + r && 0 <= r < n
    ensures a % n == r && a / n == q
  {
    var p := a / n - q;
    assert a == a / n * n + a % n;
    assert p * n == r - a % n;
    assert p >= 1 ==> p * n >= n;
    assert p <= -1 ==> p * n <= -n;
  }

  /** math.Exp and math.Sqrt: any pair of functions with the signs below will do. */
  datatype Libm = Libm(exp: real -> real, sqrt: real -> real) {
    ghost predicate Valid() {
      && (forall x :: exp(x) > 0.0)
      && (forall x :: x <= 0.0 ==> exp(x) <= 1.0)
      && (forall x :: x > 0.0 ==> sqrt(x) > 0.0)
    }
  }
}
