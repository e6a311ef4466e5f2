/** Products of reals under a function symbol, so that proofs use only the laws they name. */
module Reals {

  function Times(a: real, b: real): real {
    a * b
  }

  lemma TimesPlus(a: real, b: real, c: real)
    ensures Times(a, b + c) == Times(a, b) + Times(a, c)
    ensures Times(b + c, a) == Times(b, a) + Times(c, a)
    ensures Times(b - c, a) == Times(b, a) - Times(c, a)
  {
  }

  lemma TimesScaled(a: real, b: real, c: real)
    ensures Times(a, Times(c, b)) == Times(c, Times(a, b))
  {
  }

  lemma TimesBound(x: real, y: real, c: real)
    requires x >= 0.0 && y <= c
    ensures Times(x, y) <= Times(c, x)
    ensures x > 0.0 && y < c ==> Times(x, y) < Times(c, x)
  {
    TimesPlus(x, c, y);
    TimesSign(c - y, x);
    TimesCommutes(x, y);
  }

  lemma TimesCommutes(a: real, b: real)
    ensures Times(a, b) == Times(b, a)
  {
  }

  lemma TimesSign(a: real, b: real)
    requires a >= 0.0 && b >= 0.0
    ensures Times(a, b) >= 0.0
    ensures a > 0.0 && b > 0.0 ==> Times(a, b) > 0.0
  {
    if a > 0.0 && b > 0.0 {
      PositiveProduct(a, b);
    }
  }

  lemma PositiveProduct(x: real, q: real)
    requires x > 0.0 && q > 0.0
    ensures x * q > 0.0
  {
  }

  /** Multiplying by a positive number keeps the sign. */
  lemma SignOfProduct(y: real, q: real)
    requires q > 0.0
    ensures y * q > 0.0 <==> y > 0.0
    ensures y * q < 0.0 <==> y < 0.0
  {
    if y > 0.0 {
      PositiveProduct(y, q);
    } else if y < 0.0 {
      PositiveProduct(-y, q);
      assert (-y) * q == -(y * q);
    }
  }
}
