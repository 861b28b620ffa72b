/** Facts about integer products and quotients with a variable divisor. */
module IntMath {

  function Abs(a: int): int {
    if a < 0 then -a else a
  }

  /** Go's quotient, which truncates toward zero. */
  function Quotient(a: int, b: int): int
    requires b != 0
  {
    if (a >= 0) == (b > 0) then Abs(a) / Abs(b) else -(Abs(a) / Abs(b))
  }

  lemma ProductAtLeast(d: int, u: int)
    requires u > 0 && d >= 1
    ensures d * u >= u
  {
    assert (d - 1) * u >= 0;
  }

  lemma ProductOrder(a: int, b: int, u: int)
    requires u > 0
    ensures a <= b <==> a * u <= b * u
    ensures a < b <==> a * u + u <= b * u
  {
    var d := b - a;
    assert d * u == b * u - a * u;
    if d >= 1 {
      ProductAtLeast(d, u);
    } else {
      ProductAtLeast(1 - d, u);
      assert (1 - d) * u == u - d * u;
    }
  }

  lemma QuotientBounds(a: int, u: int)
    requires u > 0
    ensures (a / u) * u <= a < (a / u) * u + u
    ensures a % u == a - (a / u) * u
  {
  }

  /** A quotient is the only number that fits. */
  lemma QuotientIs(a: int, u: int, q: int)
    requires u > 0 && q * u <= a < q * u + u
    ensures a / u == q
  {
    QuotientBounds(a, u);
    ProductOrder(a / u, q, u);
    ProductOrder(q, a / u, u);
  }

  lemma QuotientMonotone(a: int, b: int, u: int)
    requires u > 0 && a <= b
    ensures a / u <= b / u
  {
    QuotientBounds(a, u);
    QuotientBounds(b, u);
    ProductOrder(b / u, a / u, u);
  }

  lemma QuotientShrinks(a: int, u: int)
    requires u > 0 && a >= 0
    ensures 0 <= a / u <= a
  {
    QuotientBounds(a, u);
    ProductOrder(0, a / u, u);
    ProductOrder(a / u, -1, u);
    if a / u >= 1 {
      ProductAtLeast(u, a / u);
    }
  }
}
