/** Fixed-point prices: an int64 value and an int32 decimal scale, with Go's wrap-around and its
    division that truncates toward zero. Quantities use the same methods. */
module FixedPoint {
  import opened IntMath

  const TWO_TO_63: int := 0x8000_0000_0000_0000
  const TWO_TO_64: int := 0x1_0000_0000_0000_0000

  predicate InInt64(x: int) {
    -TWO_TO_63 <= x < TWO_TO_63
  }

  function Wrap64(x: int): int {
    (x + TWO_TO_63) % TWO_TO_64 - TWO_TO_63
  }

  /** The exact power of ten. */
  function TenTo(n: nat): (t: int)
    ensures t > 0
  {
    if n == 0 then 1 else 10 * TenTo(n - 1)
  }

  /** What `pow10` returns. */
  function Pow10(n: int): int {
    if n < 0 then 0 else Wrap64(TenTo(n))
  }

  lemma DivModUnique(y: int, q: int, r: int)
    requires y == q * TWO_TO_64 + r && 0 <= r < TWO_TO_64
    ensures y % TWO_TO_64 == r
  {
    var q' := y / TWO_TO_64;
    assert y == q' * TWO_TO_64 + y % TWO_TO_64;
  }

  lemma WrapShift(x: int, k: int)
    ensures Wrap64(x + k * TWO_TO_64) == Wrap64(x)
  {
    var y := x + TWO_TO_63;
    var q, r := y / TWO_TO_64, y % TWO_TO_64;
    assert y + k * TWO_TO_64 == (q + k) * TWO_TO_64 + r;
    DivModUnique(y + k * TWO_TO_64, q + k, r);
  }

  /** Wrapping after every product is wrapping once at the end. */
  lemma WrapOnce(x: int)
    ensures Wrap64(Wrap64(x) * 10) == Wrap64(x * 10)
  {
    var k := (x + TWO_TO_63) / TWO_TO_64;
    assert Wrap64(x) == x - k * TWO_TO_64;
    WrapShift(x * 10, -10 * k);
  }

  method ComputePow10(n: int) returns (result: int)
    ensures result == Pow10(n)
  {
    if n < 0 {
      return 0;
    }
    result := 1;
    for i := 0 to n
      invariant result == Wrap64(TenTo(i))
    {
      WrapOnce(TenTo(i));
      result := Wrap64(result * 10);
    }
  }

  // ----- prices -----

  function Finer(a: int, b: int): int {
    if a > b then a else b
  }

  /** The rational number value / 10^scale, one factor of ten at a time. */
  ghost function Decimal(value: int, scale: int): real
    decreases if scale < 0 then -scale else scale
  {
    if scale == 0 then value as real
    else if scale > 0 then Decimal(value, scale - 1) / 10.0
    else Decimal(value, scale + 1) * 10.0
  }

  /** value * 10^n, one factor of ten at a time. */
  ghost function Shifted(value: int, n: nat): int {
    if n == 0 then value else 10 * Shifted(value, n - 1)
  }

  datatype Price = Price(value: int, scale: int) {

    /** Bringing a price to a coarser scale divides, and must not divide by zero. */
    predicate CanRescale(newScale: int) {
      newScale < scale ==> Pow10(scale - newScale) != 0
    }

    function Rescale(newScale: int): Price
      requires CanRescale(newScale)
    {
      if scale == newScale then this
      else if newScale > scale then Price(Wrap64(value * Pow10(newScale - scale)), newScale)
      else Price(Wrap64(Quotient(value, Pow10(scale - newScale))), newScale)
    }

    /** Both operands at the finer of the two scales, which is how every binary operation starts. */
    function Align(other: Price): (Price, Price) {
      if scale > other.scale then (this, other.Rescale(scale))
      else if other.scale > scale then (this.Rescale(other.scale), other)
      else (this, other)
    }

    function Add(other: Price): Price {
      var (p, q) := Align(other);
      Price(Wrap64(p.value + q.value), p.scale)
    }

    function Sub(other: Price): Price {
      var (p, q) := Align(other);
      Price(Wrap64(p.value - q.value), p.scale)
    }

    function Div(divisor: int): Price {
      if divisor == 0 then Price(0, 0) else Price(Wrap64(Quotient(value, divisor)), scale)
    }

    function Round(to: int): Price
      requires CanRescale(to)
    {
      if to >= scale then this
      else
        var unit := Pow10(scale - to);
        Price(Wrap64(Quotient(Wrap64(value + Quotient(unit, 2)), unit)), to)
    }

    predicate GreaterThan(other: Price) {
      var (p, q) := Align(other);
      p.value > q.value
    }

    predicate LessThan(other: Price) {
      var (p, q) := Align(other);
      p.value < q.value
    }

    predicate Equal(other: Price) {
      var (p, q) := Align(other);
      p.value == q.value
    }

    predicate GreaterOrEqual(other: Price) {
      GreaterThan(other) || Equal(other)
    }

    predicate LessOrEqual(other: Price) {
      LessThan(other) || Equal(other)
    }

    // ----- the exact value -----

    ghost function Exact(): real {
      Decimal(value, scale)
    }

    /** The price has an int64 value at this scale, which is not coarser than its own. */
    ghost predicate FitsAt(s: int) {
      scale <= s && InInt64(Shifted(value, s - scale))
    }

    /** No operand overflows when the two are aligned. */
    ghost predicate FitsWith(other: Price) {
      FitsAt(Finer(scale, other.scale)) && other.FitsAt(Finer(scale, other.scale))
    }
  }

  datatype Quote = Quote(bid: Price, ask: Price) {
    function Spread(): Price {
      ask.Sub(bid)
    }

    function MidPrice(): Price {
      bid.Add(ask).Div(2)
    }
  }

  lemma {:induction false} ShiftedIsProduct(value: int, n: nat)
    ensures Shifted(value, n) == value * TenTo(n)
  {
    if n > 0 {
      ShiftedIsProduct(value, n - 1);
      assert 10 * (value * TenTo(n - 1)) == value * (10 * TenTo(n - 1));
    }
  }

  /** Ten times the value at one decimal more is the same number. */
  lemma {:induction false} DecimalShift(value: int, scale: int)
    ensures Decimal(10 * value, scale + 1) == Decimal(value, scale)
    decreases if scale < 0 then -scale else scale
  {
    if scale > 0 {
      DecimalShift(value, scale - 1);
    } else if scale < 0 {
      DecimalShift(value, scale + 1);
    }
  }

  lemma {:induction false} DecimalShifted(value: int, scale: int, n: nat)
    ensures Decimal(Shifted(value, n), scale + n) == Decimal(value, scale)
  {
    if n > 0 {
      DecimalShifted(value, scale, n - 1);
      DecimalShift(Shifted(value, n - 1), scale + n - 1);
    }
  }

  lemma {:induction false} DecimalSum(a: int, b: int, scale: int)
    ensures Decimal(a + b, scale) == Decimal(a, scale) + Decimal(b, scale)
    ensures Decimal(a - b, scale) == Decimal(a, scale) - Decimal(b, scale)
    decreases if scale < 0 then -scale else scale
  {
    if scale > 0 {
      DecimalSum(a, b, scale - 1);
    } else if scale < 0 {
      DecimalSum(a, b, scale + 1);
    }
  }

  lemma {:induction false} DecimalOrder(a: int, b: int, scale: int)
    ensures a < b <==> Decimal(a, scale) < Decimal(b, scale)
    ensures a == b <==> Decimal(a, scale) == Decimal(b, scale)
    decreases if scale < 0 then -scale else scale
  {
    if scale > 0 {
      DecimalOrder(a, b, scale - 1);
    } else if scale < 0 {
      DecimalOrder(a, b, scale + 1);
    }
  }

  lemma TenToEighteen()
    ensures TenTo(18) == 1_000_000_000_000_000_000
  {
    assert TenTo(3) == 1_000;
    assert TenTo(6) == 1_000_000;
    assert TenTo(9) == 1_000_000_000;
    assert TenTo(12) == 1_000_000_000_000;
    assert TenTo(15) == 1_000_000_000_000_000;
  }

  lemma {:induction false} TenToMonotone(m: nat, n: nat)
    requires m <= n
    ensures TenTo(m) <= TenTo(n)
    decreases n
  {
    if m < n {
      TenToMonotone(m, n - 1);
    }
  }

  lemma TenToIsSmall(n: nat)
    requires n <= 18
    ensures TenTo(n) <= 1_000_000_000_000_000_000
  {
    TenToMonotone(n, 18);
    TenToEighteen();
  }

  // ----- rescaling -----

  lemma WrapTimes(v: int, t: int)
    ensures Wrap64(v * Wrap64(t)) == Wrap64(v * t)
  {
    var k := (t + TWO_TO_63) / TWO_TO_64;
    assert Wrap64(t) == t - k * TWO_TO_64;
    assert v * (t - k * TWO_TO_64) == v * t + (-(v * k)) * TWO_TO_64;
    WrapShift(v * t, -(v * k));
  }

  /** Going to a finer scale shifts the value, modulo int64, however many digits that adds. */
  lemma RescaleWraps(p: Price, s: int)
    requires p.scale < s
    ensures p.Rescale(s) == Price(Wrap64(Shifted(p.value, s - p.scale)), s)
  {
    ShiftedIsProduct(p.value, s - p.scale);
    WrapTimes(p.value, TenTo(s - p.scale));
  }

  lemma WrapFits(x: int)
    requires InInt64(x)
    ensures Wrap64(x) == x
  {
  }

  /** Without overflow, rescaling to a finer scale only shifts the value. */
  lemma RescaleValue(p: Price, s: int)
    requires p.FitsAt(s)
    ensures p.Rescale(s) == Price(Shifted(p.value, s - p.scale), s)
  {
    if s > p.scale {
      RescaleWraps(p, s);
      WrapFits(Shifted(p.value, s - p.scale));
    }
  }

  /** Without overflow, rescaling keeps the exact value. */
  lemma RescaleIsExact(p: Price, s: int)
    requires p.FitsAt(s)
    ensures p.Rescale(s).Exact() == p.Exact()
  {
    RescaleValue(p, s);
    DecimalShifted(p.value, p.scale, s - p.scale);
  }

  lemma ExactQuotient(v: int, u: int)
    requires u > 0
    ensures Quotient(v * u, u) == v
  {
    IntMath.ProductOrder(0, v, u);
    IntMath.ProductOrder(v, 0, u);
    assert -(v * u) == (-v) * u;
    IntMath.QuotientIs(v * u, u, v);
    IntMath.QuotientIs((-v) * u, u, -v);
  }

  lemma PowerIsExact(d: nat)
    requires 1 <= d <= 18
    ensures Pow10(d) == TenTo(d) && TenTo(d) % 2 == 0 && Quotient(TenTo(d), 2) == TenTo(d) / 2
  {
    TenToIsSmall(d);
  }

  lemma RescaleDown(v: int, scale: int, n: nat)
    requires 0 < n <= 18 && InInt64(v)
    ensures var r := Price(v * TenTo(n), scale + n); r.CanRescale(scale) && r.Rescale(scale) == Price(v, scale)
  {
    PowerIsExact(n);
    ExactQuotient(v, TenTo(n));
    WrapFits(v);
  }

  /** Rescaling to a finer scale and back gives the same price. */
  lemma RescaleRoundTrip(p: Price, s: int)
    requires p.FitsAt(s) && InInt64(p.value) && s <= p.scale + 18
    ensures p.Rescale(s).CanRescale(p.scale) && p.Rescale(s).Rescale(p.scale) == p
  {
    RescaleValue(p, s);
    if s > p.scale {
      ShiftedIsProduct(p.value, s - p.scale);
      RescaleDown(p.value, p.scale, s - p.scale);
    }
  }

  /** A number and its opposite are multiples of the same numbers. */
  lemma WholeQuotient(v: int, u: int, k: int, m: int)
    requires u > 0 && k * u <= v < k * u + u && m * u <= -v < m * u + u
    ensures v == k * u <==> -v == m * u
  {
    assert (k + m) * u == k * u + m * u;
    assert (k + m + 1) * u == (k + m) * u + u;
    IntMath.ProductOrder(k + m, 0, u);
    IntMath.ProductOrder(-1, k + m, u);
    IntMath.ProductOrder(0, k + m, u);
    IntMath.ProductOrder(k + m, -1, u);
  }

  lemma PositiveQuotient(v: int, u: int)
    requires u > 0 && v >= 0
    ensures var q := v / u; 0 <= q <= v && q * u <= v < (q + 1) * u && (q * u == v <==> v % u == 0)
  {
    IntMath.QuotientBounds(v, u);
    IntMath.QuotientShrinks(v, u);
    assert (v / u + 1) * u == v / u * u + u;
  }

  lemma QuotientTruncates(v: int, u: int)
    requires u > 0
    ensures var q := Quotient(v, u);
            && (v >= 0 ==> 0 <= q <= v && q * u <= v < (q + 1) * u)
            && (v <= 0 ==> v <= q <= 0 && (q - 1) * u < v <= q * u)
            && (q * u == v <==> v % u == 0)
  {
    PositiveQuotient(Abs(v), u);
    if v < 0 {
      var a := -v / u;
      assert -a * u == -(a * u) && (-a - 1) * u == -((a + 1) * u);
      IntMath.QuotientBounds(v, u);
      WholeQuotient(v, u, v / u, a);
    }
  }

  lemma CoarseDecimal(k: int, scale: int, n: nat)
    ensures Decimal(k, scale - n) == Decimal(k * TenTo(n), scale)
  {
    DecimalShifted(k, scale - n, n);
    ShiftedIsProduct(k, n);
  }

  lemma AgainstCoarse(v: int, scale: int, n: nat, k: int, shifted: int)
    requires shifted == k * TenTo(n)
    ensures shifted <= v <==> Decimal(k, scale - n) <= Decimal(v, scale)
    ensures shifted < v <==> Decimal(k, scale - n) < Decimal(v, scale)
    ensures shifted == v <==> Decimal(k, scale - n) == Decimal(v, scale)
  {
    CoarseDecimal(k, scale, n);
    DecimalOrder(shifted, v, scale);
  }

  /** `r` is the nearest price of its scale to `p` towards zero. */
  ghost predicate CutsOff(p: Price, r: Price) {
    && (p.value >= 0 ==> r.value >= 0 && r.Exact() <= p.Exact() < Price(r.value + 1, r.scale).Exact())
    && (p.value <= 0 ==> r.value <= 0 && Price(r.value - 1, r.scale).Exact() < p.Exact() <= r.Exact())
  }

  lemma RescaleDivides(p: Price, n: nat)
    requires 0 < n <= 18 && InInt64(p.value)
    ensures p.CanRescale(p.scale - n)
    ensures p.Rescale(p.scale - n) == Price(Quotient(p.value, TenTo(n)), p.scale - n)
  {
    PowerIsExact(n);
    QuotientTruncates(p.value, TenTo(n));
    WrapFits(Quotient(p.value, TenTo(n)));
  }

  lemma QuotientCutsOff(p: Price, q: int, n: nat, u: int)
    requires u == TenTo(n)
    requires p.value >= 0 ==> 0 <= q && q * u <= p.value < (q + 1) * u
    requires p.value <= 0 ==> q <= 0 && (q - 1) * u < p.value <= q * u
    ensures CutsOff(p, Price(q, p.scale - n))
    ensures Price(q, p.scale - n).Exact() == p.Exact() <==> q * u == p.value
  {
    AgainstCoarse(p.value, p.scale, n, q, q * u);
    AgainstCoarse(p.value, p.scale, n, q + 1, (q + 1) * u);
    AgainstCoarse(p.value, p.scale, n, q - 1, (q - 1) * u);
  }

  /** Rescaling to a coarser scale by at most 18 digits cuts off digits, and is exact if and only if they
      are zeros. */
  lemma RescaleTruncates(p: Price, n: nat)
    requires 0 < n <= 18 && InInt64(p.value)
    ensures p.CanRescale(p.scale - n)
    ensures var r := p.Rescale(p.scale - n);
            && r.scale == p.scale - n && CutsOff(p, r)
            && (r.Exact() == p.Exact() <==> p.value % TenTo(n) == 0)
  {
    var u := TenTo(n);
    RescaleDivides(p, n);
    QuotientTruncates(p.value, u);
    QuotientCutsOff(p, Quotient(p.value, u), n, u);
  }

  /** Aligned prices have one scale and keep their exact values. */
  lemma AlignIsExact(p: Price, q: Price)
    requires p.FitsWith(q)
    ensures var s := Finer(p.scale, q.scale);
            p.Align(q) == (Price(Shifted(p.value, s - p.scale), s), Price(Shifted(q.value, s - q.scale), s))
    ensures var (a, b) := p.Align(q); a.Exact() == p.Exact() && b.Exact() == q.Exact()
  {
    var s := Finer(p.scale, q.scale);
    RescaleValue(p, s);
    RescaleValue(q, s);
    DecimalShifted(p.value, p.scale, s - p.scale);
    DecimalShifted(q.value, q.scale, s - q.scale);
  }

  // ----- arithmetic -----

  lemma AddValue(p: Price, q: Price)
    requires var (a, b) := p.Align(q); InInt64(a.value + b.value)
    ensures var (a, b) := p.Align(q); p.Add(q) == Price(a.value + b.value, a.scale)
  {
    var (a, b) := p.Align(q);
    WrapFits(a.value + b.value);
  }

  lemma SubValue(p: Price, q: Price)
    requires var (a, b) := p.Align(q); InInt64(a.value - b.value)
    ensures var (a, b) := p.Align(q); p.Sub(q) == Price(a.value - b.value, a.scale)
  {
    var (a, b) := p.Align(q);
    WrapFits(a.value - b.value);
  }

  lemma ExactSum(a: int, b: int, s: int)
    ensures Price(a + b, s).Exact() == Price(a, s).Exact() + Price(b, s).Exact()
    ensures Price(a - b, s).Exact() == Price(a, s).Exact() - Price(b, s).Exact()
  {
    DecimalSum(a, b, s);
  }

  lemma AddIsExact(p: Price, q: Price)
    requires p.FitsWith(q)
    requires var (a, b) := p.Align(q); InInt64(a.value + b.value)
    ensures p.Add(q).Exact() == p.Exact() + q.Exact()
  {
    AlignIsExact(p, q);
    AddValue(p, q);
    var (a, b) := p.Align(q);
    ExactSum(a.value, b.value, a.scale);
  }

  lemma SubIsExact(p: Price, q: Price)
    requires p.FitsWith(q)
    requires var (a, b) := p.Align(q); InInt64(a.value - b.value)
    ensures p.Sub(q).Exact() == p.Exact() - q.Exact()
  {
    AlignIsExact(p, q);
    SubValue(p, q);
    var (a, b) := p.Align(q);
    ExactSum(a.value, b.value, a.scale);
  }

  lemma WrapBack(a: int, b: int)
    requires InInt64(a)
    ensures Wrap64(Wrap64(a + b) - b) == a
  {
    var k := (a + b + TWO_TO_63) / TWO_TO_64;
    assert Wrap64(a + b) == a + b - k * TWO_TO_64;
    WrapShift(a, -k);
    WrapFits(a);
  }

  lemma WrapIsInt64(x: int)
    ensures InInt64(Wrap64(x))
  {
  }

  lemma AlignFits(p: Price, q: Price)
    requires InInt64(p.value)
    ensures InInt64(p.Align(q).0.value) && p.Align(q).0.scale == Finer(p.scale, q.scale)
  {
    if q.scale > p.scale {
      WrapIsInt64(p.value * Pow10(q.scale - p.scale));
    }
  }

  lemma AlignAgain(p: Price, q: Price, sum: Price)
    requires sum.scale == Finer(p.scale, q.scale)
    ensures sum.Align(q) == (sum, p.Align(q).1)
  {
  }

  /** Subtracting what was added gives the first price back, at the finer scale, even where the sum
      or the alignment overflows. */
  lemma SubUndoesAdd(p: Price, q: Price)
    requires InInt64(p.value)
    ensures p.Add(q).Sub(q) == p.Align(q).0
    ensures p.FitsWith(q) ==> p.Align(q).0.Exact() == p.Exact()
  {
    var (a, b) := p.Align(q);
    AlignFits(p, q);
    AlignAgain(p, q, p.Add(q));
    WrapBack(a.value, b.value);
    if p.FitsWith(q) {
      AlignIsExact(p, q);
    }
  }

  // ----- order -----

  /** Without overflow the comparisons are those of the exact values. */
  lemma ComparisonsAreExact(p: Price, q: Price)
    requires p.FitsWith(q)
    ensures p.LessThan(q) <==> p.Exact() < q.Exact()
    ensures p.GreaterThan(q) <==> p.Exact() > q.Exact()
    ensures p.Equal(q) <==> p.Exact() == q.Exact()
    ensures p.LessOrEqual(q) <==> p.Exact() <= q.Exact()
    ensures p.GreaterOrEqual(q) <==> p.Exact() >= q.Exact()
  {
    AlignIsExact(p, q);
    var (a, b) := p.Align(q);
    DecimalOrder(a.value, b.value, a.scale);
    DecimalOrder(b.value, a.value, a.scale);
  }

  /** The order is total and transitive across any three scales. */
  lemma OrderIsTotalAndTransitive(p: Price, q: Price, r: Price)
    requires p.FitsWith(q) && q.FitsWith(r) && p.FitsWith(r)
    ensures p.LessOrEqual(q) || q.LessOrEqual(p)
    ensures p.LessOrEqual(q) && q.LessOrEqual(p) <==> p.Equal(q)
    ensures p.LessOrEqual(q) && q.LessOrEqual(r) ==> p.LessOrEqual(r)
    ensures p.LessThan(q) && q.LessOrEqual(r) ==> p.LessThan(r)
    ensures p.LessOrEqual(q) && q.LessThan(r) ==> p.LessThan(r)
  {
    ComparisonsAreExact(p, q);
    ComparisonsAreExact(q, p);
    ComparisonsAreExact(q, r);
    ComparisonsAreExact(p, r);
  }

  ghost predicate LessIsExact(p: Price, q: Price) {
    p.LessThan(q) <==> p.Exact() < q.Exact()
  }

  ghost predicate EqualIsExact(p: Price, q: Price) {
    p.Equal(q) <==> p.Exact() == q.Exact()
  }

  ghost predicate AllAreExact(p: Price, q: Price) {
    && LessIsExact(p, q) && EqualIsExact(p, q)
    && (p.GreaterThan(q) <==> p.Exact() > q.Exact())
    && (p.LessOrEqual(q) <==> p.Exact() <= q.Exact())
    && (p.GreaterOrEqual(q) <==> p.Exact() >= q.Exact())
  }

  /** Against a finer price, what is compared is the shifted value modulo int64; what should be
      compared is the shifted value. */
  lemma FinerComparison(p: Price, s: int, w: int)
    requires p.scale < s
    ensures var x := Shifted(p.value, s - p.scale);
            && p.Align(Price(w, s)) == (Price(Wrap64(x), s), Price(w, s))
            && (p.Exact() < Price(w, s).Exact() <==> x < w)
            && (p.Exact() == Price(w, s).Exact() <==> x == w)
  {
    RescaleWraps(p, s);
    DecimalShifted(p.value, p.scale, s - p.scale);
    DecimalOrder(Shifted(p.value, s - p.scale), w, s);
  }

  /** Ten times a number and what it wraps to are even. */
  lemma WrappedIsEven(x: int)
    ensures Wrap64(10 * x) % 2 == 0 && InInt64(Wrap64(10 * x))
  {
    var k := (10 * x + TWO_TO_63) / TWO_TO_64;
    assert Wrap64(10 * x) == 2 * (5 * x - k * (TWO_TO_64 / 2));
  }

  /** A price orders all finer prices of a scale correctly if and only if its own value at that
      scale is still an int64. */
  lemma LessIsExactIff(p: Price, s: int)
    requires p.scale < s
    ensures (forall w :: InInt64(w) ==> LessIsExact(p, Price(w, s))) <==> InInt64(Shifted(p.value, s - p.scale))
  {
    var x := Shifted(p.value, s - p.scale);
    if InInt64(x) {
      WrapFits(x);
      forall w | InInt64(w) ensures LessIsExact(p, Price(w, s)) {
        FinerComparison(p, s, w);
      }
    } else {
      var w := if x < 0 then -TWO_TO_63 else TWO_TO_63 - 1;
      WrappedIsEven(Shifted(p.value, s - p.scale - 1));
      FinerComparison(p, s, w);
      assert !LessIsExact(p, Price(w, s));
    }
  }

  /** A price is compared correctly with all finer prices of a scale, by equality or by all five
      comparisons together, if and only if its own value at that scale is still an int64. */
  lemma ComparisonsAreExactIff(p: Price, s: int)
    requires p.scale < s
    ensures (forall w :: InInt64(w) ==> EqualIsExact(p, Price(w, s))) <==> InInt64(Shifted(p.value, s - p.scale))
    ensures (forall w :: InInt64(w) ==> AllAreExact(p, Price(w, s))) <==> InInt64(Shifted(p.value, s - p.scale))
  {
    var x := Shifted(p.value, s - p.scale);
    if InInt64(x) {
      WrapFits(x);
      forall w | InInt64(w) ensures AllAreExact(p, Price(w, s)) && EqualIsExact(p, Price(w, s)) {
        FinerComparison(p, s, w);
      }
    } else {
      WrappedIsEven(Shifted(p.value, s - p.scale - 1));
      FinerComparison(p, s, Wrap64(x));
      assert !EqualIsExact(p, Price(Wrap64(x), s));
      assert !AllAreExact(p, Price(Wrap64(x), s));
    }
  }

  lemma PowerOverflows()
    ensures Pow10(19) == 10_000_000_000_000_000_000 - TWO_TO_64 && Wrap64(Pow10(19)) == Pow10(19)
  {
    TenToEighteen();
    assert TenTo(19) == 10 * TenTo(18);
  }

  /** One overflow that turns the order: one is less than zero at 19 decimals. */
  lemma OverflowTurnsTheOrder()
    ensures var one, zero := Price(1, 0), Price(0, 19);
            one.LessThan(zero) && one.Exact() > zero.Exact() && !LessIsExact(one, zero)
  {
    PowerOverflows();
    DecimalSum(0, 0, 19);
  }

  // ----- rounding -----

  /** The price can be rounded to this coarser scale without overflow. */
  ghost predicate Rounds(p: Price, to: int) {
    to < p.scale <= to + 18 && InInt64(p.value + TenTo(p.scale - to) / 2)
  }

  lemma QuotientShrinks(a: int, u: int)
    requires u > 0 && InInt64(a)
    ensures InInt64(Quotient(a, u))
  {
    IntMath.QuotientShrinks(Abs(a), u);
  }

  lemma RoundedFits(a: int, u: int)
    requires u > 0 && InInt64(a)
    ensures Wrap64(Quotient(Wrap64(a), u)) == Quotient(a, u)
  {
    QuotientShrinks(a, u);
    WrapFits(a);
    WrapFits(Quotient(a, u));
  }

  lemma RoundValue(p: Price, to: int)
    requires Rounds(p, to)
    ensures p.CanRescale(to)
    ensures var u := TenTo(p.scale - to);
            u % 2 == 0 && p.Round(to) == Price(Quotient(p.value + u / 2, u), to)
  {
    PowerIsExact(p.scale - to);
    RoundedFits(p.value + TenTo(p.scale - to) / 2, TenTo(p.scale - to));
  }

  lemma NegatedRemainder(a: int, u: int)
    requires u > 0
    ensures (-a) % u == 0 <==> a % u == 0
  {
    var q, q' := a / u, (-a) / u;
    IntMath.QuotientBounds(a, u);
    IntMath.QuotientBounds(-a, u);
    assert (-q) * u == -(q * u) && (-q') * u == -(q' * u);
    if a % u == 0 {
      IntMath.QuotientIs(-a, u, -q);
    }
    if (-a) % u == 0 {
      IntMath.QuotientIs(a, u, -q');
    }
  }

  lemma HalfUnitIff(v: int, u: int)
    requires u > 0 && u % 2 == 0
    ensures 2 * Abs(Quotient(v + u / 2, u) * u - v) <= u <==> v + u / 2 >= 0 || (v + u / 2) % u == 0
  {
    var a := v + u / 2;
    IntMath.QuotientBounds(a, u);
    IntMath.QuotientBounds(-a, u);
    if a < 0 {
      var q := (-a) / u;
      assert Quotient(a, u) == -q;
      assert (-q) * u == -(q * u);
      NegatedRemainder(a, u);
    }
  }

  /** Rounding is off by at most half a unit of the new scale if and only if the value plus that
      half is not negative, or happens to be a whole number of new units. */
  lemma RoundIsNearestIff(p: Price, to: int)
    requires Rounds(p, to)
    ensures p.CanRescale(to)
    ensures var u := TenTo(p.scale - to);
            2 * Abs(p.Round(to).value * u - p.value) <= u <==> p.value + u / 2 >= 0 || (p.value + u / 2) % u == 0
  {
    RoundValue(p, to);
    HalfUnitIff(p.value, TenTo(p.scale - to));
  }

  lemma OneDigit(v: int)
    requires -1000 <= v <= 1000
    ensures var p := Price(v, 1);
            Rounds(p, 0) && p.CanRescale(0) && p.Round(0) == Price(Quotient(v + 5, 10), 0)
  {
    assert TenTo(1) == 10;
    RoundValue(Price(v, 1), 0);
  }

  /** One price that is off by more: -0.9 rounds to 0. */
  lemma RoundMissesHalfUnit()
    ensures var p := Price(-9, 1);
            Rounds(p, 0) && p.CanRescale(0) && p.Round(0) == Price(0, 0)
            && 2 * Abs(p.Round(0).value * TenTo(1) - p.value) > TenTo(1)
  {
    OneDigit(-9);
    assert TenTo(1) == 10 && Quotient(-4, 10) == 0;
  }

  lemma {:induction false} AtMostHalfAbove(v: int, w: int, u: int, scale: int)
    requires w + w <= v + v + u
    ensures Decimal(w, scale) + Decimal(w, scale) <= Decimal(v, scale) + Decimal(v, scale) + Decimal(u, scale)
    decreases if scale < 0 then -scale else scale
  {
    if scale > 0 {
      AtMostHalfAbove(v, w, u, scale - 1);
    } else if scale < 0 {
      AtMostHalfAbove(v, w, u, scale + 1);
    }
  }

  lemma NearestToDecimal(v: int, w: int, u: int, scale: int)
    requires 2 * Abs(w - v) <= u
    ensures Decimal(v, scale) - Decimal(u, scale) / 2.0 <= Decimal(w, scale)
    ensures Decimal(w, scale) <= Decimal(v, scale) + Decimal(u, scale) / 2.0
  {
    AtMostHalfAbove(v, w, u, scale);
    AtMostHalfAbove(w, v, u, scale);
  }

  /** For prices that are not negative: within half a unit of the new scale. */
  lemma RoundIsNearest(p: Price, to: int)
    requires Rounds(p, to) && p.value >= 0
    ensures p.CanRescale(to)
    ensures var half := Decimal(1, to) / 2.0;
            p.Exact() - half <= p.Round(to).Exact() <= p.Exact() + half
  {
    RoundIsNearestIff(p, to);
    RoundValue(p, to);
    var d := p.scale - to;
    var r := p.Round(to).value;
    DecimalShifted(r, to, d);
    ShiftedIsProduct(r, d);
    DecimalShifted(1, to, d);
    ShiftedIsProduct(1, d);
    NearestToDecimal(p.value, r * TenTo(d), TenTo(d), p.scale);
  }

  lemma {:induction false} TenToSum(m: nat, n: nat)
    ensures TenTo(m + n) == TenTo(m) * TenTo(n)
  {
    if m > 0 {
      TenToSum(m - 1, n);
      assert 10 * (TenTo(m - 1) * TenTo(n)) == (10 * TenTo(m - 1)) * TenTo(n);
    }
  }

  lemma ScaledQuotient(a: int, b: int, k: int)
    requires b > 0 && k > 0 && b * k > 0
    ensures (a * k) / (b * k) == a / b
  {
    var q := a / b;
    QuotientBounds(a, b);
    ProductOrder(q * b, a, k);
    ProductOrder(a, q * b + b, k);
    assert (q * b) * k == q * (b * k);
    assert (q * b + b) * k == q * (b * k) + b * k;
    QuotientIs(a * k, b * k, q);
  }

  /** Writing more digits does not change a quotient. */
  lemma QuotientOfMultiples(a: int, b: int, k: int)
    requires b > 0 && k > 0
    ensures b * k > 0 && Quotient(a * k, b * k) == Quotient(a, b)
  {
    ProductAtLeast(b, k);
    ProductOrder(0, a, k);
    ProductOrder(a, 0, k);
    ScaledQuotient(a, b, k);
    ScaledQuotient(-a, b, k);
    assert (-a) * k == -(a * k);
  }

  lemma HalfUpOfMultiples(v: int, u: int, k: int, v': int, u': int)
    requires u > 0 && k > 0 && u % 2 == 0 && v' == v * k && u' == u * k
    ensures u' > 0 && Quotient(v + u / 2, u) == Quotient(v' + u' / 2, u')
  {
    var half := u / 2;
    assert u * k == half * k * 2;
    assert (v + half) * k == v * k + half * k;
    QuotientOfMultiples(v + half, u, k);
  }

  ghost function HalfUp(v: int, n: nat): int {
    Quotient(v + TenTo(n) / 2, TenTo(n))
  }

  /** Rounding at `n` digits gives what rounding the same number at more digits gives. */
  lemma RoundOfFiner(v: int, n: nat, more: nat)
    requires 0 < n <= 18 && n + more <= 18
    ensures HalfUp(v, n) == HalfUp(Shifted(v, more), n + more)
  {
    PowerIsExact(n);
    TenToSum(n, more);
    ShiftedIsProduct(v, more);
    HalfUpOfMultiples(v, TenTo(n), TenTo(more), Shifted(v, more), TenTo(n + more));
  }

  lemma RoundIsHalfUp(p: Price, to: int)
    requires Rounds(p, to)
    ensures p.CanRescale(to) && p.Round(to) == Price(HalfUp(p.value, p.scale - to), to)
  {
    RoundValue(p, to);
  }

  /** The rounded value, computed at any finer scale. */
  lemma RoundAt(p: Price, to: int, s: int)
    requires Rounds(p, to) && p.scale <= s <= to + 18
    ensures p.CanRescale(to) && p.Round(to).scale == to
    ensures p.Round(to).value == HalfUp(Shifted(p.value, s - p.scale), s - to)
    ensures Decimal(Shifted(p.value, s - p.scale), s) == p.Exact()
  {
    RoundIsHalfUp(p, to);
    RoundOfFiner(p.value, p.scale - to, s - p.scale);
    DecimalShifted(p.value, p.scale, s - p.scale);
  }

  lemma QuotientMonotone(a: int, b: int, u: int)
    requires u > 0 && a <= b
    ensures Quotient(a, u) <= Quotient(b, u)
  {
    IntMath.QuotientShrinks(Abs(a), u);
    IntMath.QuotientShrinks(Abs(b), u);
    if a >= 0 {
      IntMath.QuotientMonotone(a, b, u);
    } else if b < 0 {
      IntMath.QuotientMonotone(-b, -a, u);
    }
  }

  lemma HalfUpMonotone(v: int, w: int, n: nat)
    requires v <= w
    ensures HalfUp(v, n) <= HalfUp(w, n)
  {
    QuotientMonotone(v + TenTo(n) / 2, w + TenTo(n) / 2, TenTo(n));
  }

  /** Rounding keeps the order of any two prices it changes, whatever their scales and signs. */
  lemma RoundIsMonotone(p: Price, q: Price, to: int)
    requires Rounds(p, to) && Rounds(q, to) && p.Exact() <= q.Exact()
    ensures p.CanRescale(to) && q.CanRescale(to) && p.Round(to).value <= q.Round(to).value
    ensures p.Round(to).Exact() <= q.Round(to).Exact()
  {
    var s := Finer(p.scale, q.scale);
    var v, w := Shifted(p.value, s - p.scale), Shifted(q.value, s - q.scale);
    RoundAt(p, to, s);
    RoundAt(q, to, s);
    DecimalOrder(w, v, s);
    HalfUpMonotone(v, w, s - to);
    DecimalOrder(q.Round(to).value, p.Round(to).value, to);
  }

  lemma {:induction false} ShiftedSum(v: int, m: nat, n: nat)
    ensures Shifted(v, m + n) == Shifted(Shifted(v, m), n)
  {
    if n > 0 {
      ShiftedSum(v, m, n - 1);
    }
  }

  lemma RoundAgainstMultiple(v: int, u: int, k: int)
    requires u > 0 && u % 2 == 0
    ensures k * u <= v ==> k <= Quotient(v + u / 2, u)
    ensures v <= k * u ==> (Quotient(v + u / 2, u) <= k <==> v + u / 2 >= 0 || v + u / 2 <= k * u)
  {
    var a := v + u / 2;
    if a >= 0 {
      QuotientBounds(a, u);
      ProductOrder(k, a / u, u);
      ProductOrder(a / u, k, u);
    } else {
      var q := (-a) / u;
      QuotientBounds(-a, u);
      assert (-q) * u == -(q * u);
      ProductOrder(k, -q, u);
      ProductOrder(-q, k, u);
    }
  }

  /** A price with few enough decimals is returned unchanged. Rounding a greater price never goes
      below it. Rounding a smaller one goes above it exactly for some negative prices: those within
      half a unit under it that are still negative after half a unit is added. */
  lemma RoundAgainstUnchangedIff(p: Price, q: Price, to: int)
    requires Rounds(p, to) && q.scale <= to
    ensures p.CanRescale(to) && q.CanRescale(to) && q.Round(to) == q
    ensures q.Exact() <= p.Exact() ==> q.Exact() <= p.Round(to).Exact()
    ensures p.Exact() <= q.Exact() ==>
      (p.Round(to).Exact() <= q.Exact() <==>
         var half := TenTo(p.scale - to) / 2;
         p.value + half >= 0 || p.value + half <= Shifted(q.value, p.scale - q.scale))
  {
    RoundValue(p, to);
    var n := p.scale - to;
    var u, k, r := TenTo(n), Shifted(q.value, to - q.scale), p.Round(to).value;
    DecimalShifted(q.value, q.scale, to - q.scale);
    DecimalShifted(k, to, n);
    ShiftedSum(q.value, to - q.scale, n);
    ShiftedIsProduct(k, n);
    DecimalOrder(k * u, p.value, p.scale);
    DecimalOrder(p.value, k * u, p.scale);
    DecimalOrder(r, k, to);
    DecimalOrder(k, r, to);
    RoundAgainstMultiple(p.value, u, k);
  }

  /** One such price: -1.0 rounds to zero decimals as 0, above the equal price -1. */
  lemma RoundingStepsOver()
    ensures var p, q := Price(-10, 1), Price(-1, 0);
            Rounds(p, 0) && p.CanRescale(0) && p.Exact() == q.Exact()
            && p.Round(0) == Price(0, 0) && q.Round(0) == q && p.Round(0).Exact() > q.Exact()
  {
    DecimalShift(-1, 0);
    OneDigit(-10);
    assert TenTo(1) == 10 && Quotient(-5, 10) == 0;
  }

  // ----- quotes -----

  lemma MidOfAligned(quote: Quote)
    requires var (b, a) := quote.bid.Align(quote.ask);
             InInt64(b.value + a.value) && InInt64(Quotient(b.value + a.value, 2))
    ensures var (b, a) := quote.bid.Align(quote.ask);
            quote.MidPrice() == Price(Quotient(b.value + a.value, 2), b.scale)
  {
    var (b, a) := quote.bid.Align(quote.ask);
    WrapFits(b.value + a.value);
    WrapFits(Quotient(b.value + a.value, 2));
  }

  lemma DecimalBetween(a: int, b: int, c: int, scale: int)
    requires a <= b <= c
    ensures Decimal(a, scale) <= Decimal(b, scale) <= Decimal(c, scale)
  {
    DecimalOrder(b, a, scale);
    DecimalOrder(c, b, scale);
  }

  lemma HalfIsBetween(b: int, a: int)
    requires b <= a
    ensures b <= Quotient(b + a, 2) <= a
    ensures InInt64(b + a) ==> InInt64(Quotient(b + a, 2))
  {
  }

  /** The mid price of a quote that is not crossed lies between bid and ask. */
  lemma MidIsBetween(quote: Quote)
    requires quote.bid.FitsWith(quote.ask) && quote.bid.LessOrEqual(quote.ask)
    requires var (b, a) := quote.bid.Align(quote.ask); InInt64(b.value + a.value)
    ensures quote.bid.Exact() <= quote.MidPrice().Exact() <= quote.ask.Exact()
  {
    AlignIsExact(quote.bid, quote.ask);
    var (b, a) := quote.bid.Align(quote.ask);
    HalfIsBetween(b.value, a.value);
    MidOfAligned(quote);
    DecimalBetween(b.value, Quotient(b.value + a.value, 2), a.value, b.scale);
  }

  lemma HalfTruncates(x: int)
    ensures var m := Quotient(x, 2);
            (x >= 0 ==> 2 * m <= x <= 2 * m + 1) && (x <= 0 ==> 2 * m - 1 <= x <= 2 * m)
    ensures InInt64(x) ==> InInt64(Quotient(x, 2))
  {
  }

  lemma TwiceDecimal(m: int, scale: int)
    ensures Decimal(2 * m, scale) == 2.0 * Decimal(m, scale)
    ensures Decimal(2 * m + 1, scale) == 2.0 * Decimal(m, scale) + Decimal(1, scale)
    ensures Decimal(2 * m - 1, scale) == 2.0 * Decimal(m, scale) - Decimal(1, scale)
  {
    DecimalSum(m, m, scale);
    DecimalSum(2 * m, 1, scale);
    assert 2 * m == m + m;
  }

  lemma HalfOfDecimals(b: int, a: int, scale: int)
    ensures var sum, mid := Decimal(b, scale) + Decimal(a, scale), Decimal(Quotient(b + a, 2), scale);
            && (b + a >= 0 ==> 2.0 * mid <= sum <= 2.0 * mid + Decimal(1, scale))
            && (b + a <= 0 ==> 2.0 * mid - Decimal(1, scale) <= sum <= 2.0 * mid)
  {
    var x, m := b + a, Quotient(b + a, 2);
    HalfTruncates(x);
    DecimalSum(b, a, scale);
    TwiceDecimal(m, scale);
    if x >= 0 {
      DecimalBetween(2 * m, x, 2 * m + 1, scale);
    }
    if x <= 0 {
      DecimalBetween(2 * m - 1, x, 2 * m, scale);
    }
  }

  /** The mid price is half the sum of bid and ask, cut off towards zero at the finer of their scales. */
  lemma MidIsHalf(quote: Quote)
    requires quote.bid.FitsWith(quote.ask)
    requires var (b, a) := quote.bid.Align(quote.ask); InInt64(b.value + a.value)
    ensures var sum, mid := quote.bid.Exact() + quote.ask.Exact(), quote.MidPrice();
            && mid.scale == Finer(quote.bid.scale, quote.ask.scale)
            && (sum >= 0.0 ==> 2.0 * mid.Exact() <= sum <= 2.0 * mid.Exact() + Price(1, mid.scale).Exact())
            && (sum <= 0.0 ==> 2.0 * mid.Exact() - Price(1, mid.scale).Exact() <= sum <= 2.0 * mid.Exact())
  {
    AlignIsExact(quote.bid, quote.ask);
    var (b, a) := quote.bid.Align(quote.ask);
    HalfTruncates(b.value + a.value);
    MidOfAligned(quote);
    HalfOfDecimals(b.value, a.value, b.scale);
    DecimalSum(b.value, a.value, b.scale);
    DecimalSum(0, 0, b.scale);
    DecimalOrder(0, b.value + a.value, b.scale);
    DecimalOrder(b.value + a.value, 0, b.scale);
  }

  /** The spread of a quote is negative exactly when the quote is crossed. */
  lemma SpreadSign(quote: Quote)
    requires quote.ask.FitsWith(quote.bid)
    requires var (a, b) := quote.ask.Align(quote.bid); InInt64(a.value - b.value)
    ensures quote.Spread().Exact() == quote.ask.Exact() - quote.bid.Exact()
    ensures quote.Spread().Exact() >= 0.0 <==> quote.bid.LessOrEqual(quote.ask)
  {
    SubIsExact(quote.ask, quote.bid);
    ComparisonsAreExact(quote.bid, quote.ask);
  }
}
