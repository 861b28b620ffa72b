/** How the genetic search draws a gene: creation, mutation, and where their results can lie. */
module GeneDraws {
  import opened RealMath
  import opened ParameterGrid

  // ----- rounding to the step -----

  /** Go's math.Round: to the nearest integer, halves away from zero. */
  function Round(x: real): int {
    if x >= 0.0 then (x + 0.5).Floor else -((-x + 0.5).Floor)
  }

  function ToStep(v: real, step: real): real
    requires step > 0.0
  {
    Round(v / step) as real * step
  }

  lemma RoundIsNear(x: real)
    ensures -0.5 <= Round(x) as real - x <= 0.5
  {
  }

  lemma RoundIsMonotone(x: real, y: real)
    requires x <= y
    ensures Round(x) <= Round(y)
  {
  }

  lemma NearTimes(q: real, r: real, step: real, v: real)
    requires -0.5 <= r - q <= 0.5 && step > 0.0 && q * step == v
    ensures v - 0.5 * step <= r * step <= v + 0.5 * step
  {
    ProductNonNegative(r - q + 0.5, step);
    ProductNonNegative(q + 0.5 - r, step);
    assert (r - q + 0.5) * step == r * step - q * step + 0.5 * step;
    assert (q + 0.5 - r) * step == q * step + 0.5 * step - r * step;
  }

  lemma ToStepIsNear(v: real, step: real)
    requires step > 0.0
    ensures v - 0.5 * step <= ToStep(v, step) <= v + 0.5 * step
  {
    DivideBack(v, step);
    RoundIsNear(v / step);
    NearTimes(v / step, Round(v / step) as real, step, v);
  }

  lemma ToStepIsMonotone(v: real, w: real, step: real)
    requires step > 0.0 && v <= w
    ensures ToStep(v, step) <= ToStep(w, step)
  {
    DivideBack(w, step);
    QuotientOrder(v, step, w / step);
    RoundIsMonotone(v / step, w / step);
    ProductOrder(Round(v / step) as real, Round(w / step) as real, step);
  }

  lemma RoundIs(q: real, k: int)
    requires k as real - 0.5 < q < k as real + 0.5
    ensures Round(q) == k
  {
  }

  lemma Halves(k: real, step: real)
    ensures (k - 0.5) * step == k * step - 0.5 * step
    ensures (k + 0.5) * step == k * step + 0.5 * step
  {
  }

  /** What lies less than half a step from a multiple rounds to it. */
  lemma ToStepIs(v: real, step: real, k: int)
    requires step > 0.0 && k as real * step - 0.5 * step < v < k as real * step + 0.5 * step
    ensures ToStep(v, step) == k as real * step
  {
    var low, high := k as real - 0.5, k as real + 0.5;
    Halves(k as real, step);
    QuotientOrder(v, step, low);
    QuotientOrder(v, step, high);
    RoundIs(v / step, k);
  }

  lemma StepDown(m: real, k: real, step: real, x: real, y: real)
    requires step > 0.0 && x == m * step && y == k * step
    ensures m <= k - 1.0 ==> x <= y - step
    ensures m >= k ==> x >= y
  {
    if m <= k - 1.0 {
      ProductNonNegative(k - 1.0 - m, step);
      assert (k - 1.0 - m) * step == y - step - x;
    }
    if m >= k {
      ProductNonNegative(m - k, step);
      assert (m - k) * step == x - y;
    }
  }

  lemma IntsApart(m: int, k: int)
    ensures m as real <= k as real - 1.0 || m as real >= k as real
  {
    if m < k {
      assert (m + 1) as real == m as real + 1.0;
      assert m + 1 <= k;
    }
  }

  /** A multiple below another one is at least a step below it. */
  lemma MultiplesApart(x: real, y: real, step: real, m: int, k: int)
    requires step > 0.0 && x == m as real * step && y == k as real * step
    ensures x < y ==> x <= y - step
  {
    var a, b := m as real, k as real;
    IntsApart(m, k);
    StepDown(a, b, step, x, y);
  }

  // ----- random choices -----

  method RandomFloat() returns (u: real)
    ensures 0.0 <= u < 1.0
  {
    assert 0.0 <= 0.0 < 1.0;
    u :| 0.0 <= u < 1.0;
  }

  method RandomIndex(n: nat) returns (i: nat)
    requires n > 0
    ensures i < n
  {
    assert 0 < n;
    i :| i < n;
  }

  method RandomValue(p: Param) returns (v: Value)
    requires |p.values| > 0
    ensures v in p.values
  {
    var i := RandomIndex(|p.values|);
    v := p.values[i];
  }

  function Clamp(x: real, min: real, max: real): real {
    var y := if x < min then min else x;
    if y > max then max else y
  }

  /** How far a mutation can move a number: a tenth of the range, and half a step for rounding. */
  ghost function Reach(p: Param): real {
    0.1 * (p.max - p.min) + if p.step > 0.0 then 0.5 * p.step else 0.0
  }

  lemma ClampStays(x: real, move: real, reach: real, min: real, max: real)
    requires min <= max && -reach <= move <= reach
    ensures min <= Clamp(x + move, min, max) <= max
    ensures min <= x <= max ==> x - reach <= Clamp(x + move, min, max) <= x + reach
  {
  }

  // ----- where a gene can be -----

  ghost predicate WellFormed(p: Param) {
    |p.values| > 0 || p.min <= p.max
  }

  ghost predicate IsTimes(x: real, step: real, n: int) {
    x == n as real * step
  }

  ghost predicate IsMultiple(x: real, step: real) {
    exists n :: IsTimes(x, step, n)
  }

  /** A listed value; or a number within half a step of the range, on a multiple of the step. */
  ghost predicate Fits(p: Param, v: Value) {
    if |p.values| > 0 then v in p.values
    else if p.step > 0.0 then
      v.Number? && p.min - 0.5 * p.step <= v.x <= p.max + 0.5 * p.step && IsMultiple(v.x, p.step)
    else v.Number? && p.min <= v.x <= p.max
  }

  lemma SnappedFits(p: Param, v: real)
    requires p.values == [] && p.min <= v <= p.max
    ensures Fits(p, Number(if p.step > 0.0 then ToStep(v, p.step) else v))
  {
    if p.step > 0.0 {
      ToStepIsNear(v, p.step);
      assert IsTimes(ToStep(v, p.step), p.step, Round(v / p.step));
    }
  }

  // ----- creation and mutation -----

  ghost predicate IsDraw(u: real) {
    0.0 <= u < 1.0
  }

  function Snapped(p: Param, v: real): real {
    if p.step > 0.0 then ToStep(v, p.step) else v
  }

  /** The number is drawn from the range. */
  ghost predicate IsDrawn(p: Param, v: real) {
    exists u :: IsDraw(u) && v == p.min + u * (p.max - p.min)
  }

  /** A mutation can move a number by this much before it is clamped. */
  ghost predicate IsMove(p: Param, move: real) {
    exists u :: IsDraw(u) && move == (u * 2.0 - 1.0) * (p.max - p.min) * 0.1
  }

  /** Some draw creates the number. */
  ghost predicate CanCreate(p: Param, x: real) {
    exists v :: IsDrawn(p, v) && x == Snapped(p, v)
  }

  /** Some draw mutates `g` into the number. */
  ghost predicate CanMutate(p: Param, g: real, x: real) {
    exists move :: IsMove(p, move) && x == Snapped(p, Clamp(g + move, p.min, p.max))
  }

  /** The number can come about by creation and `n` mutations. */
  ghost predicate Descends(p: Param, x: real, n: nat)
    decreases n
  {
    if n == 0 then CanCreate(p, x) else exists g :: Descends(p, g, n - 1) && CanMutate(p, g, x)
  }

  /** A listed value, or a number that creation and mutations can bring about. */
  ghost predicate IsBred(p: Param, v: Value) {
    if |p.values| > 0 then v in p.values else v.Number? && exists n: nat :: Descends(p, v.x, n)
  }

  lemma PartOf(width: real, u: real, part: real)
    requires width >= 0.0 && IsDraw(u) && part == u * width
    ensures if width > 0.0 then 0.0 <= part < width else part == 0.0
  {
    if width > 0.0 {
      ProductNonNegative(u, width);
      ProductPositive(1.0 - u, width);
      assert (1.0 - u) * width == width - u * width;
    } else {
      assert u * width == u * 0.0 == 0.0;
    }
  }

  lemma PartFor(width: real, part: real) returns (u: real)
    requires 0.0 <= part < width
    ensures IsDraw(u) && u * width == part
  {
    u := part / width;
    DivideBack(part, width);
    QuotientOrder(part, width, 0.0);
    QuotientOrder(part, width, 1.0);
  }

  lemma PartBetween(min: real, max: real, u: real)
    requires min <= max && IsDraw(u)
    ensures var v := min + u * (max - min); if min < max then min <= v < max else v == min
  {
    PartOf(max - min, u, u * (max - min));
  }

  lemma DrawnIsBetween(p: Param, v: real)
    requires p.min <= p.max && IsDrawn(p, v)
    ensures if p.min < p.max then p.min <= v < p.max else v == p.min
  {
    var u :| IsDraw(u) && v == p.min + u * (p.max - p.min);
    PartBetween(p.min, p.max, u);
  }

  lemma BetweenIsDrawn(p: Param, v: real)
    requires if p.min < p.max then p.min <= v < p.max else p.min == p.max == v
    ensures IsDrawn(p, v)
  {
    var u := 0.0;
    if p.min < p.max {
      u := PartFor(p.max - p.min, v - p.min);
    }
    assert IsDraw(u) && v == p.min + u * (p.max - p.min);
  }

  /** The range without its upper end is drawn; of a single point, that point. */
  lemma DrawnIff(p: Param, v: real)
    requires p.min <= p.max
    ensures IsDrawn(p, v) <==> if p.min < p.max then p.min <= v < p.max else v == p.min
  {
    if IsDrawn(p, v) {
      DrawnIsBetween(p, v);
    }
    if if p.min < p.max then p.min <= v < p.max else v == p.min {
      BetweenIsDrawn(p, v);
    }
  }

  lemma MoveOf(width: real, u: real, move: real)
    requires width >= 0.0 && IsDraw(u) && move == (u * 2.0 - 1.0) * width * 0.1
    ensures move == (2.0 * (u * width) - width) * 0.1
    ensures if width > 0.0 then -0.1 * width <= move < 0.1 * width else move == 0.0
  {
    PartOf(width, u, u * width);
    assert (u * 2.0 - 1.0) * width == 2.0 * (u * width) - width;
  }

  lemma MoveIsShort(p: Param, move: real)
    requires p.min <= p.max && IsMove(p, move)
    ensures if p.min < p.max then -0.1 * (p.max - p.min) <= move < 0.1 * (p.max - p.min) else move == 0.0
  {
    var u :| IsDraw(u) && move == (u * 2.0 - 1.0) * (p.max - p.min) * 0.1;
    MoveOf(p.max - p.min, u, move);
  }

  lemma ShortIsMove(p: Param, move: real)
    requires if p.min < p.max then -0.1 * (p.max - p.min) <= move < 0.1 * (p.max - p.min)
             else p.min == p.max && move == 0.0
    ensures IsMove(p, move)
  {
    var u := 0.0;
    var width := p.max - p.min;
    if p.min < p.max {
      u := PartFor(width, (move * 10.0 + width) / 2.0);
    }
    MoveOf(width, u, (u * 2.0 - 1.0) * width * 0.1);
    assert IsDraw(u) && move == (u * 2.0 - 1.0) * (p.max - p.min) * 0.1;
  }

  /** Moves reach a tenth of the range down, and almost as far up. */
  lemma MoveIff(p: Param, move: real)
    requires p.min <= p.max
    ensures IsMove(p, move) <==>
      if p.min < p.max then -0.1 * (p.max - p.min) <= move < 0.1 * (p.max - p.min) else move == 0.0
  {
    if IsMove(p, move) {
      MoveIsShort(p, move);
    }
    if if p.min < p.max then -0.1 * (p.max - p.min) <= move < 0.1 * (p.max - p.min) else move == 0.0 {
      ShortIsMove(p, move);
    }
  }

  method DrawnNumber(p: Param) returns (value: real)
    ensures IsDrawn(p, value)
  {
    var u := RandomFloat();
    value := p.min + u * (p.max - p.min);
    assert IsDraw(u);
  }

  lemma CreatedGene(p: Param, v: real)
    requires p.values == [] && IsDrawn(p, v)
    ensures CanCreate(p, Snapped(p, v)) && IsBred(p, Number(Snapped(p, v)))
    ensures WellFormed(p) ==> Fits(p, Number(Snapped(p, v)))
  {
    assert Descends(p, Snapped(p, v), 0);
    if p.min <= p.max {
      DrawnIff(p, v);
      SnappedFits(p, v);
    }
  }

  method RandomGene(p: Param) returns (v: Value)
    ensures WellFormed(p) ==> Fits(p, v)
    ensures IsBred(p, v)
    ensures p.values == [] ==> v.Number? && CanCreate(p, v.x)
  {
    if |p.values| > 0 {
      v := RandomValue(p);
    } else {
      var value := DrawnNumber(p);
      CreatedGene(p, value);
      if p.step > 0.0 {
        value := ToStep(value, p.step);
      }
      v := Number(value);
    }
  }

  /** A random move of at most a tenth of the range either way. */
  method RandomMove(p: Param) returns (mutation: real)
    ensures IsMove(p, mutation)
  {
    var u := RandomFloat();
    mutation := (u * 2.0 - 1.0) * (p.max - p.min) * 0.1;
    assert IsDraw(u);
  }

  lemma MutationFits(p: Param, current: real, move: real)
    requires p.values == [] && p.min <= p.max && IsMove(p, move)
    ensures var x := Snapped(p, Clamp(current + move, p.min, p.max));
            && Fits(p, Number(x))
            && (p.min <= current <= p.max ==> current - Reach(p) <= x <= current + Reach(p))
  {
    MoveIff(p, move);
    ClampStays(current, move, 0.1 * (p.max - p.min), p.min, p.max);
    var newValue := Clamp(current + move, p.min, p.max);
    SnappedFits(p, newValue);
    if p.step > 0.0 {
      ToStepIsNear(newValue, p.step);
    }
  }

  lemma MutationIsBred(p: Param, old_: Value, x: real)
    requires p.values == [] && CanMutate(p, if old_.Number? then old_.x else p.min, x)
    ensures IsBred(p, old_) ==> IsBred(p, Number(x))
  {
    if IsBred(p, old_) {
      var n: nat :| Descends(p, old_.x, n);
      assert Descends(p, x, n + 1);
    }
  }

  lemma MutatedGene(p: Param, old_: Value, current: real, move: real)
    requires p.values == [] && IsMove(p, move) && current == if old_.Number? then old_.x else p.min
    ensures var x := Snapped(p, Clamp(current + move, p.min, p.max));
            && CanMutate(p, current, x)
            && (WellFormed(p) ==> Fits(p, Number(x)))
            && (IsBred(p, old_) ==> IsBred(p, Number(x)))
            && (p.min <= current <= p.max ==> current - Reach(p) <= x <= current + Reach(p))
  {
    if p.min <= p.max {
      MutationFits(p, current, move);
    }
    MutationIsBred(p, old_, Snapped(p, Clamp(current + move, p.min, p.max)));
  }

  method MutatedNumber(p: Param, old_: Value) returns (v: Value)
    requires p.values == []
    ensures WellFormed(p) ==> Fits(p, v)
    ensures v.Number? && CanMutate(p, if old_.Number? then old_.x else p.min, v.x)
    ensures IsBred(p, old_) ==> IsBred(p, v)
    ensures old_.Number? && p.min <= old_.x <= p.max ==> old_.x - Reach(p) <= v.x <= old_.x + Reach(p)
  {
    var mutation := RandomMove(p);
    var current := if old_.Number? then old_.x else p.min;
    var newValue := Clamp(current + mutation, p.min, p.max);
    MutatedGene(p, old_, current, mutation);
    if p.step > 0.0 {
      newValue := ToStep(newValue, p.step);
    }
    v := Number(newValue);
  }

  // ----- when rounding leaves the range -----

  ghost predicate Inside(p: Param, x: real) {
    p.min <= x <= p.max
  }

  /** Whatever the draws, a number of this parameter stays in the range. */
  ghost predicate StaysInside(p: Param) {
    forall x, n: nat :: Descends(p, x, n) ==> Inside(p, x)
  }

  /** Both ends round inwards; or the upper end lies half a step under a multiple, which it rounds to,
      but no move is long enough to reach that end. */
  ghost predicate EndsHold(p: Param)
    requires p.step > 0.0
  {
    && p.min <= ToStep(p.min, p.step)
    && (ToStep(p.max, p.step) <= p.max
        || (p.min < p.max && ToStep(p.max, p.step) == p.max + 0.5 * p.step && p.max - p.min <= 5.0 * p.step))
  }

  lemma StepsApart(v: real, w: real, step: real)
    requires step > 0.0
    ensures ToStep(v, step) < ToStep(w, step) ==> ToStep(v, step) <= ToStep(w, step) - step
  {
    MultiplesApart(ToStep(v, step), ToStep(w, step), step, Round(v / step), Round(w / step));
  }

  /** A number below the upper end stays inside when it is rounded. */
  lemma BelowTopStays(p: Param, v: real)
    requires p.step > 0.0 && EndsHold(p) && p.min <= v <= p.max
    requires v < p.max || ToStep(p.max, p.step) <= p.max
    ensures Inside(p, ToStep(v, p.step)) && IsMultiple(ToStep(v, p.step), p.step)
  {
    assert IsTimes(ToStep(v, p.step), p.step, Round(v / p.step));
    ToStepIsMonotone(p.min, v, p.step);
    ToStepIsMonotone(v, p.max, p.step);
    ToStepIsNear(v, p.step);
    StepsApart(v, p.max, p.step);
  }

  lemma MultipleStepsApart(g: real, w: real, step: real)
    requires step > 0.0 && IsMultiple(g, step)
    ensures g < ToStep(w, step) ==> g <= ToStep(w, step) - step
  {
    var k :| IsTimes(g, step, k);
    MultiplesApart(g, ToStep(w, step), step, k, Round(w / step));
  }

  lemma MutatedStays(p: Param, g: real, move: real)
    requires p.step > 0.0 && p.min <= p.max && EndsHold(p) && Inside(p, g) && IsMultiple(g, p.step)
    requires IsMove(p, move)
    ensures var x := ToStep(Clamp(g + move, p.min, p.max), p.step); Inside(p, x) && IsMultiple(x, p.step)
  {
    MoveIff(p, move);
    MultipleStepsApart(g, p.max, p.step);
    BelowTopStays(p, Clamp(g + move, p.min, p.max));
  }

  lemma {:induction false} HoldingEndsKeep(p: Param, x: real, n: nat)
    requires p.step > 0.0 && p.min <= p.max && EndsHold(p) && Descends(p, x, n)
    ensures Inside(p, x) && IsMultiple(x, p.step)
    decreases n
  {
    if n == 0 {
      var v :| IsDrawn(p, v) && x == Snapped(p, v);
      DrawnIff(p, v);
      BelowTopStays(p, v);
    } else {
      var g :| Descends(p, g, n - 1) && CanMutate(p, g, x);
      HoldingEndsKeep(p, g, n - 1);
      var move :| IsMove(p, move) && x == Snapped(p, Clamp(g + move, p.min, p.max));
      MutatedStays(p, g, move);
    }
  }

  lemma CreatedFrom(p: Param, v: real)
    requires p.step > 0.0 && p.min <= p.max && (if p.min < p.max then p.min <= v < p.max else v == p.min)
    ensures Descends(p, ToStep(v, p.step), 0)
  {
    DrawnIff(p, v);
    assert CanCreate(p, Snapped(p, v));
  }

  /** A multiple less than half a step above the range is what its upper numbers round to. */
  lemma TopIsCreated(p: Param)
    requires p.step > 0.0 && p.min < p.max < ToStep(p.max, p.step) < p.max + 0.5 * p.step
    ensures Descends(p, ToStep(p.max, p.step), 0)
  {
    var top := ToStep(p.max, p.step);
    var v := ((if top - 0.5 * p.step < p.min then p.min else top - 0.5 * p.step) + p.max) / 2.0;
    ToStepIs(v, p.step, Round(p.max / p.step));
    CreatedFrom(p, v);
  }

  lemma MultipleIsFixed(g: real, step: real)
    requires step > 0.0 && IsMultiple(g, step)
    ensures ToStep(g, step) == g
  {
    var k :| IsTimes(g, step, k);
    ToStepIs(g, step, k);
  }

  lemma OneStepDown(w: real, step: real)
    requires step > 0.0
    ensures IsMultiple(ToStep(w, step) - step, step)
  {
    var k := Round(w / step);
    assert (k as real - 1.0) * step == k as real * step - step;
    assert (k - 1) as real == k as real - 1.0;
    assert IsTimes(ToStep(w, step) - step, step, k - 1);
  }

  /** From the last multiple under the upper end, half a step up reaches that end. */
  lemma TopIsReached(p: Param)
    requires p.step > 0.0 && ToStep(p.max, p.step) == p.max + 0.5 * p.step && p.max - p.min > 5.0 * p.step
    ensures CanMutate(p, p.max - 0.5 * p.step, ToStep(p.max, p.step))
    ensures Descends(p, p.max - 0.5 * p.step, 0) && Descends(p, ToStep(p.max, p.step), 1)
  {
    var g := p.max - 0.5 * p.step;
    OneStepDown(p.max, p.step);
    MultipleIsFixed(g, p.step);
    CreatedFrom(p, g);
    MoveIff(p, 0.5 * p.step);
    var move := 0.5 * p.step;
    assert Clamp(g + move, p.min, p.max) == p.max;
    assert IsMove(p, move) && ToStep(p.max, p.step) == Snapped(p, Clamp(g + move, p.min, p.max));
    assert CanMutate(p, g, ToStep(p.max, p.step));
  }

  /** If the ends do not hold, some draws leave the range. */
  lemma LooseEndLeaves(p: Param) returns (x: real, n: nat)
    requires p.step > 0.0 && p.min <= p.max && !EndsHold(p)
    ensures Descends(p, x, n) && !Inside(p, x)
  {
    var top := ToStep(p.max, p.step);
    ToStepIsNear(p.max, p.step);
    if ToStep(p.min, p.step) < p.min || p.min == p.max {
      x, n := ToStep(p.min, p.step), 0;
      CreatedFrom(p, p.min);
    } else if top < p.max + 0.5 * p.step {
      x, n := top, 0;
      TopIsCreated(p);
    } else {
      x, n := top, 1;
      TopIsReached(p);
    }
  }

  /** Rounding comes last, so it can leave the range. Creation and mutations never do, whatever the
      draws, if and only if the ends hold. */
  lemma StaysInsideIff(p: Param)
    requires p.step > 0.0 && p.min <= p.max
    ensures StaysInside(p) <==> EndsHold(p)
  {
    if EndsHold(p) {
      forall x, n: nat | Descends(p, x, n) ensures Inside(p, x) {
        HoldingEndsKeep(p, x, n);
      }
    } else {
      var x, n := LooseEndLeaves(p);
    }
  }

  /** Without a step there is no rounding, and every number stays inside. */
  lemma UnsteppedStaysInside(p: Param)
    requires p.step <= 0.0 && p.min <= p.max
    ensures StaysInside(p)
  {
    forall x, n: nat | Descends(p, x, n) ensures Inside(p, x) {
      if n == 0 {
        var v :| IsDrawn(p, v) && x == Snapped(p, v);
        DrawnIff(p, v);
      } else {
        var g :| Descends(p, g, n - 1) && CanMutate(p, g, x);
      }
    }
  }

  /** The range from 0 to 1.6 with step 1: 1.52 is drawn, and creates 2. */
  lemma CreationLeaves()
    ensures var p := Param("x", 0.0, 1.6, 1.0, []);
            IsDrawn(p, 1.52) && CanCreate(p, 2.0) && !Inside(p, 2.0) && !EndsHold(p)
  {
    var p := Param("x", 0.0, 1.6, 1.0, []);
    DrawnIff(p, 1.52);
    ToStepIs(1.52, 1.0, 2);
    ToStepIs(1.6, 1.0, 2);
    assert Snapped(p, 1.52) == 2.0;
  }

  lemma WholeSteps()
    ensures ToStep(0.0, 1.0) == 0.0 && ToStep(1.5, 1.0) == 2.0 && ToStep(5.5, 1.0) == 6.0
  {
    assert Round(0.0) == 0 && Round(1.5) == 2 && Round(5.5) == 6;
  }

  /** The range from 0 to 1.5 holds, although its upper end rounds to 2; the range from 0 to 5.5 does
      not: no draw creates 6, but one mutates 5 into it. */
  lemma LongRangeLeaves()
    ensures EndsHold(Param("x", 0.0, 1.5, 1.0, []))
    ensures var p := Param("x", 0.0, 5.5, 1.0, []);
            !EndsHold(p) && CanCreate(p, 5.0) && !CanCreate(p, 6.0) && CanMutate(p, 5.0, 6.0)
  {
    var p := Param("x", 0.0, 5.5, 1.0, []);
    WholeSteps();
    TopIsReached(p);
    forall v | IsDrawn(p, v) ensures Snapped(p, v) != 6.0 {
      DrawnIff(p, v);
      ToStepIsNear(v, 1.0);
    }
  }
}
