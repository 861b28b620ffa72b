/** Ways to take a quantity out of a list of price levels, and how greedy taking compares
    with all of them. */
module Splits {
  import opened RealMath
  import opened RealSums
  import opened PriceHeaps

  const QuantityOf: PriceLevel -> real := (l: PriceLevel) => l.quantity

  ghost function TotalQuantity(s: seq<PriceLevel>): real {
    SumOf(QuantityOf, s)
  }

  ghost predicate AllPositive(s: seq<PriceLevel>) {
    forall i :: 0 <= i < |s| ==> s[i].quantity > 0.0
  }

  ghost predicate OnePrice(s: seq<PriceLevel>) {
    forall i, j :: 0 <= i < |s| && 0 <= j < |s| ==> s[i].price == s[j].price
  }

  ghost function Amount(x: seq<real>): real {
    if x == [] then 0.0 else x[0] + Amount(x[1..])
  }

  /** The money that moves when `x[i]` is traded at level `i`. */
  ghost function Proceeds(s: seq<PriceLevel>, x: seq<real>): real
    requires |x| == |s|
  {
    if s == [] then 0.0 else s[0].price * x[0] + Proceeds(s[1..], x[1..])
  }

  /** `x` trades `amount` in all, and at each level no more than the level holds. */
  ghost predicate IsSplit(s: seq<PriceLevel>, x: seq<real>, amount: real) {
    && |x| == |s|
    && Amount(x) == amount
    && forall i :: 0 <= i < |s| ==> 0.0 <= x[i] <= s[i].quantity
  }

  ghost predicate NoSplitEarnsMore(s: seq<PriceLevel>, amount: real, money: real) {
    forall x :: IsSplit(s, x, amount) ==> Proceeds(s, x) <= money
  }

  ghost predicate NoSplitEarnsLess(s: seq<PriceLevel>, amount: real, money: real) {
    forall x :: IsSplit(s, x, amount) ==> money <= Proceeds(s, x)
  }

  ghost predicate SomeSplitEarns(s: seq<PriceLevel>, amount: real, money: real) {
    exists x :: IsSplit(s, x, amount) && Proceeds(s, x) == money
  }

  // ----- an upper bound on every split -----

  ghost function ExcessAt(cut: real, l: PriceLevel): real {
    if l.price > cut then (l.price - cut) * l.quantity else 0.0
  }

  ghost function Excess(cut: real): PriceLevel -> real {
    l => ExcessAt(cut, l)
  }

  /** What the levels above `cut` are worth over and above `cut`. */
  ghost function TotalExcess(cut: real, s: seq<PriceLevel>): real {
    SumOf(Excess(cut), s)
  }

  /** Whatever the cut, no split earns more than the cut for every unit plus the excess. */
  lemma {:induction false} SplitBound(s: seq<PriceLevel>, x: seq<real>, cut: real)
    requires |x| == |s|
    requires forall i :: 0 <= i < |s| ==> 0.0 <= x[i] <= s[i].quantity
    ensures Proceeds(s, x) <= cut * Amount(x) + TotalExcess(cut, s)
  {
    if s != [] {
      SplitBound(s[1..], x[1..], cut);
      var p, q, a := s[0].price, s[0].quantity, x[0];
      assert p * a <= cut * a + ExcessAt(cut, s[0]) by {
        if p > cut {
          ProductNonNegative(p - cut, q - a);
        } else {
          ProductNonNegative(cut - p, a);
        }
      }
      assert cut * Amount(x) == cut * a + cut * Amount(x[1..]);
    }
  }

  lemma {:induction false} NoExcess(s: seq<PriceLevel>, cut: real)
    requires forall i :: 0 <= i < |s| ==> s[i].price <= cut
    ensures TotalExcess(cut, s) == 0.0
  {
    if s != [] {
      NoExcess(s[1..], cut);
    }
  }

  // ----- changing one entry of a split -----

  lemma {:induction false} SplitUpdate(s: seq<PriceLevel>, x: seq<real>, i: nat, d: real)
    requires |x| == |s| && i < |x|
    ensures Amount(x[i := x[i] + d]) == Amount(x) + d
    ensures Proceeds(s, x[i := x[i] + d]) == Proceeds(s, x) + s[i].price * d
  {
    if i > 0 {
      assert x[i := x[i] + d][1..] == x[1..][i - 1 := x[i] + d];
      SplitUpdate(s[1..], x[1..], i - 1, d);
    } else {
      assert x[i := x[i] + d][1..] == x[1..];
    }
  }

  /** Every level gives the same fraction of what it holds. */
  ghost function ProRata(s: seq<PriceLevel>, part: real): (x: seq<real>)
    ensures |x| == |s| && forall i :: 0 <= i < |s| ==> x[i] == part * s[i].quantity
  {
    if s == [] then [] else [part * s[0].quantity] + ProRata(s[1..], part)
  }

  lemma {:induction false} ProRataAmount(s: seq<PriceLevel>, part: real)
    ensures Amount(ProRata(s, part)) == part * TotalQuantity(s)
  {
    if s != [] {
      ProRataAmount(s[1..], part);
      assert ProRata(s, part)[1..] == ProRata(s[1..], part);
    }
  }

  /** At one price every split of the same amount moves the same money. */
  lemma {:induction false} OnePriceProceeds(s: seq<PriceLevel>, x: seq<real>, p: real)
    requires |x| == |s| && forall i :: 0 <= i < |s| ==> s[i].price == p
    ensures Proceeds(s, x) == p * Amount(x)
  {
    if s != [] {
      OnePriceProceeds(s[1..], x[1..], p);
    }
  }

  lemma {:induction false} SplitWithinTotal(s: seq<PriceLevel>, x: seq<real>)
    requires |x| == |s|
    requires forall i :: 0 <= i < |s| ==> 0.0 <= x[i] <= s[i].quantity
    ensures 0.0 <= Amount(x) <= TotalQuantity(s)
    ensures Amount(x) == TotalQuantity(s) ==> forall i :: 0 <= i < |s| ==> x[i] == s[i].quantity
    ensures Amount(x) == 0.0 ==> forall i :: 0 <= i < |s| ==> x[i] == 0.0
  {
    if s != [] {
      SplitWithinTotal(s[1..], x[1..]);
    }
  }

  /** Moving `eps` of a split from level `i` to level `j`. */
  lemma ShiftSplit(s: seq<PriceLevel>, x: seq<real>, amount: real, i: nat, j: nat, eps: real) returns (z: seq<real>)
    requires IsSplit(s, x, amount) && i < |s| && j < |s| && i != j
    requires 0.0 <= eps <= x[i] && eps <= s[j].quantity - x[j]
    ensures IsSplit(s, z, amount)
    ensures Proceeds(s, z) == Proceeds(s, x) - (s[i].price - s[j].price) * eps
  {
    var y := x[i := x[i] + -eps];
    z := y[j := y[j] + eps];
    SplitUpdate(s, x, i, -eps);
    SplitUpdate(s, y, j, eps);
    assert (s[i].price - s[j].price) * eps == s[j].price * -eps - s[i].price * -eps;
  }

  lemma ProRataInside(s: seq<PriceLevel>, part: real)
    requires AllPositive(s) && 0.0 < part < 1.0
    ensures forall k :: 0 <= k < |s| ==> 0.0 < ProRata(s, part)[k] < s[k].quantity
  {
    forall k | 0 <= k < |s|
      ensures 0.0 < ProRata(s, part)[k] < s[k].quantity
    {
      var q := s[k].quantity;
      ProductPositive(1.0 - part, q);
      ProductPositive(part, q);
      assert (1.0 - part) * q == q - part * q;
    }
  }

  lemma ProRataIsSplit(s: seq<PriceLevel>, amount: real) returns (x: seq<real>)
    requires AllPositive(s) && 0.0 < amount < TotalQuantity(s)
    ensures IsSplit(s, x, amount) && forall k :: 0 <= k < |s| ==> 0.0 < x[k] < s[k].quantity
  {
    var part := amount / TotalQuantity(s);
    ProperFraction(amount, TotalQuantity(s));
    x := ProRata(s, part);
    ProRataAmount(s, part);
    ProRataInside(s, part);
  }

  /** When only part of the book is taken and two prices differ, some split moves less money
      than another. */
  lemma SomeSplitIsCheaper(s: seq<PriceLevel>, amount: real, money: real)
    requires AllPositive(s) && !OnePrice(s) && 0.0 < amount < TotalQuantity(s)
    requires NoSplitEarnsMore(s, amount, money)
    ensures !NoSplitEarnsLess(s, amount, money)
  {
    var i, j :| 0 <= i < |s| && 0 <= j < |s| && s[i].price > s[j].price;
    var x := ProRataIsSplit(s, amount);
    var eps := if x[i] < s[j].quantity - x[j] then x[i] else s[j].quantity - x[j];
    var z := ShiftSplit(s, x, amount, i, j, eps);
    ProductPositive(s[i].price - s[j].price, eps);
  }

  // ----- what a split leaves behind -----

  /** What a level still holds once `t` has been traded out of it: itself, or nothing. */
  ghost function Left(l: PriceLevel, t: real): multiset<PriceLevel> {
    if l.quantity - t > 0.0 then multiset{l.(quantity := l.quantity - t)} else multiset{}
  }

  /** The levels that still hold something once `x` has been traded out of them. */
  ghost function Residual(s: seq<PriceLevel>, x: seq<real>): multiset<PriceLevel>
    requires |x| == |s|
  {
    if s == [] then multiset{} else Left(s[0], x[0]) + Residual(s[1..], x[1..])
  }

  lemma {:induction false} ResidualOfNothing(s: seq<PriceLevel>, x: seq<real>)
    requires AllPositive(s) && |x| == |s| && forall i :: 0 <= i < |s| ==> x[i] == 0.0
    ensures Residual(s, x) == multiset(s)
    ensures Amount(x) == 0.0 && Proceeds(s, x) == 0.0
  {
    if s != [] {
      ResidualOfNothing(s[1..], x[1..]);
      assert s[0].(quantity := s[0].quantity - 0.0) == s[0];
      assert s == [s[0]] + s[1..];
    }
  }

  lemma {:induction false} ResidualOrigin(s: seq<PriceLevel>, x: seq<real>, l: PriceLevel) returns (i: nat)
    requires |x| == |s| && l in Residual(s, x)
    ensures i < |s| && s[i].quantity - x[i] > 0.0 && l == s[i].(quantity := s[i].quantity - x[i])
  {
    if l in Left(s[0], x[0]) {
      i := 0;
    } else {
      var k := ResidualOrigin(s[1..], x[1..], l);
      i := k + 1;
    }
  }

  lemma ExchangeInSum<T>(a: multiset<T>, b: multiset<T>, c: multiset<T>)
    ensures (a + c) + b == (b + c) + a
  {
  }

  lemma AddToBoth<T>(z: multiset<T>, a: multiset<T>, b: multiset<T>, c: multiset<T>, d: multiset<T>)
    requires a + b == c + d
    ensures (z + a) + b == (z + c) + d
  {
    assert (z + a) + b == z + (a + b);
    assert (z + c) + d == z + (c + d);
  }

  /** Trading `v` instead of `x[i]` out of level `i` only changes what that level leaves. */
  lemma {:induction false} ResidualUpdate(s: seq<PriceLevel>, x: seq<real>, i: nat, v: real)
    requires |x| == |s| && i < |s|
    ensures Residual(s, x[i := v]) + Left(s[i], x[i]) == Residual(s, x) + Left(s[i], v)
  {
    if i == 0 {
      assert x[i := v][1..] == x[1..];
      ExchangeInSum(Left(s[0], v), Left(s[0], x[0]), Residual(s[1..], x[1..]));
    } else {
      assert x[i := v][1..] == x[1..][i - 1 := v];
      ResidualUpdate(s[1..], x[1..], i - 1, v);
      AddToBoth(Left(s[0], x[0]), Residual(s[1..], x[1..][i - 1 := v]), Left(s[i], x[i]),
                Residual(s[1..], x[1..]), Left(s[i], v));
    }
  }

  /** The dearest way to buy is also the cheapest only when there is no choice to make: all or
      nothing is bought, or there is one price. */
  lemma DearestIsCheapestIff(s: seq<PriceLevel>, amount: real, money: real)
    requires AllPositive(s) && 0.0 <= amount <= TotalQuantity(s)
    requires NoSplitEarnsMore(s, amount, money) && SomeSplitEarns(s, amount, money)
    ensures NoSplitEarnsLess(s, amount, money) <==> amount == 0.0 || amount == TotalQuantity(s) || OnePrice(s)
  {
    var x0 :| IsSplit(s, x0, amount) && Proceeds(s, x0) == money;
    if OnePrice(s) {
      forall x | IsSplit(s, x, amount)
        ensures money <= Proceeds(s, x)
      {
        var p := if s == [] then 0.0 else s[0].price;
        OnePriceProceeds(s, x, p);
        OnePriceProceeds(s, x0, p);
      }
    } else if amount == 0.0 || amount == TotalQuantity(s) {
      forall x | IsSplit(s, x, amount)
        ensures money <= Proceeds(s, x)
      {
        SplitWithinTotal(s, x);
        SplitWithinTotal(s, x0);
        assert x == x0;
      }
    } else {
      SomeSplitIsCheaper(s, amount, money);
    }
  }
}
