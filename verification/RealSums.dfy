/** Finite sums over sequences, shared by the order book, the profiler and the ledgers. */
module RealSums {

  /** The sum of `f` over the elements of `s`. */
  ghost function SumOf<T(!new)>(f: T -> real, s: seq<T>): real {
    if s == [] then 0.0 else f(s[0]) + SumOf(f, s[1..])
  }

  lemma {:induction false} SumConcat<T(!new)>(f: T -> real, a: seq<T>, b: seq<T>)
    ensures SumOf(f, a + b) == SumOf(f, a) + SumOf(f, b)
  {
    if a == [] {
      assert a + b == b;
    } else {
      assert (a + b)[1..] == a[1..] + b;
      SumConcat(f, a[1..], b);
    }
  }

  lemma MultisetTail<T>(a: seq<T>)
    requires a != []
    ensures multiset(a[1..]) + multiset{a[0]} == multiset(a)
  {
    assert a == [a[0]] + a[1..];
  }

  lemma MultisetWithout<T>(b: seq<T>, i: nat)
    requires i < |b|
    ensures multiset(b[..i] + b[i + 1..]) + multiset{b[i]} == multiset(b)
  {
    assert b == b[..i] + [b[i]] + b[i + 1..];
  }

  lemma SumWithout<T(!new)>(f: T -> real, b: seq<T>, i: nat)
    requires i < |b|
    ensures SumOf(f, b) == f(b[i]) + SumOf(f, b[..i] + b[i + 1..])
  {
    SumConcat(f, b[..i], b[i + 1..]);
    SumConcat(f, b[..i], b[i..]);
    assert b == b[..i] + b[i..];
    assert b[i..][1..] == b[i + 1..];
  }

  lemma CancelMultiset<T>(a: multiset<T>, b: multiset<T>, c: multiset<T>)
    requires a + c == b + c
    ensures a == b
  {
    assert a == (a + c) - c;
    assert b == (b + c) - c;
  }

  /** A sum depends on the elements and their multiplicities, not on their order. */
  lemma {:induction false} SumPermutation<T(!new)>(f: T -> real, a: seq<T>, b: seq<T>)
    requires multiset(a) == multiset(b)
    ensures SumOf(f, a) == SumOf(f, b)
    decreases |a|
  {
    if a == [] {
      assert |multiset(b)| == 0;
    } else {
      assert a[0] in multiset(a);
      var i :| 0 <= i < |b| && b[i] == a[0];
      MultisetTail(a);
      MultisetWithout(b, i);
      CancelMultiset(multiset(a[1..]), multiset(b[..i] + b[i + 1..]), multiset{a[0]});
      SumPermutation(f, a[1..], b[..i] + b[i + 1..]);
      SumWithout(f, b, i);
    }
  }

  lemma MultisetInsert<T>(s: seq<T>, k: nat, x: T)
    requires k <= |s|
    ensures multiset(s[..k] + [x] + s[k..]) == multiset(s) + multiset{x}
    ensures forall y :: y in s[..k] + [x] + s[k..] <==> y in s || y == x
  {
    assert s == s[..k] + s[k..];
    assert forall y :: y in s <==> y in s[..k] || y in s[k..];
  }

  lemma SumDropHead<T(!new)>(f: T -> real, s: seq<T>, s': seq<T>)
    requires s != [] && multiset(s') + multiset{s[0]} == multiset(s)
    ensures SumOf(f, s') == SumOf(f, s) - f(s[0])
  {
    SumPermutation(f, s' + [s[0]], s);
    SumConcat(f, s', [s[0]]);
  }

  lemma SumSwapHead<T(!new)>(f: T -> real, s: seq<T>, l: T, s': seq<T>)
    requires s != [] && multiset(s') + multiset{s[0]} == multiset(s) + multiset{l}
    ensures SumOf(f, s') == SumOf(f, s) - f(s[0]) + f(l)
  {
    SumPermutation(f, s' + [s[0]], s + [l]);
    SumConcat(f, s', [s[0]]);
    SumConcat(f, s, [l]);
  }

  lemma {:induction false} SumNonNegative<T(!new)>(f: T -> real, s: seq<T>)
    requires forall i :: 0 <= i < |s| ==> f(s[i]) >= 0.0
    ensures SumOf(f, s) >= 0.0
  {
    if s != [] {
      SumNonNegative(f, s[1..]);
    }
  }
}

/** The few facts about products and quotients of reals that the solver needs spelled out. */
module RealMath {

  lemma ProductNonNegative(a: real, b: real)
    requires a >= 0.0 && b >= 0.0
    ensures a * b >= 0.0
  {
  }

  lemma ProductPositive(a: real, b: real)
    requires a > 0.0 && b > 0.0
    ensures a * b > 0.0
  {
  }

  lemma ProductNonzero(a: real, b: real)
    requires a != 0.0 && b != 0.0
    ensures a * b != 0.0
  {
  }

  lemma ProductOrder(a: real, b: real, c: real)
    requires c > 0.0
    ensures a < b <==> a * c < b * c
    ensures a <= b <==> a * c <= b * c
  {
    if a < b {
      ProductPositive(b - a, c);
    } else {
      ProductNonNegative(a - b, c);
    }
    assert (b - a) * c == b * c - a * c;
    assert (a - b) * c == a * c - b * c;
  }

  lemma DivideBack(a: real, b: real)
    requires b != 0.0
    ensures a / b * b == a
  {
  }

  lemma SameQuotient(a: real, b: real, n: real)
    requires n > 0.0 && a * n == b * n
    ensures a == b
  {
    ProductOrder(a, b, n);
    ProductOrder(b, a, n);
  }

  /** Comparing with a quotient is comparing with the dividend. */
  lemma QuotientOrder(a: real, b: real, c: real)
    requires b > 0.0
    ensures a / b <= c <==> a <= c * b
    ensures c <= a / b <==> c * b <= a
  {
    DivideBack(a, b);
    ProductOrder(a / b, c, b);
    ProductOrder(c, a / b, b);
  }

  lemma ProperFraction(a: real, b: real)
    requires 0.0 <= a <= b && b > 0.0
    ensures 0.0 <= a / b <= 1.0 && a / b * b == a
    ensures 0.0 < a < b ==> 0.0 < a / b < 1.0
  {
    DivideBack(a, b);
    QuotientOrder(a, b, 0.0);
    QuotientOrder(a, b, 1.0);
  }
}
