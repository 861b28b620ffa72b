/** The optimizer's parameter spaces and the enumeration of all their combinations. */
module ParameterGrid {
  import opened RealMath

  datatype Value = Number(x: real) | Text(s: string) | Nil

  type Genes = map<string, Value>

  datatype Param = Param(name: string, min: real, max: real, step: real, values: seq<Value>)

  /** A range that is not empty and whose step does not advance would be walked forever. */
  ghost predicate Finite(p: Param) {
    |p.values| > 0 || p.step > 0.0 || p.min > p.max
  }

  lemma ProperQuotient(a: real, b: real)
    requires a >= 0.0 && b > 0.0
    ensures a / b >= 0.0
  {
    QuotientOrder(a, b, 0.0);
  }

  /** How many values the enumerator gets through for a parameter. */
  ghost function AxisSize(p: Param): nat {
    if |p.values| > 0 then |p.values|
    else if p.min > p.max || !Finite(p) then 0
    else
      ProperQuotient(p.max - p.min, p.step);
      ((p.max - p.min) / p.step).Floor + 1
  }

  ghost function AxisAt(p: Param, i: nat): Value
    requires |p.values| > 0 ==> i < |p.values|
  {
    if |p.values| > 0 then p.values[i] else Number(p.min + i as real * p.step)
  }

  /** The walked range holds exactly the points that do not pass the maximum. */
  lemma RangeIff(p: Param, i: nat)
    requires p.values == [] && (p.step > 0.0 || (p.min > p.max && i == 0))
    ensures i < AxisSize(p) <==> p.min + i as real * p.step <= p.max
  {
    if p.step > 0.0 {
      ProductNonNegative(i as real, p.step);
      QuotientOrder(p.max - p.min, p.step, i as real);
    }
  }

  // ----- listing index vectors -----

  ghost function Branches(sizes: seq<nat>, ix: seq<nat>, n: nat): seq<seq<nat>>
    requires |ix| < |sizes|
    decreases |sizes| - |ix|, 0, n
  {
    if n == 0 then [] else Branches(sizes, ix, n - 1) + Listing(sizes, ix + [n - 1])
  }

  /** The index vectors that continue `ix`, in the order the recursion reaches them. */
  ghost function Listing(sizes: seq<nat>, ix: seq<nat>): seq<seq<nat>>
    requires |ix| <= |sizes|
    decreases |sizes| - |ix|, 1, 0
  {
    if |ix| == |sizes| then [ix] else Branches(sizes, ix, sizes[|ix|])
  }

  ghost predicate DiffersAt(a: seq<nat>, b: seq<nat>, k: nat) {
    k < |a| && k < |b| && a[..k] == b[..k] && a[k] != b[k]
  }

  /** Lexicographic order on vectors of one length. */
  ghost predicate Before(a: seq<nat>, b: seq<nat>) {
    exists k: nat :: DiffersAt(a, b, k) && a[k] < b[k]
  }

  ghost predicate Extends(ix: seq<nat>, full: seq<nat>, sizes: seq<nat>) {
    && |ix| <= |full| == |sizes| && full[..|ix|] == ix
    && forall j :: |ix| <= j < |full| ==> full[j] < sizes[j]
  }

  /** `s` lists what continues `ix` below `n`: in strictly increasing order, and completely. */
  ghost predicate IsListing(s: seq<seq<nat>>, sizes: seq<nat>, ix: seq<nat>, n: nat)
    requires |ix| < |sizes|
  {
    && (forall i, j :: 0 <= i < j < |s| ==> Before(s[i], s[j]))
    && (forall full :: full in s <==> Extends(ix, full, sizes) && full[|ix|] < n)
  }

  ghost predicate IsWholeListing(s: seq<seq<nat>>, sizes: seq<nat>, ix: seq<nat>) {
    && (forall i, j :: 0 <= i < j < |s| ==> Before(s[i], s[j]))
    && (forall full :: full in s <==> Extends(ix, full, sizes))
  }

  lemma ExtendsOneMore(ix: seq<nat>, n: nat, full: seq<nat>, sizes: seq<nat>)
    requires |ix| < |sizes| && n < sizes[|ix|]
    ensures Extends(ix + [n], full, sizes) <==> Extends(ix, full, sizes) && full[|ix|] == n
  {
    if |full| == |sizes| {
      assert full[..|ix| + 1] == full[..|ix|] + [full[|ix|]];
    }
  }

  lemma BranchesAreOrdered(ix: seq<nat>, a: seq<nat>, b: seq<nat>, sizes: seq<nat>)
    requires Extends(ix, a, sizes) && Extends(ix, b, sizes) && |ix| < |sizes| && a[|ix|] < b[|ix|]
    ensures Before(a, b)
  {
    assert DiffersAt(a, b, |ix|);
  }

  lemma OneMoreBranch(s: seq<seq<nat>>, t: seq<seq<nat>>, sizes: seq<nat>, ix: seq<nat>, n: nat)
    requires |ix| < |sizes| && n < sizes[|ix|]
    requires IsListing(s, sizes, ix, n) && IsWholeListing(t, sizes, ix + [n])
    ensures IsListing(s + t, sizes, ix, n + 1)
  {
    forall full ensures full in t <==> Extends(ix, full, sizes) && full[|ix|] == n {
      ExtendsOneMore(ix, n, full, sizes);
    }
    var u := s + t;
    forall i, j | 0 <= i < j < |u| ensures Before(u[i], u[j]) {
      if i < |s| <= j {
        assert u[i] in s && u[j] in t;
        BranchesAreOrdered(ix, u[i], u[j], sizes);
      }
    }
  }

  /** Every continuation is listed, once, in lexicographic order. */
  lemma {:induction false} ListingIsLexicographic(sizes: seq<nat>, ix: seq<nat>)
    requires |ix| <= |sizes|
    ensures IsWholeListing(Listing(sizes, ix), sizes, ix)
    decreases |sizes| - |ix|, 1, 0
  {
    if |ix| < |sizes| {
      BranchesList(sizes, ix, sizes[|ix|]);
    } else {
      forall full ensures full in [ix] <==> Extends(ix, full, sizes) {
        if |full| == |ix| { assert full[..|ix|] == full; }
      }
    }
  }

  lemma {:induction false} BranchesList(sizes: seq<nat>, ix: seq<nat>, n: nat)
    requires |ix| < |sizes| && n <= sizes[|ix|]
    ensures IsListing(Branches(sizes, ix, n), sizes, ix, n)
    decreases |sizes| - |ix|, 0, n
  {
    if n > 0 {
      BranchesList(sizes, ix, n - 1);
      ListingIsLexicographic(sizes, ix + [n - 1]);
      OneMoreBranch(Branches(sizes, ix, n - 1), Listing(sizes, ix + [n - 1]), sizes, ix, n - 1);
    }
  }

  // ----- the combinations -----

  ghost predicate IsEmpty(p: Param) {
    p.values == [] && p.min > p.max
  }

  ghost predicate IsReached(params: seq<Param>, n: int)
    requires n <= |params|
  {
    forall i :: 0 <= i < n ==> !IsEmpty(params[i])
  }

  /** The enumeration comes to an end: no range is walked forever. Behind an empty range no other one
      is ever reached. */
  ghost predicate Ends(params: seq<Param>) {
    forall j :: 0 <= j < |params| && IsReached(params, j) ==> Finite(params[j])
  }

  ghost function Sizes(params: seq<Param>): seq<nat> {
    seq(|params|, j requires 0 <= j < |params| => AxisSize(params[j]))
  }

  ghost predicate IsChoice(params: seq<Param>, ix: seq<nat>) {
    && |ix| <= |params|
    && forall j :: 0 <= j < |ix| ==> ix[j] < AxisSize(params[j])
  }

  /** The combination an index vector stands for; of two parameters with one name the later wins. */
  ghost function Combination(params: seq<Param>, ix: seq<nat>): Genes
    requires IsChoice(params, ix)
  {
    if ix == [] then map[]
    else
      var n := |ix| - 1;
      Combination(params, ix[..n])[params[n].name := AxisAt(params[n], ix[n])]
  }

  ghost function Combinations(params: seq<Param>, s: seq<seq<nat>>): seq<Genes>
    requires forall k :: 0 <= k < |s| ==> IsChoice(params, s[k])
  {
    seq(|s|, k requires 0 <= k < |s| => Combination(params, s[k]))
  }

  // ----- the recursive enumerator -----

  ghost predicate IsLater(params: seq<Param>, n: nat, name: string) {
    exists j :: n <= j < |params| && params[j].name == name
  }

  /** Apart from names still to be written, the shared map holds the choices made so far. */
  ghost predicate Settled(m: Genes, chosen: Genes, params: seq<Param>, n: nat) {
    forall name :: !IsLater(params, n, name) ==>
      (name in m <==> name in chosen) && (name in m && name in chosen ==> m[name] == chosen[name])
  }

  lemma SettledByWrite(m: Genes, chosen: Genes, params: seq<Param>, n: nat, v: Value)
    requires n < |params| && Settled(m, chosen, params, n)
    ensures Settled(m[params[n].name := v], chosen[params[n].name := v], params, n + 1)
  {
    forall name | !IsLater(params, n + 1, name) && name != params[n].name
      ensures !IsLater(params, n, name)
    {
    }
  }

  lemma SettledAfterCall(m: Genes, chosen: Genes, params: seq<Param>, n: nat, v: Value)
    requires n < |params| && Settled(m, chosen[params[n].name := v], params, n + 1)
    ensures Settled(m, chosen, params, n)
  {
    assert IsLater(params, n, params[n].name);
    forall name | !IsLater(params, n, name) ensures !IsLater(params, n + 1, name) {
    }
  }

  lemma SettledIsEqual(m: Genes, chosen: Genes, params: seq<Param>)
    requires Settled(m, chosen, params, |params|)
    ensures m == chosen
  {
    assert forall name :: !IsLater(params, |params|, name);
  }

  lemma ChoiceOneMore(params: seq<Param>, ix: seq<nat>, i: nat)
    requires IsChoice(params, ix) && |ix| < |params| && i < AxisSize(params[|ix|])
    ensures IsChoice(params, ix + [i])
  {
  }

  lemma CombinationOneMore(params: seq<Param>, ix: seq<nat>, i: nat)
    requires IsChoice(params, ix) && |ix| < |params| && i < AxisSize(params[|ix|])
    ensures IsChoice(params, ix + [i])
    ensures Combination(params, ix + [i])
         == Combination(params, ix)[params[|ix|].name := AxisAt(params[|ix|], i)]
  {
    ChoiceOneMore(params, ix, i);
    var longer := ix + [i];
    assert longer[..|longer| - 1] == ix && longer[|longer| - 1] == i;
  }

  /** Everything listed from a choice is a choice. */
  ghost predicate AllChoices(params: seq<Param>, s: seq<seq<nat>>) {
    forall k :: 0 <= k < |s| ==> IsChoice(params, s[k]) && |s[k]| == |params|
  }

  lemma ListingHasChoices(params: seq<Param>, ix: seq<nat>)
    requires IsChoice(params, ix)
    ensures AllChoices(params, Listing(Sizes(params), ix))
  {
    var s := Listing(Sizes(params), ix);
    ListingIsLexicographic(Sizes(params), ix);
    forall k | 0 <= k < |s| ensures IsChoice(params, s[k]) && |s[k]| == |params| {
      assert s[k] in s;
      assert s[k][..|ix|] == ix;
      forall j | 0 <= j < |s[k]| ensures s[k][j] < AxisSize(params[j]) {
        if j < |ix| { assert s[k][j] == s[k][..|ix|][j]; }
      }
    }
  }

  lemma BranchesHaveChoices(params: seq<Param>, ix: seq<nat>, n: nat)
    requires IsChoice(params, ix) && |ix| < |params| && n <= AxisSize(params[|ix|])
    ensures AllChoices(params, Branches(Sizes(params), ix, n))
  {
    var s := Branches(Sizes(params), ix, n);
    BranchesList(Sizes(params), ix, n);
    forall k | 0 <= k < |s| ensures IsChoice(params, s[k]) && |s[k]| == |params| {
      assert s[k] in s;
      assert s[k][..|ix|] == ix;
      forall j | 0 <= j < |s[k]| ensures s[k][j] < AxisSize(params[j]) {
        if j < |ix| { assert s[k][j] == s[k][..|ix|][j]; }
      }
    }
  }

  /** What the enumerator appends for the first `n` values of the next parameter. */
  ghost function Appended(params: seq<Param>, ix: seq<nat>, n: nat): seq<Genes>
    requires IsChoice(params, ix) && |ix| < |params| && n <= AxisSize(params[|ix|])
  {
    BranchesHaveChoices(params, ix, n);
    Combinations(params, Branches(Sizes(params), ix, n))
  }

  /** What it appends below a choice. */
  ghost function Below(params: seq<Param>, ix: seq<nat>): seq<Genes>
    requires IsChoice(params, ix)
  {
    ListingHasChoices(params, ix);
    Combinations(params, Listing(Sizes(params), ix))
  }

  lemma AppendedAll(params: seq<Param>, ix: seq<nat>)
    requires IsChoice(params, ix) && |ix| < |params|
    ensures Below(params, ix) == Appended(params, ix, AxisSize(params[|ix|]))
  {
  }

  class Enumerator {
    const params: seq<Param>
    var current: Genes
    var combinations: seq<Genes>

    constructor (params: seq<Param>)
      ensures this.params == params && combinations == [] && current == map[]
    {
      this.params := params;
      current, combinations := map[], [];
    }

    /** One value of one parameter: write it, then recurse. */
    method Try(idx: nat, v: Value, ghost ix: seq<nat>, ghost i: nat)
      requires Ends(params) && IsChoice(params, ix) && idx == |ix| < |params|
      requires i < AxisSize(params[idx]) && v == AxisAt(params[idx], i)
      requires Settled(current, Combination(params, ix), params, idx)
      modifies this
      ensures Settled(current, Combination(params, ix), params, idx)
      ensures combinations == old(combinations) + Below(params, ix + [i])
      decreases |params| - idx, 0
    {
      CombinationOneMore(params, ix, i);
      SettledByWrite(current, Combination(params, ix), params, idx, v);
      current := current[params[idx].name := v];
      Generate(idx + 1, ix + [i]);
      SettledAfterCall(current, Combination(params, ix), params, idx, v);
    }

    method WalkValues(idx: nat, ghost ix: seq<nat>)
      requires Ends(params) && IsChoice(params, ix) && idx == |ix| < |params| && |params[idx].values| > 0
      requires Settled(current, Combination(params, ix), params, idx)
      modifies this
      ensures Settled(current, Combination(params, ix), params, idx)
      ensures combinations == old(combinations) + Appended(params, ix, AxisSize(params[idx]))
      decreases |params| - idx, 1
    {
      var space := params[idx];
      for i := 0 to |space.values|
        invariant Settled(current, Combination(params, ix), params, idx)
        invariant combinations == old(combinations) + Appended(params, ix, i)
      {
        Try(idx, space.values[i], ix, i);
      }
    }

    method WalkRange(idx: nat, ghost ix: seq<nat>)
      requires Ends(params) && IsChoice(params, ix) && idx == |ix| < |params| && params[idx].values == []
      requires Settled(current, Combination(params, ix), params, idx)
      modifies this
      ensures Settled(current, Combination(params, ix), params, idx)
      ensures combinations == old(combinations) + Appended(params, ix, AxisSize(params[idx]))
      decreases |params| - idx, 1
    {
      var space := params[idx];
      var value := space.min;
      ghost var i := 0;
      RangeIff(space, 0);
      while value <= space.max
        invariant i <= AxisSize(space) && value == space.min + i as real * space.step
        invariant i < AxisSize(space) <==> value <= space.max
        invariant Settled(current, Combination(params, ix), params, idx)
        invariant combinations == old(combinations) + Appended(params, ix, i)
        decreases AxisSize(space) - i
      {
        Try(idx, Number(value), ix, i);
        RangeIff(space, i + 1);
        value := value + space.step;
        i := i + 1;
      }
    }

    /** Level `idx` of the recursion. All levels write into the one map `current`. */
    method Generate(idx: nat, ghost ix: seq<nat>)
      requires Ends(params) && IsChoice(params, ix) && idx == |ix|
      requires Settled(current, Combination(params, ix), params, idx)
      modifies this
      ensures Settled(current, Combination(params, ix), params, idx)
      ensures combinations == old(combinations) + Below(params, ix)
      decreases |params| - idx, 2
    {
      if idx == |params| {
        SettledIsEqual(current, Combination(params, ix), params);
        combinations := combinations + [current];
        return;
      }
      var space := params[idx];
      if |space.values| > 0 {
        WalkValues(idx, ix);
      } else {
        WalkRange(idx, ix);
      }
      AppendedAll(params, ix);
    }
  }

  method GenerateAllCombinations(params: seq<Param>) returns (combinations: seq<Genes>)
    requires Ends(params)
    ensures combinations == if params == [] then [] else Below(params, [])
  {
    if |params| == 0 {
      return [];
    }
    var e := new Enumerator(params);
    e.Generate(0, []);
    combinations := e.combinations;
  }

  // ----- what the enumeration means -----

  ghost predicate DistinctNames(params: seq<Param>) {
    forall i, j :: 0 <= i < j < |params| ==> params[i].name != params[j].name
  }

  /** The enumeration is one combination per index vector, in lexicographic order of the vectors. */
  lemma GridIsLexicographic(params: seq<Param>) returns (s: seq<seq<nat>>)
    ensures AllChoices(params, s) && Below(params, []) == Combinations(params, s)
    ensures forall i, j :: 0 <= i < j < |s| ==> Before(s[i], s[j])
    ensures forall ix: seq<nat> :: ix in s <==> |ix| == |params| && IsChoice(params, ix)
  {
    s := Listing(Sizes(params), []);
    ListingHasChoices(params, []);
    ListingIsLexicographic(Sizes(params), []);
    forall ix: seq<nat> ensures Extends([], ix, Sizes(params)) <==> |ix| == |params| && IsChoice(params, ix) {
    }
  }

  /** With distinct names each parameter keeps the value chosen for it. */
  lemma {:induction false} CombinationMeaning(params: seq<Param>, ix: seq<nat>)
    requires IsChoice(params, ix) && DistinctNames(params)
    ensures forall name :: name in Combination(params, ix) <==>
              exists j :: 0 <= j < |ix| && params[j].name == name
    ensures forall j :: 0 <= j < |ix| ==>
              params[j].name in Combination(params, ix)
              && Combination(params, ix)[params[j].name] == AxisAt(params[j], ix[j])
  {
    if ix != [] {
      CombinationMeaning(params, ix[..|ix| - 1]);
    }
  }

  ghost predicate IsPoint(p: Param, x: real, i: nat) {
    x == p.min + i as real * p.step
  }

  /** What a combination may hold for a parameter. */
  ghost predicate OnAxis(p: Param, v: Value) {
    if |p.values| > 0 then v in p.values
    else v.Number? && v.x <= p.max && exists i: nat :: IsPoint(p, v.x, i)
  }

  lemma AxisHolds(p: Param, i: nat)
    requires i < AxisSize(p)
    ensures OnAxis(p, AxisAt(p, i))
  {
    if p.values == [] {
      RangeIff(p, i);
      assert IsPoint(p, p.min + i as real * p.step, i);
    }
  }

  lemma AxisIndex(p: Param, v: Value) returns (i: nat)
    requires OnAxis(p, v) && (p.values == [] ==> p.step > 0.0)
    ensures i < AxisSize(p) && AxisAt(p, i) == v
  {
    if |p.values| > 0 {
      i :| i < |p.values| && p.values[i] == v;
    } else {
      i :| IsPoint(p, v.x, i);
      RangeIff(p, i);
    }
  }

  ghost predicate IsGridPoint(params: seq<Param>, m: Genes) {
    && (forall name :: name in m <==> exists j :: 0 <= j < |params| && params[j].name == name)
    && (forall j :: 0 <= j < |params| ==> params[j].name in m && OnAxis(params[j], m[params[j].name]))
  }

  ghost predicate AllStepped(params: seq<Param>) {
    forall j :: 0 <= j < |params| ==> |params[j].values| > 0 || params[j].step > 0.0
  }

  lemma {:induction false} ChoiceOf(params: seq<Param>, m: Genes, n: nat) returns (ix: seq<nat>)
    requires AllStepped(params) && IsGridPoint(params, m) && n <= |params|
    ensures |ix| == n && IsChoice(params, ix)
    ensures forall j :: 0 <= j < n ==> AxisAt(params[j], ix[j]) == m[params[j].name]
  {
    if n == 0 {
      ix := [];
    } else {
      ix := ChoiceOf(params, m, n - 1);
      var i := AxisIndex(params[n - 1], m[params[n - 1].name]);
      ix := ix + [i];
    }
  }

  lemma CombinationIsPoint(params: seq<Param>, ix: seq<nat>)
    requires IsChoice(params, ix) && |ix| == |params| && DistinctNames(params)
    ensures IsGridPoint(params, Combination(params, ix))
  {
    CombinationMeaning(params, ix);
    forall j | 0 <= j < |params| ensures OnAxis(params[j], AxisAt(params[j], ix[j])) {
      AxisHolds(params[j], ix[j]);
    }
  }

  lemma SameMap(params: seq<Param>, a: Genes, b: Genes)
    requires forall name :: name in a <==> exists j :: 0 <= j < |params| && params[j].name == name
    requires forall name :: name in b <==> exists j :: 0 <= j < |params| && params[j].name == name
    requires forall j :: 0 <= j < |params| ==> a[params[j].name] == b[params[j].name]
    ensures a == b
  {
    assert a.Keys == b.Keys;
  }

  lemma PointIsCombination(params: seq<Param>, m: Genes) returns (ix: seq<nat>)
    requires AllStepped(params) && DistinctNames(params) && IsGridPoint(params, m)
    ensures |ix| == |params| && IsChoice(params, ix) && Combination(params, ix) == m
  {
    ix := ChoiceOf(params, m, |params|);
    CombinationMeaning(params, ix);
    SameMap(params, Combination(params, ix), m);
  }

  /** With distinct names and positive steps the enumeration holds exactly the points of the
      Cartesian product. */
  lemma GridPointIff(params: seq<Param>, m: Genes)
    requires AllStepped(params) && DistinctNames(params)
    ensures m in Below(params, []) <==> IsGridPoint(params, m)
  {
    var s := GridIsLexicographic(params);
    if m in Below(params, []) {
      var k :| 0 <= k < |s| && Combination(params, s[k]) == m;
      CombinationIsPoint(params, s[k]);
    }
    if IsGridPoint(params, m) {
      var ix := PointIsCombination(params, m);
      assert ix in s;
      var k :| 0 <= k < |s| && s[k] == ix;
      assert Below(params, [])[k] == m;
    }
  }

  ghost predicate ListsTwice(p: Param) {
    exists a, b :: 0 <= a < b < |p.values| && p.values[a] == p.values[b]
  }

  lemma AxisSeparates(p: Param, i: nat, j: nat)
    requires i < AxisSize(p) && j < AxisSize(p) && i != j
    requires (p.values == [] ==> p.step > 0.0) && !ListsTwice(p)
    ensures AxisAt(p, i) != AxisAt(p, j)
  {
    if p.values == [] {
      ProductOrder(i as real, j as real, p.step);
      ProductOrder(j as real, i as real, p.step);
    }
  }

  /** The enumeration holds no point twice, unless a parameter lists one value twice. */
  lemma GridHasNoRepeats(params: seq<Param>, i: nat, j: nat)
    requires AllStepped(params) && DistinctNames(params)
    requires forall n :: 0 <= n < |params| ==> !ListsTwice(params[n])
    requires i < j < |Below(params, [])|
    ensures Below(params, [])[i] != Below(params, [])[j]
  {
    var s := GridIsLexicographic(params);
    var a, b := s[i], s[j];
    assert Before(a, b);
    var k: nat :| DiffersAt(a, b, k);
    CombinationMeaning(params, a);
    CombinationMeaning(params, b);
    AxisSeparates(params[k], a[k], b[k]);
  }

  ghost predicate RepeatsAPoint(params: seq<Param>) {
    exists i, j :: 0 <= i < j < |Below(params, [])| && Below(params, [])[i] == Below(params, [])[j]
  }

  /** The vector that chooses the first value everywhere, but value `i` of parameter `n`. */
  ghost function ChoosesAt(params: seq<Param>, n: nat, i: nat): seq<nat> {
    seq(|params|, j => if j == n then i else 0)
  }

  lemma ChoosesIsChoice(params: seq<Param>, n: nat, i: nat)
    requires n < |params| && i < AxisSize(params[n])
    requires AllStepped(params) && forall j :: 0 <= j < |params| ==> !IsEmpty(params[j])
    ensures IsChoice(params, ChoosesAt(params, n, i))
  {
    forall j | 0 <= j < |params| ensures 0 < AxisSize(params[j]) {
      if params[j].values == [] { RangeIff(params[j], 0); }
    }
  }

  lemma SamePoint(params: seq<Param>, x: seq<nat>, y: seq<nat>)
    requires DistinctNames(params) && |x| == |y| == |params| && IsChoice(params, x) && IsChoice(params, y)
    requires forall j :: 0 <= j < |params| ==> AxisAt(params[j], x[j]) == AxisAt(params[j], y[j])
    ensures Combination(params, x) == Combination(params, y)
  {
    CombinationMeaning(params, x);
    CombinationMeaning(params, y);
    SameMap(params, Combination(params, x), Combination(params, y));
  }

  lemma RepeatedAt(params: seq<Param>, grid: seq<Genes>, i: nat, j: nat)
    requires grid == Below(params, []) && i < |grid| && j < |grid| && i != j && grid[i] == grid[j]
    ensures RepeatsAPoint(params)
  {
    var a, b := if i < j then i else j, if i < j then j else i;
    assert 0 <= a < b < |Below(params, [])| && Below(params, [])[a] == Below(params, [])[b];
  }

  lemma ListedTwice(params: seq<Param>, x: seq<nat>, y: seq<nat>)
    requires |x| == |y| == |params| && IsChoice(params, x) && IsChoice(params, y)
    requires x != y && Combination(params, x) == Combination(params, y)
    ensures RepeatsAPoint(params)
  {
    var s := GridIsLexicographic(params);
    var i :| 0 <= i < |s| && s[i] == x;
    var j :| 0 <= j < |s| && s[j] == y;
    RepeatedAt(params, Combinations(params, s), i, j);
  }

  lemma ListedOnNoEmptyRange(params: seq<Param>, n: nat)
    requires n < |params| && |Below(params, [])| > 0
    ensures !IsEmpty(params[n])
  {
    var s := GridIsLexicographic(params);
    assert s[0] in s && s[0][n] < AxisSize(params[n]);
  }

  lemma SameAxisSamePoint(params: seq<Param>, n: nat, a: nat, b: nat)
    requires AllStepped(params) && DistinctNames(params) && n < |params|
    requires forall j :: 0 <= j < |params| ==> !IsEmpty(params[j])
    requires a < b < |params[n].values| && params[n].values[a] == params[n].values[b]
    ensures RepeatsAPoint(params)
  {
    var x, y := ChoosesAt(params, n, a), ChoosesAt(params, n, b);
    ChoosesIsChoice(params, n, a);
    ChoosesIsChoice(params, n, b);
    SamePoint(params, x, y);
    assert x[n] != y[n];
    ListedTwice(params, x, y);
  }

  /** With distinct names and positive steps, a point is listed twice if and only if some parameter
      lists a value twice and no range is empty. */
  lemma GridRepeatsIff(params: seq<Param>)
    requires AllStepped(params) && DistinctNames(params)
    ensures RepeatsAPoint(params) <==>
            && (exists n :: 0 <= n < |params| && ListsTwice(params[n]))
            && (forall n :: 0 <= n < |params| ==> !IsEmpty(params[n]))
  {
    if RepeatsAPoint(params) {
      forall n | 0 <= n < |params| ensures !IsEmpty(params[n]) {
        ListedOnNoEmptyRange(params, n);
      }
      if forall n :: 0 <= n < |params| ==> !ListsTwice(params[n]) {
        var i, j :| 0 <= i < j < |Below(params, [])| && Below(params, [])[i] == Below(params, [])[j];
        GridHasNoRepeats(params, i, j);
      }
    } else if n: nat :| n < |params| && ListsTwice(params[n]) {
      var a, b :| 0 <= a < b < |params[n].values| && params[n].values[a] == params[n].values[b];
      if forall j :: 0 <= j < |params| ==> !IsEmpty(params[j]) {
        SameAxisSamePoint(params, n, a, b);
      }
    }
  }
}
