/** The sliding-window rate limiter. Times are nanoseconds on one clock. */
module RateLimits {

  /** The requests that are later than the cutoff, in order. */
  function After(cutoff: int, s: seq<int>): seq<int> {
    if s == [] then []
    else After(cutoff, s[..|s| - 1]) + (if s[|s| - 1] > cutoff then [s[|s| - 1]] else [])
  }

  /** How many times `t` of `s` satisfy lo < t <= hi. */
  ghost function CountWithin(s: seq<int>, lo: int, hi: int): nat {
    if s == [] then 0
    else CountWithin(s[..|s| - 1], lo, hi) + (if lo < s[|s| - 1] <= hi then 1 else 0)
  }

  ghost predicate NonDecreasing(s: seq<int>) {
    forall i, j :: 0 <= i <= j < |s| ==> s[i] <= s[j]
  }

  // ----- one call as a function of the stored requests -----

  datatype Limiter = Limiter(limit: int, window: int)

  ghost function Step(l: Limiter, requests: seq<int>, now: int): (seq<int>, bool) {
    var valid := After(now - l.window, requests);
    if |valid| >= l.limit then (valid, false) else (valid + [now], true)
  }

  lemma {:induction false} AfterMembers(cutoff: int, s: seq<int>)
    ensures forall t :: t in After(cutoff, s) <==> t in s && t > cutoff
  {
    if s != [] {
      AfterMembers(cutoff, s[..|s| - 1]);
      assert s == s[..|s| - 1] + [s[|s| - 1]];
    }
  }

  class RateLimiter {
    const limit: int
    const window: int
    var requests: seq<int>

    ghost function Config(): Limiter {
      Limiter(limit, window)
    }

    constructor (limit: int, window: int)
      ensures this.limit == limit && this.window == window && requests == []
    {
      this.limit := limit;
      this.window := window;
      requests := [];
    }

    method Allow(now: int) returns (ok: bool)
      modifies this
      ensures (requests, ok) == Step(Config(), old(requests), now)
    {
      var cutoff := now - window;
      var valid := [];
      for i := 0 to |requests|
        invariant valid == After(cutoff, requests[..i])
      {
        assert requests[..i + 1][..i] == requests[..i];
        if requests[i] > cutoff {
          valid := valid + [requests[i]];
        }
      }
      assert requests[..|requests|] == requests;
      if |valid| >= limit {
        requests := valid;
        return false;
      }
      requests := valid + [now];
      return true;
    }

    /** Retries every 100 ms or later until a request is granted. With a positive limit it ends,
        because every stored request leaves the window; with no other limit would it ever end. */
    method Wait(start: int) returns (now: int)
      requires limit >= 1 && forall t :: t in requests ==> t <= start
      modifies this
      ensures now >= start && requests != [] && requests[|requests| - 1] == now
      ensures |requests| <= limit && forall t :: t in requests ==> now - window < t || t == now
    {
      now := start;
      while true
        invariant now >= start && forall t :: t in requests ==> t <= start
        decreases if now < start + window then start + window - now else 0
      {
        ghost var before := requests;
        AfterMembers(now - window, before);
        var ok := Allow(now);
        if ok {
          return;
        }
        ghost var oldest := requests[0];
        assert oldest in After(now - window, before);
        assert oldest in before && oldest > now - window;
        assert now < start + window;
        var sleep: int :| sleep >= 100_000_000;
        now := now + sleep;
      }
    }
  }

  // ----- runs of calls -----

  /** The state after calls at the given times: what is stored, and all grants so far. */
  ghost function Stored(l: Limiter, times: seq<int>): seq<int> {
    if times == [] then []
    else Step(l, Stored(l, times[..|times| - 1]), times[|times| - 1]).0
  }

  ghost predicate GrantedAt(l: Limiter, times: seq<int>, i: nat)
    requires i < |times|
  {
    Step(l, Stored(l, times[..i]), times[i]).1
  }

  ghost function Grants(l: Limiter, times: seq<int>): seq<int> {
    if times == [] then []
    else
      var n := |times| - 1;
      Grants(l, times[..n]) + (if GrantedAt(l, times, n) then [times[n]] else [])
  }

  lemma {:induction false} CountConcat(a: seq<int>, b: seq<int>, lo: int, hi: int)
    ensures CountWithin(a + b, lo, hi) == CountWithin(a, lo, hi) + CountWithin(b, lo, hi)
  {
    if b == [] {
      assert a + b == a;
    } else {
      assert (a + b)[..|a + b| - 1] == a + b[..|b| - 1];
      CountConcat(a, b[..|b| - 1], lo, hi);
    }
  }

  lemma {:induction false} CountAfter(s: seq<int>, lo: int, hi: int)
    requires forall i :: 0 <= i < |s| ==> s[i] <= hi
    ensures CountWithin(s, lo, hi) == |After(lo, s)|
  {
    if s != [] {
      CountAfter(s[..|s| - 1], lo, hi);
    }
  }

  lemma {:induction false} AfterConcat(cutoff: int, a: seq<int>, b: seq<int>)
    ensures After(cutoff, a + b) == After(cutoff, a) + After(cutoff, b)
  {
    if b == [] {
      assert a + b == a;
    } else {
      assert (a + b)[..|a + b| - 1] == a + b[..|b| - 1];
      AfterConcat(cutoff, a, b[..|b| - 1]);
    }
  }

  /** Filtering early and again later is filtering later. */
  lemma {:induction false} AfterTwice(early: int, late: int, s: seq<int>)
    requires early <= late
    ensures After(late, After(early, s)) == After(late, s)
  {
    if s != [] {
      var n := |s| - 1;
      AfterTwice(early, late, s[..n]);
      AfterConcat(late, After(early, s[..n]), if s[n] > early then [s[n]] else []);
    }
  }

  lemma FilterAndAppend(early: int, late: int, stored: seq<int>, all: seq<int>, added: seq<int>)
    requires early <= late && After(early, stored) == After(early, all)
    ensures After(late, After(early, stored) + added) == After(late, all + added)
  {
    AfterConcat(late, After(early, stored), added);
    AfterConcat(late, all, added);
    AfterTwice(early, late, all);
  }

  ghost function Added(l: Limiter, times: seq<int>): seq<int>
    requires times != []
  {
    if GrantedAt(l, times, |times| - 1) then [times[|times| - 1]] else []
  }

  lemma LastCall(l: Limiter, times: seq<int>)
    requires times != []
    ensures var before, last := times[..|times| - 1], times[|times| - 1];
            && Stored(l, times) == After(last - l.window, Stored(l, before)) + Added(l, times)
            && Grants(l, times) == Grants(l, before) + Added(l, times)
  {
  }

  /** Forgetting requests loses nothing: what the next call keeps is what it would keep of all
      the grants ever made. */
  lemma {:induction false} NothingIsLost(l: Limiter, times: seq<int>, now: int)
    requires NonDecreasing(times) && (times != [] ==> times[|times| - 1] <= now)
    ensures After(now - l.window, Stored(l, times)) == After(now - l.window, Grants(l, times))
  {
    if times != [] {
      var n := |times| - 1;
      NothingIsLost(l, times[..n], times[n]);
      var stored, all, added := Stored(l, times[..n]), Grants(l, times[..n]), Added(l, times);
      LastCall(l, times);
      var early := times[n] - l.window;
      FilterAndAppend(early, now - l.window, stored, all, added);
      assert Stored(l, times) == After(early, stored) + added;
      assert Grants(l, times) == all + added;
    }
  }

  lemma {:induction false} GrantsInOrder(l: Limiter, times: seq<int>)
    requires NonDecreasing(times)
    ensures NonDecreasing(Grants(l, times))
    ensures forall i :: 0 <= i < |Grants(l, times)| ==> times != [] && Grants(l, times)[i] <= times[|times| - 1]
  {
    if times != [] {
      var n := |times| - 1;
      GrantsInOrder(l, times[..n]);
      LastCall(l, times);
      assert n > 0 ==> times[..n][n - 1] <= times[n];
    }
  }

  /** A call is granted exactly when fewer than `limit` grants lie in the window that ends with it. */
  lemma GrantedIff(l: Limiter, times: seq<int>, i: nat)
    requires NonDecreasing(times) && i < |times|
    ensures GrantedAt(l, times, i) <==>
            CountWithin(Grants(l, times[..i]), times[i] - l.window, times[i]) < l.limit
  {
    var before, now := times[..i], times[i];
    assert before != [] ==> before[|before| - 1] == times[i - 1] <= now;
    NothingIsLost(l, before, now);
    GrantsInOrder(l, before);
    CountAfter(Grants(l, before), now - l.window, now);
  }

  /** Grants that are less than a window apart are at most `limit` many. */
  ghost predicate Spaced(l: Limiter, g: seq<int>) {
    forall i, j :: 0 <= i <= j < |g| && g[j] - g[i] < l.window ==> j - i + 1 <= l.limit
  }

  lemma {:induction false} CountAll(s: seq<int>, lo: int, hi: int)
    requires forall i :: 0 <= i < |s| ==> lo < s[i] <= hi
    ensures CountWithin(s, lo, hi) == |s|
  {
    if s != [] {
      CountAll(s[..|s| - 1], lo, hi);
    }
  }

  lemma CountTail(s: seq<int>, i: nat, lo: int, hi: int)
    requires i <= |s| && forall k :: i <= k < |s| ==> lo < s[k] <= hi
    ensures CountWithin(s, lo, hi) >= |s| - i
  {
    assert s == s[..i] + s[i..];
    CountConcat(s[..i], s[i..], lo, hi);
    CountAll(s[i..], lo, hi);
  }

  lemma LastFits(l: Limiter, g: seq<int>, now: int)
    requires NonDecreasing(g + [now]) && Spaced(l, g) && CountWithin(g, now - l.window, now) < l.limit
    ensures Spaced(l, g + [now])
  {
    var g' := g + [now];
    forall i | 0 <= i < |g| && now - g[i] < l.window
      ensures |g| - i + 1 <= l.limit
    {
      forall k | i <= k < |g|
        ensures now - l.window < g[k] <= now
      {
        assert g'[i] <= g'[k] <= g'[|g|];
      }
      CountTail(g, i, now - l.window, now);
    }
    forall i, j | 0 <= i <= j < |g'| && g'[j] - g'[i] < l.window
      ensures j - i + 1 <= l.limit
    {
      if j < |g| {
        assert g[j] - g[i] < l.window;
      }
    }
  }

  lemma {:induction false} GrantsAreSpaced(l: Limiter, times: seq<int>)
    requires NonDecreasing(times)
    ensures Spaced(l, Grants(l, times))
  {
    if times != [] {
      var n := |times| - 1;
      GrantsAreSpaced(l, times[..n]);
      LastCall(l, times);
      if GrantedAt(l, times, n) {
        var g0 := Grants(l, times[..n]);
        GrantedIff(l, times, n);
        GrantsInOrder(l, times);
        assert Grants(l, times) == g0 + [times[n]];
        LastFits(l, g0, times[n]);
      }
    }
  }

  lemma {:induction false} SpacedCount(l: Limiter, g: seq<int>, lo: int) returns (first: nat)
    requires NonDecreasing(g)
    ensures CountWithin(g, lo, lo + l.window) > 0 ==>
      first < |g| && lo < g[first] && first + CountWithin(g, lo, lo + l.window) <= |g|
      && g[first + CountWithin(g, lo, lo + l.window) - 1] <= lo + l.window
  {
    if g == [] {
      first := 0;
    } else {
      var n := |g| - 1;
      first := SpacedCount(l, g[..n], lo);
      if CountWithin(g[..n], lo, lo + l.window) == 0 {
        first := n;
      } else if lo < g[n] <= lo + l.window {
        assert g[first + CountWithin(g, lo, lo + l.window) - 1] <= g[n];
      }
    }
  }

  /** The limiter keeps its promise on every run under a clock that never runs backwards: no window
      lo < t <= lo + window ever holds more than `limit` grants. */
  lemma WindowHoldsAtMostLimit(l: Limiter, times: seq<int>, lo: int)
    requires NonDecreasing(times)
    ensures var n := CountWithin(Grants(l, times), lo, lo + l.window);
            n == 0 || n <= l.limit
  {
    GrantsAreSpaced(l, times);
    var g := Grants(l, times);
    GrantsInOrder(l, times);
    var n := CountWithin(g, lo, lo + l.window);
    var first := SpacedCount(l, g, lo);
    if n > 0 {
      assert g[first + n - 1] - g[first] < l.window;
    }
  }
}
