/**
 * The fixed-length score window `lastN` of the listeners: every step pops the
 * oldest entry (`lastN.pop(0)`) and appends the newest (`lastN.append(x)`),
 * and the listeners read the window's sum.
 */
module RollingWindow {

  /** One update of the window: drop the oldest entry, append `x`. */
  function Push<T>(w: seq<T>, x: T): (r: seq<T>)
    requires |w| > 0
    ensures |r| == |w| && r[|r| - 1] == x
  {
    w[1..] + [x]
  }

  /** The window after pushing every element of `xs` in order. */
  function PushAll<T>(w: seq<T>, xs: seq<T>): (r: seq<T>)
    requires |w| > 0
    ensures |r| == |w|
    decreases |xs|
  {
    if xs == [] then w else Push(PushAll(w, xs[..|xs| - 1]), xs[|xs| - 1])
  }

  /** After no more pushes than the window is long, the window is the seed
      without its first |xs| elements, followed by everything pushed. */
  lemma {:induction false} PushAllIsSuffix<T>(w: seq<T>, xs: seq<T>)
    requires |w| > 0
    requires |xs| <= |w|
    ensures PushAll(w, xs) == w[|xs|..] + xs
    decreases |xs|
  {
    if xs != [] {
      var init := xs[..|xs| - 1];
      PushAllIsSuffix(w, init);
      assert init + [xs[|xs| - 1]] == xs;
    }
  }

  /** Once at least |w| values were pushed, the window holds exactly the
      last |w| of them, whatever the seed was. */
  lemma {:induction false} WindowKeepsLastN<T>(w: seq<T>, xs: seq<T>)
    requires |w| > 0
    requires |xs| >= |w|
    ensures PushAll(w, xs) == xs[|xs| - |w|..]
    decreases |xs|
  {
    if |xs| == |w| {
      PushAllIsSuffix(w, xs);
    } else {
      var init := xs[..|xs| - 1];
      WindowKeepsLastN(w, init);
      assert init[|init| - |w|..][1..] + [xs[|xs| - 1]] == xs[|xs| - |w|..];
    }
  }

  function Sum(s: seq<int>): int
  {
    if s == [] then 0 else Sum(s[..|s| - 1]) + s[|s| - 1]
  }

  function SumR(s: seq<real>): real
  {
    if s == [] then 0.0 else SumR(s[..|s| - 1]) + s[|s| - 1]
  }

  lemma {:induction false} SumAppend(a: seq<int>, b: seq<int>)
    ensures Sum(a + b) == Sum(a) + Sum(b)
    decreases |b|
  {
    if b == [] {
      assert a + b == a;
    } else {
      SumAppend(a, b[..|b| - 1]);
      assert (a + b)[..|a + b| - 1] == a + b[..|b| - 1];
    }
  }

  lemma {:induction false} SumRAppend(a: seq<real>, b: seq<real>)
    ensures SumR(a + b) == SumR(a) + SumR(b)
    decreases |b|
  {
    if b == [] {
      assert a + b == a;
    } else {
      SumRAppend(a, b[..|b| - 1]);
      assert (a + b)[..|a + b| - 1] == a + b[..|b| - 1];
    }
  }

  lemma {:induction false} SumNonNegative(s: seq<int>)
    requires forall k :: 0 <= k < |s| ==> s[k] >= 0
    ensures Sum(s) >= 0
    decreases |s|
  {
    if s != [] {
      SumNonNegative(s[..|s| - 1]);
    }
  }

  lemma {:induction false} SumRNonNegative(s: seq<real>)
    requires forall k :: 0 <= k < |s| ==> s[k] >= 0.0
    ensures SumR(s) >= 0.0
    decreases |s|
  {
    if s != [] {
      SumRNonNegative(s[..|s| - 1]);
    }
  }

  /** `[c for i in range(n)]` */
  function Repeat(c: real, n: nat): (r: seq<real>)
    ensures |r| == n && forall k :: 0 <= k < n ==> r[k] == c
  {
    seq(n, _ => c)
  }

  lemma {:induction false} SumRepeat(c: real, n: nat)
    ensures SumR(Repeat(c, n)) == n as real * c
    decreases n
  {
    if n > 0 {
      assert Repeat(c, n)[..n - 1] == Repeat(c, n - 1);
      SumRepeat(c, n - 1);
    }
  }

  /** `[i for i in range(lo, hi)]` */
  function Range(lo: int, hi: int): (r: seq<int>)
    requires lo <= hi
    ensures |r| == hi - lo && forall k :: 0 <= k < |r| ==> r[k] == lo + k
  {
    seq(hi - lo, k => lo + k)
  }

  /** Gauss: the sum of lo, lo+1, ..., hi-1. */
  lemma {:induction false} SumRange(lo: int, hi: int)
    requires lo <= hi
    ensures 2 * Sum(Range(lo, hi)) == (hi - lo) * (lo + hi - 1)
    decreases hi - lo
  {
    if lo < hi {
      assert Range(lo, hi)[..hi - lo - 1] == Range(lo, hi - 1);
      SumRange(lo, hi - 1);
    }
  }
}
