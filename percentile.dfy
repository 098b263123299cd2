/**
 * Sorting and the linearly interpolated quantile that pandas computes,
 * and clipping from above.
 */
module Percentile {

  predicate Sorted(s: seq<real>)
  {
    forall i, j :: 0 <= i <= j < |s| ==> s[i] <= s[j]
  }

  function Insert(x: real, s: seq<real>): (r: seq<real>)
    requires Sorted(s)
    ensures Sorted(r) && multiset(r) == multiset(s) + multiset{x} && |r| == |s| + 1
  {
    if s == [] then [x]
    else if x <= s[0] then [x] + s
    else
      var rest := Insert(x, s[1..]);
      InsertBehindHead(x, s, rest);
      [s[0]] + rest
  }

  /** Putting the head of s back in front of x inserted into the tail keeps the order. */
  lemma InsertBehindHead(x: real, s: seq<real>, rest: seq<real>)
    requires Sorted(s) && |s| > 0 && s[0] < x
    requires Sorted(rest) && multiset(rest) == multiset(s[1..]) + multiset{x}
    ensures Sorted([s[0]] + rest) && multiset([s[0]] + rest) == multiset(s) + multiset{x}
  {
    assert s == [s[0]] + s[1..];
    forall i | 0 <= i < |rest|
      ensures s[0] <= rest[i]
    {
      assert rest[i] in multiset(rest);
      assert rest[i] == x || rest[i] in s[1..];
    }
    var r := [s[0]] + rest;
    forall i, j | 0 <= i <= j < |r|
      ensures r[i] <= r[j]
    {
      if i > 0 {
        assert r[i] == rest[i - 1] && r[j] == rest[j - 1];
      } else {
        assert r[i] == s[0];
        if j > 0 {
          assert r[j] == rest[j - 1];
        }
      }
    }
  }

  /** The values of s in ascending order. */
  function Sort(s: seq<real>): (r: seq<real>)
    ensures Sorted(r) && multiset(r) == multiset(s) && |r| == |s|
  {
    if s == [] then []
    else
      assert s == [s[0]] + s[1..];
      Insert(s[0], Sort(s[1..]))
  }

  lemma ProductNonNegative(x: real, y: real)
    requires x >= 0.0 && y >= 0.0
    ensures x * y >= 0.0
  {
  }

  /** The point a fraction f of the way from a to b. */
  function Lerp(a: real, b: real, f: real): (r: real)
    requires a <= b && 0.0 <= f <= 1.0
    ensures a <= r <= b
  {
    ProductNonNegative(f, b - a);
    ProductNonNegative(1.0 - f, b - a);
    assert f * (b - a) + (1.0 - f) * (b - a) == b - a;
    a + f * (b - a)
  }

  lemma ScaleBelow(n: nat, q: real)
    requires 0.0 <= q <= 1.0
    ensures 0.0 <= n as real * q <= n as real
  {
  }

  /** A value between two order statistics of s lies between two values of s. */
  lemma BetweenOrderStatistics(s: seq<real>, a: nat, b: nat, v: real)
    requires a < |s| && b < |s| && Sort(s)[a] <= v <= Sort(s)[b]
    ensures exists i :: 0 <= i < |s| && s[i] <= v
    ensures exists k :: 0 <= k < |s| && v <= s[k]
  {
    var t := Sort(s);
    assert t[a] in multiset(t);
    assert t[b] in multiset(t);
    assert t[a] in s && t[b] in s;
  }

  /** The whole and fractional parts of the position (n - 1) * q. */
  function Position(n: nat, q: real): (p: (nat, real))
    requires n > 0 && 0.0 <= q <= 1.0
    ensures p.0 < n && 0.0 <= p.1 < 1.0
    ensures p.0 as real + p.1 == (n - 1) as real * q
  {
    ScaleBelow(n - 1, q);
    var h := (n - 1) as real * q;
    (h.Floor, h - h.Floor as real)
  }

  /**
   * The q-quantile of s with linear interpolation: position (|s| - 1) * q in
   * the sorted values, interpolated between the two order statistics around
   * it. It lies between the least and the greatest value of s.
   */
  function Quantile(s: seq<real>, q: real): (r: real)
    requires |s| > 0 && 0.0 <= q <= 1.0
    ensures exists i :: 0 <= i < |s| && s[i] <= r
    ensures exists k :: 0 <= k < |s| && r <= s[k]
  {
    var t := Sort(s);
    var (lo, frac) := Position(|s|, q);
    if lo + 1 < |t| then
      var v := Lerp(t[lo], t[lo + 1], frac);
      BetweenOrderStatistics(s, lo, lo + 1, v);
      v
    else
      BetweenOrderStatistics(s, lo, lo, t[lo]);
      t[lo]
  }

  /** `Series.clip(upper=cap)`: every value above cap becomes cap. */
  function Clip(s: seq<real>, cap: real): (r: seq<real>)
    ensures |r| == |s|
    ensures forall i :: 0 <= i < |s| ==> r[i] <= cap
  {
    seq(|s|, i requires 0 <= i < |s| => if s[i] > cap then cap else s[i])
  }

  /** Values at or below the cap are kept, values above it become exactly the cap. */
  lemma ClipPointwise(s: seq<real>, cap: real, i: nat)
    requires i < |s|
    ensures s[i] <= cap ==> Clip(s, cap)[i] == s[i]
    ensures s[i] > cap ==> Clip(s, cap)[i] == cap
  {
  }

  /** Clipping never raises a value. */
  lemma ClipNeverRaises(s: seq<real>, cap: real)
    ensures forall i :: 0 <= i < |s| ==> Clip(s, cap)[i] <= s[i]
  {
  }

  /** Clipping again at the same cap changes nothing. */
  lemma ClipIdempotent(s: seq<real>, cap: real)
    ensures Clip(Clip(s, cap), cap) == Clip(s, cap)
  {
  }

  /** A column already within the cap is left as it is. */
  lemma ClipWithinCap(s: seq<real>, cap: real)
    requires forall i :: 0 <= i < |s| ==> s[i] <= cap
    ensures Clip(s, cap) == s
  {
  }
}
