/** The latency histogram of a bucket and the percentiles read from it. */
module OwlmHistogram {
  import opened Wire

  const LOG_BINS := 64
  const BINS := 66
  const NEGATIVE_BIN := 0
  const OVERFLOW_BIN := 65
  const LOW_NS: real := 100.0
  const HIGH_NS: real := 1000000000.0

  /** The bin edges: increasing from 100 ns to 1 s. Their values in between do not matter here. */
  predicate WfEdges(edges: seq<real>) {
    && |edges| == LOG_BINS + 1 && edges[0] == LOW_NS && edges[LOG_BINS] == HIGH_NS
    && forall i, j :: 0 <= i < j < |edges| ==> edges[i] < edges[j]
  }

  /** searchsorted(side="right"): how many edges are at most v. */
  function EdgesAtMost(edges: seq<real>, v: real, n: nat): (k: nat)
    requires n <= |edges|
    ensures k <= n
  {
    if n == 0 then 0 else EdgesAtMost(edges, v, n - 1) + (if edges[n - 1] <= v then 1 else 0)
  }

  /** _hist_bin_indices for one latency. */
  function BinOf(edges: seq<real>, lat: int): (b: nat)
    requires WfEdges(edges)
    ensures b < BINS
  {
    var v := lat as real;
    var below := EdgesAtMost(edges, v, |edges|) - 1;
    var clipped := if below < 0 then 0 else if below > LOG_BINS - 1 then LOG_BINS - 1 else below;
    if v >= HIGH_NS then OVERFLOW_BIN else if lat <= 0 then NEGATIVE_BIN else clipped + 1
  }

  lemma {:induction false} EdgesAtMostMonotone(edges: seq<real>, u: real, v: real, n: nat)
    requires n <= |edges| && u <= v
    ensures EdgesAtMost(edges, u, n) <= EdgesAtMost(edges, v, n)
  {
    if n > 0 { EdgesAtMostMonotone(edges, u, v, n - 1); }
  }

  /** A longer latency never lies in a lower bin. */
  lemma BinsMonotone(edges: seq<real>, a: int, b: int)
    requires WfEdges(edges) && a <= b
    ensures BinOf(edges, a) <= BinOf(edges, b)
  {
    EdgesAtMostMonotone(edges, a as real, b as real, |edges|);
  }

  lemma {:induction false} EdgesCounted(edges: seq<real>, v: real, n: nat, k: nat)
    requires n <= |edges| && k <= n && forall i :: 0 <= i < n ==> (edges[i] <= v <==> i < k)
    ensures EdgesAtMost(edges, v, n) == k
  {
    if n > 0 { EdgesCounted(edges, v, n - 1, if k == n then k - 1 else k); }
  }

  /** A latency lies in bin 0 if it is not positive, in bin 65 from one second on, in bin 1 below the second edge, and
      otherwise in the bin whose edges it lies between. */
  lemma BinMeaning(edges: seq<real>, lat: int, b: nat)
    requires WfEdges(edges)
    ensures |edges| == 65 && edges[0] == 100.0 && edges[64] == 1_000_000_000.0
    ensures lat <= 0 <==> BinOf(edges, lat) == 0
    ensures lat >= 1_000_000_000 <==> BinOf(edges, lat) == 65
    ensures 0 < lat && (lat as real) < edges[1] ==> BinOf(edges, lat) == 1
    ensures 1 < b <= 64 && edges[b - 1] <= lat as real < edges[b] ==> BinOf(edges, lat) == b
  {
    hide EdgesAtMost;
    var v := lat as real;
    if 0 < lat && v < edges[1] {
      EdgesCounted(edges, v, |edges|, if edges[0] <= v then 1 else 0);
      assert edges[1] < edges[64];
    }
    if 1 < b <= 64 && edges[b - 1] <= v < edges[b] {
      forall i | 0 <= i < |edges| ensures edges[i] <= v <==> i < b {
        assert i < b - 1 ==> edges[i] < edges[b - 1];
        assert b < i ==> edges[b] < edges[i];
      }
      EdgesCounted(edges, v, |edges|, b);
      assert edges[0] < edges[b - 1] && (b < 64 ==> edges[b] < edges[64]);
    }
  }

  // ---- counting samples ----

  /** How many samples satisfy f. */
  ghost function Count(s: seq<int>, f: int -> bool): (n: nat)
    ensures n <= |s|
  {
    if s == [] then 0 else Count(s[..|s| - 1], f) + (if f(s[|s| - 1]) then 1 else 0)
  }

  lemma {:induction false} CountMonotone(s: seq<int>, f: int -> bool, g: int -> bool)
    requires forall x <- s :: f(x) ==> g(x)
    ensures Count(s, f) <= Count(s, g)
  {
    if s != [] {
      var init, last := s[..|s| - 1], s[|s| - 1];
      assert last in s && (f(last) ==> g(last));
      CountMonotone(init, f, g);
    }
  }

  ghost function InBins(edges: seq<real>, i: int): (f: int -> bool)
    requires WfEdges(edges)
  {
    x => BinOf(edges, x) <= i
  }

  ghost function Below(v: int): (f: int -> bool) { x => x < v }

  ghost function AtMost(v: int): (f: int -> bool) { x => x <= v }

  // ---- percentiles ----

  /** The running sums of a histogram. */
  function Cumulative(hist: seq<nat>, i: nat): (n: nat)
    requires i <= |hist|
  {
    if i == 0 then 0 else Cumulative(hist, i - 1) + hist[i - 1]
  }

  /** The count through bin i. */
  function Through(hist: seq<nat>, i: nat): (n: nat)
    requires i < |hist|
  {
    Cumulative(hist, i + 1)
  }

  /** The cumulative count a percentile asks for. */
  function Target(total: nat, p: real): (t: real) {
    total as real * (p / 100.0)
  }

  /** A count of c out of n is at least p percent of them. */
  predicate Reaches(c: nat, n: nat, p: real) {
    100.0 * c as real >= p * n as real
  }

  /** i is the first bin through which at least p percent of all are counted. */
  predicate Selects(hist: seq<nat>, p: real, i: nat) {
    var n := Cumulative(hist, |hist|);
    && i < |hist| && Reaches(Through(hist, i), n, p)
    && forall j :: 0 <= j < i ==> !Reaches(Through(hist, j), n, p)
  }

  lemma TargetReached(c: nat, n: nat, p: real)
    ensures c as real >= Target(n, p) <==> Reaches(c, n, p)
    ensures 100.0 * Target(n, p) == p * n as real
  {
    var m := n as real;
    assert 100.0 * (m * (p / 100.0)) == m * (100.0 * (p / 100.0));
  }

  lemma TargetBounds(total: nat, p: real)
    requires 0.0 < p <= 100.0
    ensures Target(total, p) <= total as real && (total > 0 ==> 0.0 < Target(total, p))
  {
    var t, x := total as real, p / 100.0;
    assert 0.0 < x <= 1.0;
    assert t * x <= t * 1.0;
  }

  method Total(hist: seq<nat>) returns (total: nat)
    ensures total == Cumulative(hist, |hist|)
  {
    total := 0;
    for i := 0 to |hist|
      invariant total == Cumulative(hist, i)
    {
      total := total + hist[i];
    }
  }

  /** _bucket_percentiles and _bucket_percentiles_interp for one bucket: the selected bin, and the
      fraction of its count needed to reach the target. None for an empty bucket. */
  method SelectBin(hist: seq<nat>, p: real) returns (r: Option<(nat, real)>)
    requires 0.0 < p <= 100.0
    ensures r.None? <==> Cumulative(hist, |hist|) == 0
    ensures r.Some? ==> Selects(hist, p, r.value.0) && hist[r.value.0] > 0
    ensures r.Some? ==>
              100.0 * (Cumulative(hist, r.value.0) as real + r.value.1 * hist[r.value.0] as real) == p * Cumulative(hist, |hist|) as real
    ensures r.Some? ==> 0.0 < r.value.1 <= 1.0
  {
    hide Target, Reaches;
    var total := Total(hist);
    if total == 0 {
      return None;
    }
    var t := Target(total, p);
    TargetBounds(total, p);
    var i: nat, before: nat := 0, 0;
    while i < |hist| && ((before + hist[i]) as real) < t
      invariant i <= |hist| && before == Cumulative(hist, i) && (before as real) < t
      invariant forall j :: 0 <= j < i ==> !Reaches(Through(hist, j), total, p)
    {
      TargetReached(before + hist[i], total, p);
      before := before + hist[i];
      i := i + 1;
    }
    TargetReached(before + hist[i], total, p);
    Interpolated(before, hist[i], total, p);
    r := Some((i, (t - before as real) / hist[i] as real));
  }

  lemma Interpolated(before: nat, count: nat, n: nat, p: real)
    requires (before as real) < Target(n, p) <= (before + count) as real
    ensures count > 0
    ensures var f := (Target(n, p) - before as real) / count as real;
            0.0 < f <= 1.0 && 100.0 * (before as real + f * count as real) == p * n as real
  {
    hide Target;
    FractionBounds(Target(n, p) - before as real, count);
    TargetReached(0, n, p);
  }

  lemma FractionBounds(need: real, count: nat)
    requires 0.0 < need <= count as real
    ensures count > 0 && 0.0 < need / count as real <= 1.0 && need / count as real * count as real == need
  {
  }

  /** A higher percentile never selects a lower bin. */
  lemma PercentilesMonotone(hist: seq<nat>, p: real, q: real, i: nat, j: nat)
    requires 0.0 < p <= q <= 100.0 && Selects(hist, p, i) && Selects(hist, q, j)
    ensures i <= j
  {
    hide Cumulative;
    var n := Cumulative(hist, |hist|) as real;
    ScaleMonotone(n, p, q);
    assert p * n == n * p && q * n == n * q;
  }

  lemma ScaleMonotone(t: real, x: real, y: real)
    requires t >= 0.0 && x <= y
    ensures t * x <= t * y
  {
  }

  /** hist is the histogram of the samples. */
  ghost predicate Counts(edges: seq<real>, samples: seq<int>, hist: seq<nat>)
    requires WfEdges(edges)
  {
    |hist| == BINS && forall i :: 0 <= i < BINS ==> Through(hist, i) == Count(samples, InBins(edges, i))
  }

  /** Every percentage of some samples rounds up to one rank among them. */
  lemma RankExists(n: nat, p: real) returns (k: int)
    requires n > 0 && 0.0 < p <= 100.0
    ensures 1 <= k <= n && 100.0 * (k as real - 1.0) < p * n as real <= 100.0 * k as real
  {
    var t := Target(n, p);
    TargetReached(0, n, p);
    TargetBounds(n, p);
    k := if t == t.Floor as real then t.Floor else t.Floor + 1;
  }

  /** x is the k-th smallest sample: fewer than k are below it, at least k are at most it. */
  ghost predicate KthSmallest(samples: seq<int>, k: int, x: int) {
    x in samples && Count(samples, Below(x)) < k <= Count(samples, AtMost(x))
  }

  lemma {:induction false} CountAll(s: seq<int>, f: int -> bool)
    requires forall x :: f(x)
    ensures Count(s, f) == |s|
  {
    if s != [] { CountAll(s[..|s| - 1], f); }
  }

  lemma {:induction false} LargestBelow(s: seq<int>, x: int) returns (y: int)
    requires Count(s, Below(x)) > 0
    ensures y in s && y < x && forall z <- s :: z < x ==> z <= y
  {
    var n := |s| - 1;
    var last := s[n];
    assert forall z <- s :: z in s[..n] || z == last;
    if Count(s[..n], Below(x)) > 0 {
      y := LargestBelow(s[..n], x);
      if y < last < x { y := last; }
    } else {
      y := last;
      forall z <- s[..n] ensures z >= x {
        NoneBelow(s[..n], x, z);
      }
    }
  }

  lemma {:induction false} NoneBelow(s: seq<int>, x: int, z: int)
    requires Count(s, Below(x)) == 0 && z in s
    ensures z >= x
  {
    if z != s[|s| - 1] { NoneBelow(s[..|s| - 1], x, z); }
  }

  lemma {:induction false} BoundOf(s: seq<int>) returns (m: int)
    ensures forall z <- s :: z < m
  {
    if s == [] {
      m := 0;
    } else {
      m := BoundOf(s[..|s| - 1]);
      var last := s[|s| - 1];
      assert forall z <- s :: z in s[..|s| - 1] || z == last;
      if m <= last { m := last + 1; }
    }
  }

  /** Every rank from 1 to n has its sample. */
  lemma KthExists(s: seq<int>, k: int) returns (x: int)
    requires 1 <= k <= |s|
    ensures KthSmallest(s, k, x)
  {
    var m := BoundOf(s);
    CountMonotone(s, All(), Below(m));
    CountAll(s, All());
    x := LargestBelow(s, m);
    CountMonotone(s, Below(m), AtMost(x));
    while Count(s, Below(x)) >= k
      invariant x in s && Count(s, AtMost(x)) >= k
      decreases Count(s, Below(x))
    {
      var y := LargestBelow(s, x);
      CountMonotone(s, Below(x), AtMost(y));
      Fewer(s, x, y);
      x := y;
    }
  }

  ghost function All(): (f: int -> bool) { x => true }

  lemma {:induction false} Fewer(s: seq<int>, x: int, y: int)
    requires y in s && y < x
    ensures Count(s, Below(y)) < Count(s, Below(x))
  {
    var n := |s| - 1;
    assert s == s[..n] + [s[n]];
    CountMonotone(s[..n], Below(y), Below(x));
    if y in s[..n] { Fewer(s[..n], x, y); }
  }

  /** The selected bin is the bin of the k-th smallest of n samples, k being p percent of n, rounded up. */
  lemma PercentileIsOrderStatistic(edges: seq<real>, samples: seq<int>, hist: seq<nat>, p: real, i: nat, k: int, x: int)
    requires WfEdges(edges) && Counts(edges, samples, hist) && 0.0 < p <= 100.0
    requires Selects(hist, p, i) && KthSmallest(samples, k, x)
    requires 100.0 * (k as real - 1.0) < p * |samples| as real <= 100.0 * k as real
    ensures i == BinOf(edges, x)
  {
    hide BinOf, Cumulative, WfEdges, Count, Reaches;
    var b := BinOf(edges, x);
    CountAll(samples, InBins(edges, BINS - 1));
    assert Through(hist, BINS - 1) == |samples|;
    forall y <- samples ensures AtMost(x)(y) ==> InBins(edges, b)(y) {
      if y <= x { BinsMonotone(edges, y, x); }
    }
    CountMonotone(samples, AtMost(x), InBins(edges, b));
    assert Through(hist, b) >= k;
    forall j | 0 <= j < b ensures Through(hist, j) < k {
      forall y <- samples ensures InBins(edges, j)(y) ==> Below(x)(y) {
        if y >= x { BinsMonotone(edges, x, y); }
      }
      CountMonotone(samples, InBins(edges, j), Below(x));
    }
    RankReached(k, |samples|, p, Through(hist, b));
    if i < b {
      RankReached(k, |samples|, p, Through(hist, i));
    }
  }

  lemma RankReached(k: int, n: nat, p: real, c: nat)
    requires 100.0 * (k as real - 1.0) < p * n as real <= 100.0 * k as real
    ensures Reaches(c, n, p) <==> c >= k
  {
  }
}
