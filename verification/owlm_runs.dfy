/** Maximal runs of flagged positions, found as the source finds them: from the rising and falling
    edges of the flags padded with a zero on either side. */
module OwlmRuns {

  type Run = (nat, nat)

  /** a..b is flagged throughout and cannot be extended. */
  predicate IsRun(f: seq<bool>, a: nat, b: nat) {
    && a <= b < |f| && (forall i :: a <= i <= b ==> f[i])
    && (a == 0 || !f[a - 1]) && (b == |f| - 1 || !f[b + 1])
  }

  predicate Inside(r: Run, i: int) {
    r.0 <= i <= r.1
  }

  /** All maximal runs, in order. */
  ghost predicate AreRuns(f: seq<bool>, runs: seq<Run>) {
    && (forall k :: 0 <= k < |runs| ==> IsRun(f, runs[k].0, runs[k].1))
    && (forall k, m :: 0 <= k < m < |runs| ==> runs[k].1 < runs[m].0)
    && (forall i :: 0 <= i < |f| && f[i] ==> exists k :: 0 <= k < |runs| && Inside(runs[k], i))
  }

  /** Flagged from a up to, but not necessarily beyond, i. */
  predicate IsOpen(f: seq<bool>, a: nat, i: nat) {
    a < i <= |f| && (a == 0 || !f[a - 1]) && forall j :: a <= j < i ==> f[j]
  }

  ghost predicate Covered(starts: seq<nat>, ends: seq<nat>, j: int) {
    exists k :: 0 <= k < |ends| && k < |starts| && Inside((starts[k], ends[k]), j)
  }

  /** The edges before position i have been taken: every end closes a maximal run, and one more start
      is open if the last position is flagged. */
  ghost predicate Traced(f: seq<bool>, starts: seq<nat>, ends: seq<nat>, i: nat) {
    && i <= |f| + 1 && |starts| == |ends| + (if 0 < i <= |f| && f[i - 1] then 1 else 0)
    && (forall k :: 0 <= k < |ends| ==> IsRun(f, starts[k], ends[k]) && ends[k] + 1 < i)
    && (forall k, m :: 0 <= k < m < |starts| ==> ends[k] < starts[m])
    && (|starts| > |ends| ==> IsOpen(f, starts[|ends|], i))
    && (forall j :: 0 <= j < i && j < |f| && f[j] ==> Covered(starts, ends, j) || (|starts| > |ends| && starts[|ends|] <= j))
  }

  lemma RisingEdge(f: seq<bool>, starts: seq<nat>, ends: seq<nat>, i: nat)
    requires Traced(f, starts, ends, i) && i < |f| && f[i] && (i == 0 || !f[i - 1])
    ensures Traced(f, starts + [i], ends, i + 1)
  {
    forall j | 0 <= j < i && f[j] ensures Covered(starts + [i], ends, j) {
      var k :| 0 <= k < |ends| && k < |starts| && Inside((starts[k], ends[k]), j);
      assert (starts + [i])[k] == starts[k];
    }
  }

  lemma FallingEdge(f: seq<bool>, starts: seq<nat>, ends: seq<nat>, i: nat)
    requires Traced(f, starts, ends, i) && 0 < i <= |f| && f[i - 1] && (i == |f| || !f[i])
    ensures Traced(f, starts, ends + [i - 1], i + 1)
  {
    var n, ends' := |ends|, ends + [i - 1];
    forall j | 0 <= j < i && f[j] ensures Covered(starts, ends', j) {
      if Covered(starts, ends, j) {
        var k :| 0 <= k < |ends| && k < |starts| && Inside((starts[k], ends[k]), j);
        assert ends'[k] == ends[k] && Inside((starts[k], ends'[k]), j);
      } else {
        assert Inside((starts[n], ends'[n]), j);
      }
    }
  }

  lemma NoEdge(f: seq<bool>, starts: seq<nat>, ends: seq<nat>, i: nat)
    requires Traced(f, starts, ends, i) && i <= |f| && (i < |f| && f[i]) == (i > 0 && f[i - 1])
    ensures Traced(f, starts, ends, i + 1)
  {
  }

  /** zip of the rising edges with the falling ones. */
  method EdgeRuns(f: seq<bool>) returns (runs: seq<Run>)
    ensures AreRuns(f, runs)
  {
    var starts: seq<nat>, ends: seq<nat> := [], [];
    for i := 0 to |f| + 1
      invariant Traced(f, starts, ends, i)
    {
      hide Traced;
      var now := i < |f| && f[i];
      var before := i > 0 && f[i - 1];
      if now && !before {
        RisingEdge(f, starts, ends, i);
        starts := starts + [i];
      } else if before && !now {
        FallingEdge(f, starts, ends, i);
        ends := ends + [i - 1];
      } else {
        NoEdge(f, starts, ends, i);
      }
    }
    runs := seq(|starts|, k requires 0 <= k < |starts| => (starts[k], ends[k]));
    forall j | 0 <= j < |f| && f[j] ensures exists k :: 0 <= k < |runs| && Inside(runs[k], j) {
      assert Covered(starts, ends, j);
      var k :| 0 <= k < |ends| && k < |starts| && Inside((starts[k], ends[k]), j);
      assert Inside(runs[k], j);
    }
  }

  /** Two maximal runs that meet are the same run. */
  lemma RunsMeet(f: seq<bool>, a: nat, b: nat, c: nat, d: nat, i: int)
    requires IsRun(f, a, b) && IsRun(f, c, d) && a <= i <= b && c <= i <= d
    ensures a == c && b == d
  {
  }

  /** A maximal run is one of all of them. */
  lemma RunListed(f: seq<bool>, runs: seq<Run>, a: nat, b: nat)
    requires AreRuns(f, runs) && IsRun(f, a, b)
    ensures exists k :: 0 <= k < |runs| && runs[k] == (a, b)
  {
    assert f[a];
    var k :| 0 <= k < |runs| && Inside(runs[k], a);
    RunsMeet(f, a, b, runs[k].0, runs[k].1, a);
    assert runs[k] == (a, b);
  }

  // ---- there is one list of runs ----

  /** The maximal runs, one position at a time: a flagged position extends the run that ends just before it, or
      starts one. */
  function RunsOf(f: seq<bool>): (runs: seq<Run>) {
    if f == [] then [] else
      var n := |f| - 1;
      var before := RunsOf(f[..n]);
      if !f[n] then before
      else if before != [] && before[|before| - 1].1 + 1 == n then before[..|before| - 1] + [(before[|before| - 1].0, n)]
      else before + [(n, n)]
  }

  lemma RunKept(f: seq<bool>, a: nat, b: nat)
    requires f != [] && IsRun(f[..|f| - 1], a, b) && (b + 1 == |f| - 1 ==> !f[|f| - 1])
    ensures IsRun(f, a, b)
  {
    var g := f[..|f| - 1];
    assert forall i :: 0 <= i < |g| ==> g[i] == f[i];
  }

  /** Adding an unflagged position, or one apart from the last run, keeps the runs. */
  lemma UnflaggedStep(f: seq<bool>, runs: seq<Run>)
    requires f != [] && AreRuns(f[..|f| - 1], runs) && !f[|f| - 1]
    ensures AreRuns(f, runs)
  {
    var g := f[..|f| - 1];
    forall k | 0 <= k < |runs| ensures IsRun(f, runs[k].0, runs[k].1) {
      RunKept(f, runs[k].0, runs[k].1);
    }
    assert forall i :: 0 <= i < |g| ==> g[i] == f[i];
  }

  lemma StartedStep(f: seq<bool>, runs: seq<Run>)
    requires f != [] && AreRuns(f[..|f| - 1], runs) && f[|f| - 1]
    requires runs == [] || runs[|runs| - 1].1 + 1 != |f| - 1
    ensures AreRuns(f, runs + [(|f| - 1, |f| - 1)])
  {
    var g, n, r := f[..|f| - 1], |f| - 1, runs + [(|f| - 1, |f| - 1)];
    assert forall i :: 0 <= i < n ==> g[i] == f[i];
    forall k | 0 <= k < |runs| ensures IsRun(f, runs[k].0, runs[k].1) && runs[k].1 + 1 < n {
      assert IsRun(g, runs[k].0, runs[k].1);
      assert k < |runs| - 1 ==> runs[k].1 < runs[|runs| - 1].0 && IsRun(g, runs[|runs| - 1].0, runs[|runs| - 1].1);
      RunKept(f, runs[k].0, runs[k].1);
    }
    forall i | 0 <= i < |f| && f[i] ensures exists k :: 0 <= k < |r| && Inside(r[k], i) {
      if i < n {
        var k :| 0 <= k < |runs| && Inside(runs[k], i);
        assert r[k] == runs[k];
      } else {
        assert Inside(r[|runs|], i);
      }
    }
  }

  lemma ExtendedRun(f: seq<bool>, a: nat, b: nat)
    requires f != [] && IsRun(f[..|f| - 1], a, b) && b + 1 == |f| - 1 && f[|f| - 1]
    ensures IsRun(f, a, b + 1)
  {
    var g := f[..|f| - 1];
    assert forall i :: 0 <= i < |g| ==> g[i] == f[i];
  }

  lemma ExtendedCovers(f: seq<bool>, runs: seq<Run>, r: seq<Run>, i: nat)
    requires f != [] && AreRuns(f[..|f| - 1], runs) && i < |f| && f[i] && runs != [] && |r| == |runs|
    requires (forall k :: 0 <= k < |runs| - 1 ==> r[k] == runs[k]) && r[|r| - 1] == (runs[|runs| - 1].0, |f| - 1)
    requires runs[|runs| - 1].0 <= |f| - 1
    ensures exists k :: 0 <= k < |r| && Inside(r[k], i)
  {
    var g := f[..|f| - 1];
    if i < |g| {
      assert g[i];
      var k :| 0 <= k < |runs| && Inside(runs[k], i);
      assert IsRun(g, runs[k].0, runs[k].1);
      assert Inside(r[k], i);
    } else {
      assert Inside(r[|r| - 1], i);
    }
  }

  lemma ExtendedStep(f: seq<bool>, runs: seq<Run>)
    requires f != [] && AreRuns(f[..|f| - 1], runs) && f[|f| - 1] && runs != [] && runs[|runs| - 1].1 + 1 == |f| - 1
    ensures AreRuns(f, runs[..|runs| - 1] + [(runs[|runs| - 1].0, |f| - 1)])
  {
    hide IsRun;
    var g, n, m := f[..|f| - 1], |f| - 1, |runs| - 1;
    var r := runs[..m] + [(runs[m].0, n)];
    RunsGoForward(g, runs, m);
    forall k | 0 <= k < |r| ensures IsRun(f, r[k].0, r[k].1) {
      RunsGoForward(g, runs, k);
      if k < m {
        RunKept(f, runs[k].0, runs[k].1);
      } else {
        ExtendedRun(f, runs[m].0, runs[m].1);
      }
    }
    forall i | 0 <= i < |f| && f[i] ensures exists k :: 0 <= k < |r| && Inside(r[k], i) {
      ExtendedCovers(f, runs, r, i);
    }
  }

  lemma RunsGoForward(f: seq<bool>, runs: seq<Run>, k: nat)
    requires AreRuns(f, runs) && k < |runs|
    ensures IsRun(f, runs[k].0, runs[k].1) && runs[k].0 <= runs[k].1 < |f|
  {
  }

  lemma {:induction false} RunsOfAreRuns(f: seq<bool>)
    ensures AreRuns(f, RunsOf(f))
  {
    hide AreRuns;
    if f == [] {
      NoRuns();
    } else {
      var n := |f| - 1;
      var before := RunsOf(f[..n]);
      RunsOfAreRuns(f[..n]);
      if !f[n] {
        UnflaggedStep(f, before);
      } else if before != [] && before[|before| - 1].1 + 1 == n {
        ExtendedStep(f, before);
      } else {
        StartedStep(f, before);
      }
    }
  }

  lemma NoRuns()
    ensures AreRuns([], [])
  {
  }

  predicate InOrderRuns(runs: seq<Run>) {
    && (forall k :: 0 <= k < |runs| ==> runs[k].0 <= runs[k].1)
    && (forall k, m :: 0 <= k < m < |runs| ==> runs[k].1 < runs[m].0)
  }

  lemma LastIsGreatest(a: seq<Run>, r: Run)
    requires InOrderRuns(a) && r in a
    ensures r.0 <= r.1 && (r == a[|a| - 1] || r.1 < a[|a| - 1].0)
  {
    var k :| 0 <= k < |a| && a[k] == r;
  }

  lemma SameLast(a: seq<Run>, b: seq<Run>)
    requires InOrderRuns(a) && InOrderRuns(b) && a != [] && b != [] && a[|a| - 1] in b && b[|b| - 1] in a
    ensures a[|a| - 1] == b[|b| - 1]
  {
    LastIsGreatest(b, a[|a| - 1]);
    LastIsGreatest(a, b[|b| - 1]);
  }

  lemma WithoutLast(a: seq<Run>, r: Run)
    requires InOrderRuns(a) && a != []
    ensures InOrderRuns(a[..|a| - 1]) && (r in a[..|a| - 1] <==> r in a && r != a[|a| - 1])
  {
    var m := |a| - 1;
    assert forall k :: 0 <= k < m ==> a[..m][k] == a[k];
    if r in a && r != a[m] {
      var k :| 0 <= k < |a| && a[k] == r;
      assert a[..m][k] == r;
    }
  }

  lemma {:induction false} SameRunsSameList(a: seq<Run>, b: seq<Run>)
    requires InOrderRuns(a) && InOrderRuns(b) && forall r :: r in a <==> r in b
    ensures a == b
  {
    hide InOrderRuns;
    assert a != [] ==> a[0] in b;
    assert b != [] ==> b[0] in a;
    if a != [] && b != [] {
      var m, n := |a| - 1, |b| - 1;
      assert a[m] in b && b[n] in a;
      SameLast(a, b);
      forall r ensures r in a[..m] <==> r in b[..n] {
        WithoutLast(a, r);
        WithoutLast(b, r);
      }
      WithoutLast(a, a[m]);
      WithoutLast(b, b[n]);
      SameRunsSameList(a[..m], b[..n]);
      assert a == a[..m] + [a[m]] && b == b[..n] + [b[n]];
    }
  }

  /** Maximal runs in order: there is only one such list. */
  lemma RunsUnique(f: seq<bool>, runs: seq<Run>)
    requires AreRuns(f, runs)
    ensures runs == RunsOf(f)
  {
    hide RunsOf;
    RunsOfAreRuns(f);
    var other := RunsOf(f);
    forall r ensures r in runs <==> r in other {
      if r in runs {
        var k :| 0 <= k < |runs| && runs[k] == r;
        assert IsRun(f, r.0, r.1);
        RunListed(f, other, r.0, r.1);
      }
      if r in other {
        var k :| 0 <= k < |other| && other[k] == r;
        assert IsRun(f, r.0, r.1);
        RunListed(f, runs, r.0, r.1);
      }
    }
    assert forall k :: 0 <= k < |runs| ==> IsRun(f, runs[k].0, runs[k].1);
    assert forall k :: 0 <= k < |other| ==> IsRun(f, other[k].0, other[k].1);
    SameRunsSameList(runs, other);
  }

  // ---- counting ----

  function CountTrue(f: seq<bool>): (n: nat) {
    if f == [] then 0 else CountTrue(f[..|f| - 1]) + (if f[|f| - 1] then 1 else 0)
  }

  lemma {:induction false} CountStretch(f: seq<bool>, lo: nat, hi: nat, flag: bool)
    requires lo <= hi <= |f| && forall i :: lo <= i < hi ==> f[i] == flag
    ensures CountTrue(f[..hi]) == CountTrue(f[..lo]) + (if flag then hi - lo else 0)
  {
    if lo < hi {
      CountStretch(f, lo, hi - 1, flag);
      assert f[..hi][..hi - 1] == f[..hi - 1];
    }
  }

  function Length(r: Run): (n: int) {
    r.1 + 1 - r.0
  }

  /** The total length of the first n runs that are kept. */
  ghost function KeptLength(runs: seq<Run>, keep: Run -> bool, n: nat): (t: int)
    requires n <= |runs|
  {
    if n == 0 then 0 else
      KeptLength(runs, keep, n - 1) + (if keep(runs[n - 1]) then Length(runs[n - 1]) else 0)
  }

  /** g flags exactly the positions of kept runs. */
  ghost predicate FlagsKept(g: seq<bool>, runs: seq<Run>, keep: Run -> bool) {
    forall i :: 0 <= i < |g| ==> (g[i] <==> exists k :: 0 <= k < |runs| && keep(runs[k]) && Inside(runs[k], i))
  }

  lemma {:induction false} KeptSoFar(f: seq<bool>, g: seq<bool>, runs: seq<Run>, keep: Run -> bool, n: nat)
    requires AreRuns(f, runs) && |g| == |f| && FlagsKept(g, runs, keep) && n <= |runs|
    ensures Stop(runs, n) <= |g| && KeptLength(runs, keep, n) == CountTrue(g[..Stop(runs, n)])
  {
    hide AreRuns, FlagsKept;
    if n > 0 {
      KeptSoFar(f, g, runs, keep, n - 1);
      KeptStep(f, g, runs, keep, n - 1);
    }
  }

  /** Right after the first n runs. */
  function Stop(runs: seq<Run>, n: nat): (p: nat)
    requires n <= |runs|
  {
    if n == 0 then 0 else runs[n - 1].1 + 1
  }

  lemma KeptStep(f: seq<bool>, g: seq<bool>, runs: seq<Run>, keep: Run -> bool, n: nat)
    requires AreRuns(f, runs) && |g| == |f| && FlagsKept(g, runs, keep) && n < |runs| && Stop(runs, n) <= |g|
    ensures Stop(runs, n + 1) <= |g|
    ensures CountTrue(g[..Stop(runs, n + 1)]) == CountTrue(g[..Stop(runs, n)]) + (if keep(runs[n]) then Length(runs[n]) else 0)
  {
    hide CountTrue;
    var from, r := Stop(runs, n), runs[n];
    assert IsRun(f, r.0, r.1) && from <= r.0;
    forall i | from <= i < r.0 ensures g[i] == false {
      BetweenRuns(f, runs, n, i);
    }
    CountStretch(g, from, r.0, false);
    forall i | r.0 <= i < r.1 + 1 ensures g[i] == keep(r) {
      assert Inside(r, i);
      OnlyRunHere(f, runs, n, i);
    }
    CountStretch(g, r.0, r.1 + 1, keep(r));
  }

  lemma BetweenRuns(f: seq<bool>, runs: seq<Run>, n: nat, i: int)
    requires AreRuns(f, runs) && n < |runs| && (if n == 0 then 0 else runs[n - 1].1 + 1) <= i < runs[n].0
    ensures forall k :: 0 <= k < |runs| ==> !Inside(runs[k], i)
  {
    forall k | 0 <= k < |runs| ensures !Inside(runs[k], i) {
      assert k > n ==> runs[n].1 < runs[k].0;
      assert k < n - 1 ==> runs[k].1 < runs[n - 1].0;
      assert IsRun(f, runs[n].0, runs[n].1);
      assert n > 0 ==> IsRun(f, runs[n - 1].0, runs[n - 1].1);
    }
  }

  lemma OnlyRunHere(f: seq<bool>, runs: seq<Run>, n: nat, i: int)
    requires AreRuns(f, runs) && n < |runs| && Inside(runs[n], i)
    ensures forall k :: 0 <= k < |runs| && Inside(runs[k], i) ==> k == n
  {
  }

  lemma AfterRuns(f: seq<bool>, runs: seq<Run>, i: int)
    requires AreRuns(f, runs) && Stop(runs, |runs|) <= i
    ensures forall k :: 0 <= k < |runs| ==> !Inside(runs[k], i)
  {
    var n := |runs|;
    forall k | 0 <= k < n ensures !Inside(runs[k], i) {
      assert k < n - 1 ==> runs[k].1 < runs[n - 1].0;
      assert IsRun(f, runs[n - 1].0, runs[n - 1].1);
    }
  }

  /** The kept runs together are as long as their positions are many. */
  lemma KeptCounted(f: seq<bool>, g: seq<bool>, runs: seq<Run>, keep: Run -> bool)
    requires AreRuns(f, runs) && |g| == |f| && FlagsKept(g, runs, keep)
    ensures KeptLength(runs, keep, |runs|) == CountTrue(g)
  {
    hide AreRuns, CountTrue, KeptLength;
    var n := |runs|;
    KeptSoFar(f, g, runs, keep, n);
    var stop := Stop(runs, n);
    forall i | stop <= i < |g| ensures g[i] == false {
      AfterRuns(f, runs, i);
    }
    CountStretch(g, stop, |g|, false);
    assert g[..|g|] == g;
  }
}
