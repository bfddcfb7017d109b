/** Loss from the per-sequence arrays of one sender: the classifier of the summary, and the
    independent grouping of losses into bursts. */
module OwlmLoss {
  import opened Wire
  import opened OwlmAggregate
  import opened OwlmRuns

  /** The arrays of one sender over its span of sequence numbers: least latency of primary and of
      redundant copies, first receive time; INT64_MAX where there is none. */
  datatype Track = Track(primary: seq<int>, redundant: seq<int>, rx: seq<int>)

  predicate Even(t: Track) {
    |t.primary| == |t.redundant| == |t.rx|
  }

  /** A sequence number without a receive time has no copy of either kind. */
  predicate WfTrack(t: Track) {
    && Even(t)
    && forall i :: 0 <= i < |t.rx| && t.rx[i] == INT64_MAX ==> t.primary[i] == INT64_MAX && t.redundant[i] == INT64_MAX
  }

  // ---- from partial results to arrays ----

  /** The least value listed for the i-th number of the span. */
  ghost function LeastAt(es: seq<Entry>, minSeq: int, i: int): (m: int) {
    MinOf(es, minSeq + i)
  }

  lemma LeastAtAppend(es: seq<Entry>, e: Entry, minSeq: int, i: int)
    ensures LeastAt([], minSeq, i) == INT64_MAX
    ensures LeastAt(es + [e], minSeq, i) == if e.0 == minSeq + i then Min(LeastAt(es, minSeq, i), e.1) else LeastAt(es, minSeq, i)
  {
    MinOfAppend(es, e, minSeq + i);
  }

  /** np.minimum.at over a sparse list: the values scattered, the least kept. */
  method Materialize(es: seq<Entry>, minSeq: int, span: nat) returns (a: array<int>)
    ensures fresh(a) && a.Length == span && forall i :: 0 <= i < span ==> a[i] == LeastAt(es, minSeq, i)
  {
    hide LeastAt;
    a := new int[span](i => INT64_MAX);
    forall i ensures LeastAt([], minSeq, i) == INT64_MAX {
      LeastAtAppend([], (0, 0), minSeq, i);
    }
    assert es[..0] == [];
    for n := 0 to |es|
      invariant forall i :: 0 <= i < span ==> a[i] == LeastAt(es[..n], minSeq, i)
    {
      assert es[..n + 1] == es[..n] + [es[n]];
      forall i ensures LeastAt(es[..n + 1], minSeq, i) ==
                         if es[n].0 == minSeq + i then Min(LeastAt(es[..n], minSeq, i), es[n].1) else LeastAt(es[..n], minSeq, i) {
        LeastAtAppend(es[..n], es[n], minSeq, i);
      }
      var i := es[n].0 - minSeq;
      if 0 <= i < span {
        a[i] := Min(a[i], es[n].1);
      }
    }
    assert es[..|es|] == es;
  }

  ghost function Column(es: seq<Entry>, minSeq: int, span: nat): (c: seq<int>)
    ensures |c| == span
  {
    seq(span, i requires 0 <= i < span => LeastAt(es, minSeq, i))
  }

  // ---- the span of a sender ----

  ghost function LeastSeq(es: seq<Entry>): (s: int)
    requires es != []
    ensures Listed(es, s) && forall i :: 0 <= i < |es| ==> s <= es[i].0
  {
    var n := |es| - 1;
    if n == 0 then assert es[0].0 == es[n].0; es[0].0 else
      var init := es[..n];
      var m := LeastSeq(init);
      assert forall i :: 0 <= i < n ==> init[i] == es[i];
      if es[n].0 < m then es[n].0 else m
  }

  ghost function GreatestSeq(es: seq<Entry>): (s: int)
    requires es != []
    ensures Listed(es, s) && forall i :: 0 <= i < |es| ==> es[i].0 <= s
  {
    var n := |es| - 1;
    if n == 0 then assert es[0].0 == es[n].0; es[0].0 else
      var init := es[..n];
      var m := GreatestSeq(init);
      assert forall i :: 0 <= i < n ==> init[i] == es[i];
      if es[n].0 > m then es[n].0 else m
  }

  /** The least and the greatest sequence number listed. */
  ghost function SpanOf(es: seq<Entry>): (r: Option<(int, int)>)
    ensures r.Some? ==> r.value.0 <= r.value.1
  {
    if es == [] then None else
      assert LeastSeq(es) <= es[0].0 <= GreatestSeq(es);
      Some((LeastSeq(es), GreatestSeq(es)))
  }

  /** The span depends only on which numbers are listed. */
  lemma SameSpan(a: seq<Entry>, b: seq<Entry>)
    requires SameEntries(a, b)
    ensures SpanOf(a) == SpanOf(b)
  {
    hide MinOf, LeastSeq, GreatestSeq;
    if a != [] {
      assert Listed(a, LeastSeq(a)) && Listed(a, GreatestSeq(a));
      assert Listed(b, LeastSeq(a)) && Listed(b, GreatestSeq(a));
    }
    if b != [] {
      assert Listed(b, LeastSeq(b)) && Listed(b, GreatestSeq(b));
      assert Listed(a, LeastSeq(b)) && Listed(a, GreatestSeq(b));
    }
  }

  /** min() and max() over the sequence numbers of a merged list. */
  method FindSpan(es: seq<Entry>) returns (r: Option<(int, int)>)
    ensures r == SpanOf(es)
  {
    hide Listed;
    if es == [] {
      return None;
    }
    var lo, hi := es[0].0, es[0].0;
    for n := 1 to |es|
      invariant lo == LeastSeq(es[..n]) && hi == GreatestSeq(es[..n])
    {
      assert es[..n + 1][..n] == es[..n];
      if es[n].0 < lo {
        lo := es[n].0;
      }
      if es[n].0 > hi {
        hi := es[n].0;
      }
    }
    assert es[..|es|] == es;
    return Some((lo, hi));
  }

  /** The arrays of a sender from its three lists: over the span of its first arrivals; none without any. */
  ghost function TrackIn(first: seq<Entry>, primary: seq<Entry>, redundant: seq<Entry>): (r: Option<(int, Track)>)
    ensures r.Some? ==> Even(r.value.1) && r.value.1.rx != []
  {
    match SpanOf(first)
    case None => None
    case Some((lo, hi)) =>
      Some((lo, Track(Column(primary, lo, hi - lo + 1), Column(redundant, lo, hi - lo + 1), Column(first, lo, hi - lo + 1))))
  }

  /** Lists that mean the same give the same arrays. */
  lemma SameTrack(f: seq<Entry>, p: seq<Entry>, r: seq<Entry>, f': seq<Entry>, p': seq<Entry>, r': seq<Entry>)
    requires SameEntries(f, f') && SameEntries(p, p') && SameEntries(r, r')
    ensures TrackIn(f, p, r) == TrackIn(f', p', r')
  {
    hide MinOf, Listed, SpanOf;
    SameSpan(f, f');
    var span := SpanOf(f);
    if span.Some? {
      var lo, n := span.value.0, span.value.1 - span.value.0 + 1;
      assert Column(f, lo, n) == Column(f', lo, n);
      assert Column(p, lo, n) == Column(p', lo, n);
      assert Column(r, lo, n) == Column(r', lo, n);
    }
  }

  /** What the rows say about a sender. */
  ghost function TrackOf(rows: seq<Row>, pair: nat): (r: Option<(int, Track)>)
    ensures r.Some? ==> Even(r.value.1) && r.value.1.rx != []
  {
    TrackIn(EntriesOf(FirstRx, rows, pair), EntriesOf(PrimaryLat, rows, pair), EntriesOf(RedundantLat, rows, pair))
  }

  /** However the rows were split over workers and chunks, the span and the arrays are those of the rows. */
  method TrackFrom(w: Window, p: Partial, ghost rows: seq<Row>, pair: nat) returns (r: Option<(int, Track)>)
    requires WfWindow(w) && p.Represents(w, rows)
    ensures r == TrackOf(rows, pair)
  {
    hide SameEntries, EntriesOf, BucketsOf, SpanOf, LeastAt;
    SameTrack(Get(p.first, pair), Get(p.primary, pair), Get(p.redundant, pair),
              EntriesOf(FirstRx, rows, pair), EntriesOf(PrimaryLat, rows, pair), EntriesOf(RedundantLat, rows, pair));
    var span := FindSpan(Get(p.first, pair));
    if span.None? {
      return None;
    }
    var lo, n := span.value.0, span.value.1 - span.value.0 + 1;
    var a := Materialize(Get(p.primary, pair), lo, n);
    var b := Materialize(Get(p.redundant, pair), lo, n);
    var c := Materialize(Get(p.first, pair), lo, n);
    assert a[..] == Column(Get(p.primary, pair), lo, n);
    assert b[..] == Column(Get(p.redundant, pair), lo, n);
    assert c[..] == Column(Get(p.first, pair), lo, n);
    r := Some((lo, Track(a[..], b[..], c[..])));
  }

  lemma {:induction false} UnseenHasNothing(k: List, rows: seq<Row>, pair: nat, s: int)
    requires (forall r <- rows :: r.rx < INT64_MAX) && MinOf(EntriesOf(FirstRx, rows, pair), s) == INT64_MAX
    ensures MinOf(EntriesOf(k, rows, pair), s) == INT64_MAX
  {
    hide PairOf;
    if rows != [] {
      var n := |rows| - 1;
      assert rows[n] in rows && forall r <- rows[..n] :: r in rows;
      var es, r := EntriesOf(FirstRx, rows[..n], pair), rows[n];
      if Remote(r) && PairOf(r.sender) == pair {
        MinOfAppend(es, (r.sequence, r.rx), s);
      }
      UnseenHasNothing(k, rows[..n], pair, s);
      if Feeds(k, r) && PairOf(r.sender) == pair {
        MinOfAppend(EntriesOf(k, rows[..n], pair), (r.sequence, ValueFor(k, r)), s);
      }
    }
  }

  lemma TracksWellFormed(rows: seq<Row>, pair: nat)
    requires (forall r <- rows :: r.rx < INT64_MAX) && TrackOf(rows, pair).Some?
    ensures WfTrack(TrackOf(rows, pair).value.1)
  {
    hide MinOf, EntriesOf, SpanOf;
    var lo, t := TrackOf(rows, pair).value.0, TrackOf(rows, pair).value.1;
    forall i | 0 <= i < |t.rx| && t.rx[i] == INT64_MAX ensures t.primary[i] == INT64_MAX && t.redundant[i] == INT64_MAX {
      UnseenHasNothing(PrimaryLat, rows, pair, lo + i);
      UnseenHasNothing(RedundantLat, rows, pair, lo + i);
    }
  }

  lemma {:induction false} ListedIsSeen(rows: seq<Row>, pair: nat, s: int)
    requires (forall r <- rows :: r.rx < INT64_MAX) && Listed(EntriesOf(FirstRx, rows, pair), s)
    ensures MinOf(EntriesOf(FirstRx, rows, pair), s) < INT64_MAX
  {
    hide PairOf;
    var n := |rows| - 1;
    var es, r := EntriesOf(FirstRx, rows[..n], pair), rows[n];
    assert r in rows && forall x <- rows[..n] :: x in rows;
    if Remote(r) && PairOf(r.sender) == pair {
      var e := (r.sequence, r.rx);
      MinOfAppend(es, e, s);
      ListedJoin(es, [e], s);
      if e.0 != s {
        assert Listed(es, s);
        ListedIsSeen(rows[..n], pair, s);
      }
    } else {
      ListedIsSeen(rows[..n], pair, s);
    }
  }

  /** The span is as wide as it has to be: its first and its last number were seen. */
  lemma SpanEndsAreSeen(rows: seq<Row>, pair: nat)
    requires (forall r <- rows :: r.rx < INT64_MAX) && TrackOf(rows, pair).Some?
    ensures var t := TrackOf(rows, pair).value.1; t.rx[0] != INT64_MAX && t.rx[|t.rx| - 1] != INT64_MAX
  {
    hide MinOf, EntriesOf, Listed, LeastSeq, GreatestSeq;
    var es := EntriesOf(FirstRx, rows, pair);
    ListedIsSeen(rows, pair, LeastSeq(es));
    ListedIsSeen(rows, pair, GreatestSeq(es));
  }

  // ---- flags ----

  function Unseen(t: Track): (f: seq<bool>)
    ensures |f| == |t.rx|
  {
    seq(|t.rx|, i requires 0 <= i < |t.rx| => t.rx[i] == INT64_MAX)
  }

  /** No copy arrived in time. */
  function Dropped(t: Track, wcl: int): (f: seq<bool>)
    requires Even(t)
    ensures |f| == |t.rx|
  {
    seq(|t.rx|, i requires 0 <= i < |t.rx| => t.primary[i] > wcl && t.redundant[i] > wcl)
  }

  /** A hole with a packet on either side, the later of which came no later than the earlier: a
      discontinuity of the stream, not an outage. */
  predicate Backward(rx: seq<int>, a: nat, b: nat) {
    0 < a <= b < |rx| - 1 && rx[b + 1] <= rx[a - 1]
  }

  ghost predicate Masked(t: Track, i: int) {
    exists a: nat, b: nat :: IsRun(Unseen(t), a, b) && a <= i <= b && Backward(t.rx, a, b)
  }

  ghost predicate Skipped(t: Track, wcl: int, i: int)
    requires Even(t)
  {
    exists a: nat, b: nat :: IsRun(Dropped(t, wcl), a, b) && a <= i <= b && Backward(t.rx, a, b)
  }

  /** _discontinuity_unseen_mask. */
  method DiscontinuityMask(t: Track) returns (mask: array<bool>)
    ensures fresh(mask) && mask.Length == |t.rx| && forall i :: 0 <= i < |t.rx| ==> (mask[i] <==> Masked(t, i))
  {
    var f := Unseen(t);
    var runs := EdgeRuns(f);
    mask := new bool[|t.rx|](i => false);
    for n := 0 to |runs|
      invariant forall i :: 0 <= i < |t.rx| ==> (mask[i] <==> MaskedBy(t.rx, runs[..n], i))
    {
      var a, b := runs[n].0, runs[n].1;
      ghost var before := mask[..];
      assert IsRun(f, a, b);
      if Backward(t.rx, a, b) {
        for j := a to b + 1
          invariant forall i :: 0 <= i < |t.rx| ==> mask[i] == (before[i] || a <= i < j)
        {
          mask[j] := true;
        }
      }
      assert forall i :: 0 <= i < |t.rx| ==> mask[i] == (before[i] || (Backward(t.rx, a, b) && a <= i <= b));
      forall i | 0 <= i < |t.rx| ensures mask[i] <==> MaskedBy(t.rx, runs[..n + 1], i) {
        MaskedByOneMore(t.rx, runs, n, i);
      }
    }
    forall i | 0 <= i < |t.rx| ensures mask[i] <==> Masked(t, i) {
      MaskedByAll(t, runs, i);
    }
  }

  ghost predicate MaskedBy(rx: seq<int>, runs: seq<Run>, i: int) {
    exists k :: 0 <= k < |runs| && Inside(runs[k], i) && Backward(rx, runs[k].0, runs[k].1)
  }

  lemma MaskedByOneMore(rx: seq<int>, runs: seq<Run>, n: nat, i: int)
    requires n < |runs|
    ensures MaskedBy(rx, runs[..n + 1], i) <==> MaskedBy(rx, runs[..n], i) || (Inside(runs[n], i) && Backward(rx, runs[n].0, runs[n].1))
  {
    var longer := runs[..n + 1];
    assert longer[n] == runs[n] && forall k :: 0 <= k < n ==> longer[k] == runs[..n][k];
  }

  lemma MaskedByAll(t: Track, runs: seq<Run>, i: int)
    requires AreRuns(Unseen(t), runs)
    ensures MaskedBy(t.rx, runs[..|runs|], i) <==> Masked(t, i)
  {
    assert runs[..|runs|] == runs;
    if MaskedBy(t.rx, runs, i) {
      var k :| 0 <= k < |runs| && Inside(runs[k], i) && Backward(t.rx, runs[k].0, runs[k].1);
      assert IsRun(Unseen(t), runs[k].0, runs[k].1);
    }
    if Masked(t, i) {
      var a: nat, b: nat :| IsRun(Unseen(t), a, b) && a <= i <= b && Backward(t.rx, a, b);
      RunListed(Unseen(t), runs, a, b);
    }
  }

  // ---- the classifier ----

  predicate PrimaryInTime(t: Track, wcl: int, i: nat)
    requires Even(t) && i < |t.rx|
  {
    t.primary[i] <= wcl
  }

  predicate Recovered(t: Track, wcl: int, i: nat)
    requires Even(t) && i < |t.rx|
  {
    t.primary[i] > wcl && t.redundant[i] <= wcl
  }

  ghost predicate TrueLoss(t: Track, wcl: int, i: nat)
    requires Even(t) && i < |t.rx|
  {
    t.primary[i] > wcl && t.redundant[i] > wcl && !Masked(t, i)
  }

  predicate AnySeen(t: Track) {
    exists i :: 0 <= i < |t.rx| && t.rx[i] != INT64_MAX
  }

  ghost function RecoveredFlags(t: Track, wcl: int): (f: seq<bool>)
    requires Even(t)
  {
    seq(|t.rx|, i requires 0 <= i < |t.rx| => AnySeen(t) && Recovered(t, wcl, i))
  }

  ghost function CountedLosses(t: Track, wcl: int): (f: seq<bool>)
    requires Even(t)
  {
    seq(|t.rx|, i requires 0 <= i < |t.rx| => AnySeen(t) && TrueLoss(t, wcl, i))
  }

  /** _derive_recovered_true_loss for one sender, up to the placing of the counts in buckets: nothing is counted of a
      sender of which nothing was seen. */
  method Classify(t: Track, wcl: int) returns (recovered: seq<bool>, lost: seq<bool>)
    requires Even(t)
    ensures recovered == RecoveredFlags(t, wcl) && lost == CountedLosses(t, wcl)
  {
    hide Masked;
    recovered, lost := [], [];
    if forall i :: 0 <= i < |t.rx| ==> t.rx[i] == INT64_MAX {
      recovered := seq(|t.rx|, i => false);
      lost := recovered;
      return;
    }
    var mask := DiscontinuityMask(t);
    for n := 0 to |t.rx|
      invariant |recovered| == |lost| == n
      invariant forall i :: 0 <= i < n ==> (recovered[i] <==> Recovered(t, wcl, i)) && (lost[i] <==> TrueLoss(t, wcl, i))
    {
      recovered := recovered + [t.primary[n] > wcl && t.redundant[n] <= wcl];
      lost := lost + [t.primary[n] > wcl && t.redundant[n] > wcl && !mask[n]];
    }
  }

  // ---- placing counts ----

  /** How many of the flagged numbers lie in bucket b, by their times. */
  ghost function InBucket(w: Window, flags: seq<bool>, times: seq<int>, b: int): (n: nat)
    requires WfWindow(w) && |flags| == |times|
  {
    if flags == [] then 0 else
      var n := |flags| - 1;
      InBucket(w, flags[..n], times[..n], b)
      + if flags[n] && w.t0 + b * w.bucketNs <= times[n] < w.t0 + (b + 1) * w.bucketNs then 1 else 0
  }

  /** Dividing by a bucket's width is finding the bucket. */
  lemma WholeQuotient(x: int, n: nat, i: int)
    requires n > 0
    ensures i * n <= x < (i + 1) * n <==> i == x / n
  {
    var q := x / n;
    assert x == n * q + x % n;
    assert q * n <= x < (q + 1) * n;
    if i < q {
      assert (i + 1) * n <= q * n;
    } else if i > q {
      assert (q + 1) * n <= i * n;
    }
  }

  /** The scatter-add of flagged numbers into buckets; times outside the window are dropped. */
  method Place(w: Window, flags: seq<bool>, times: seq<int>) returns (counts: seq<nat>)
    requires WfWindow(w) && |flags| == |times|
    ensures |counts| == w.buckets && forall b :: 0 <= b < w.buckets ==> counts[b] == InBucket(w, flags, times, b)
  {
    counts := seq(w.buckets, i => 0);
    for n := 0 to |flags|
      invariant |counts| == w.buckets && forall b :: 0 <= b < w.buckets ==> counts[b] == InBucket(w, flags[..n], times[..n], b)
    {
      assert flags[..n + 1][..n] == flags[..n] && times[..n + 1][..n] == times[..n];
      var b := (times[n] - w.t0) / w.bucketNs;
      forall i: int ensures w.t0 + i * w.bucketNs <= times[n] < w.t0 + (i + 1) * w.bucketNs <==> i == b {
        WholeQuotient(times[n] - w.t0, w.bucketNs, i);
      }
      if flags[n] && 0 <= b < w.buckets {
        counts := counts[b := counts[b] + 1];
      }
    }
    assert flags[..|flags|] == flags && times[..|times|] == times;
  }

  ghost function InWindow(w: Window, flags: seq<bool>, times: seq<int>): (f: seq<bool>)
    requires WfWindow(w) && |flags| == |times|
    ensures |f| == |flags|
  {
    seq(|flags|, i requires 0 <= i < |flags| => flags[i] && w.t0 <= times[i] < w.t0 + w.buckets * w.bucketNs)
  }

  /** The sum over the first k buckets. */
  ghost function Placed(w: Window, flags: seq<bool>, times: seq<int>, k: nat): (n: nat)
    requires WfWindow(w) && |flags| == |times|
  {
    if k == 0 then 0 else Placed(w, flags, times, k - 1) + InBucket(w, flags, times, k - 1)
  }

  lemma {:induction false} OneMorePlaced(w: Window, flags: seq<bool>, times: seq<int>, k: nat)
    requires WfWindow(w) && |flags| == |times| && flags != []
    ensures var n := |flags| - 1;
            Placed(w, flags, times, k)
            == Placed(w, flags[..n], times[..n], k) + if flags[n] && w.t0 <= times[n] < w.t0 + k * w.bucketNs then 1 else 0
    decreases k
  {
    if k > 0 {
      OneMorePlaced(w, flags, times, k - 1);
      assert (k - 1) * w.bucketNs >= 0 && k * w.bucketNs == (k - 1) * w.bucketNs + w.bucketNs;
    }
  }

  lemma {:induction false} NonePlaced(w: Window, k: nat)
    requires WfWindow(w)
    ensures Placed(w, [], [], k) == 0
  {
    if k > 0 { NonePlaced(w, k - 1); }
  }

  /** Each flagged number whose time lies in the window is counted in exactly one bucket, the others in none. */
  lemma {:induction false} PlacedOnce(w: Window, flags: seq<bool>, times: seq<int>)
    requires WfWindow(w) && |flags| == |times|
    ensures Placed(w, flags, times, w.buckets) == CountTrue(InWindow(w, flags, times))
  {
    hide WfWindow, Placed;
    if flags == [] {
      NonePlaced(w, w.buckets);
    } else {
      var n := |flags| - 1;
      PlacedOnce(w, flags[..n], times[..n]);
      OneMorePlaced(w, flags, times, w.buckets);
      assert InWindow(w, flags, times)[..n] == InWindow(w, flags[..n], times[..n]);
    }
  }

  lemma MaskedIsUnseen(t: Track, i: int)
    requires Masked(t, i)
    ensures 0 <= i < |t.rx| && t.rx[i] == INT64_MAX
  {
    var a: nat, b: nat :| IsRun(Unseen(t), a, b) && a <= i <= b && Backward(t.rx, a, b);
    assert Unseen(t)[i];
  }

  /** Every sequence number is exactly one of: primary in time, recovered, lost, or masked. */
  lemma ExactlyOneClass(t: Track, wcl: int, i: nat)
    requires WfTrack(t) && wcl < INT64_MAX && i < |t.rx|
    ensures PrimaryInTime(t, wcl, i) || Recovered(t, wcl, i) || TrueLoss(t, wcl, i) || Masked(t, i)
    ensures PrimaryInTime(t, wcl, i) ==> !Recovered(t, wcl, i) && !TrueLoss(t, wcl, i) && !Masked(t, i)
    ensures Recovered(t, wcl, i) ==> !TrueLoss(t, wcl, i) && !Masked(t, i)
    ensures TrueLoss(t, wcl, i) ==> !Masked(t, i)
  {
    hide Masked;
    if Masked(t, i) {
      MaskedIsUnseen(t, i);
    }
  }

  // ---- bursts ----

  /** A burst of dropped sequence numbers, offsets into the span. */
  datatype Gap = Gap(start: nat, end: nat, count: nat, outage: Option<int>)

  predicate Bounded(n: nat, r: Run) {
    r.0 > 0 && r.1 < n - 1
  }

  function GapOf(rx: seq<int>, r: Run): (g: Gap)
    requires r.0 <= r.1 < |rx|
  {
    Gap(r.0, r.1, r.1 + 1 - r.0, if Bounded(|rx|, r) then Some(rx[r.1 + 1] - rx[r.0 - 1]) else None)
  }

  predicate Reports(rx: seq<int>, minDropped: nat, r: Run) {
    Length(r) >= minDropped && !Backward(rx, r.0, r.1)
  }

  function Gaps(rx: seq<int>, minDropped: nat, runs: seq<Run>): (gs: seq<Gap>)
    requires forall k :: 0 <= k < |runs| ==> runs[k].0 <= runs[k].1 < |rx|
  {
    if runs == [] then [] else
      var n := |runs| - 1;
      Gaps(rx, minDropped, runs[..n]) + (if Reports(rx, minDropped, runs[n]) then [GapOf(rx, runs[n])] else [])
  }

  ghost function GapsOf(t: Track, wcl: int, minDropped: nat): (gs: seq<Gap>)
    requires Even(t)
  {
    RunsOfAreRuns(Dropped(t, wcl));
    RunsWithin(Dropped(t, wcl), RunsOf(Dropped(t, wcl)));
    Gaps(t.rx, minDropped, RunsOf(Dropped(t, wcl)))
  }

  /** _derive_gaps for one sender. */
  method DeriveGaps(t: Track, wcl: int, minDropped: nat) returns (gaps: seq<Gap>, discontinuities: nat, ghost runs: seq<Run>)
    requires Even(t)
    ensures runs == RunsOf(Dropped(t, wcl)) && AreRuns(Dropped(t, wcl), runs) && forall k :: 0 <= k < |runs| ==> runs[k].0 <= runs[k].1 < |t.rx|
    ensures gaps == GapsOf(t, wcl, minDropped)
    ensures discontinuities == Discontinuities(t.rx, minDropped, runs)
  {
    hide AreRuns, Dropped, RunsOf;
    var found := EdgeRuns(Dropped(t, wcl));
    runs := found;
    RunsUnique(Dropped(t, wcl), found);
    RunsWithin(Dropped(t, wcl), found);
    gaps, discontinuities := [], 0;
    for n := 0 to |found|
      invariant gaps == Gaps(t.rx, minDropped, found[..n])
      invariant discontinuities == Discontinuities(t.rx, minDropped, found[..n])
    {
      assert found[..n + 1][..n] == found[..n];
      var a, b := found[n].0, found[n].1;
      if b + 1 - a >= minDropped {
        var bounded := a > 0 && b < |t.rx| - 1;
        if bounded && t.rx[b + 1] <= t.rx[a - 1] {
          discontinuities := discontinuities + 1;
        } else {
          gaps := gaps + [Gap(a, b, b + 1 - a, if bounded then Some(t.rx[b + 1] - t.rx[a - 1]) else None)];
        }
      }
    }
    assert found[..|found|] == found;
  }

  lemma RunsWithin(f: seq<bool>, runs: seq<Run>)
    requires AreRuns(f, runs)
    ensures forall k :: 0 <= k < |runs| ==> runs[k].0 <= runs[k].1 < |f|
  {
    forall k | 0 <= k < |runs| ensures runs[k].0 <= runs[k].1 < |f| {
      assert IsRun(f, runs[k].0, runs[k].1);
    }
  }

  function Discontinuities(rx: seq<int>, minDropped: nat, runs: seq<Run>): (n: nat) {
    if runs == [] then 0 else
      var r := runs[|runs| - 1];
      Discontinuities(rx, minDropped, runs[..|runs| - 1]) + (if Length(r) >= minDropped && Backward(rx, r.0, r.1) then 1 else 0)
  }

  /** Every reported burst with packets on both sides lasted a positive time. */
  lemma {:induction false} OutagesPositive(rx: seq<int>, minDropped: nat, runs: seq<Run>, g: Gap)
    requires (forall k :: 0 <= k < |runs| ==> runs[k].0 <= runs[k].1 < |rx|) && g in Gaps(rx, minDropped, runs)
    ensures g.start <= g.end < |rx| && g.count == g.end + 1 - g.start >= minDropped
    ensures g.outage.Some? <==> g.start > 0 && g.end < |rx| - 1
    ensures g.outage.Some? ==> g.outage.value == rx[g.end + 1] - rx[g.start - 1] > 0
  {
    var n := |runs| - 1;
    if g in Gaps(rx, minDropped, runs[..n]) {
      OutagesPositive(rx, minDropped, runs[..n], g);
    }
  }

  ghost function SumCounts(gs: seq<Gap>): (n: nat) {
    if gs == [] then 0 else SumCounts(gs[..|gs| - 1]) + gs[|gs| - 1].count
  }

  ghost function Kept(rx: seq<int>): (f: Run -> bool) { (r: Run) => !Backward(rx, r.0, r.1) }
  ghost function Passed(rx: seq<int>): (f: Run -> bool) { (r: Run) => Backward(rx, r.0, r.1) }

  lemma {:induction false} SumIsKeptLength(rx: seq<int>, runs: seq<Run>, n: nat)
    requires n <= |runs| && forall k :: 0 <= k < |runs| ==> runs[k].0 <= runs[k].1 < |rx|
    ensures SumCounts(Gaps(rx, 1, runs[..n])) == KeptLength(runs, Kept(rx), n)
  {
    if n > 0 {
      SumIsKeptLength(rx, runs, n - 1);
      assert runs[..n][..n - 1] == runs[..n - 1];
      var before := Gaps(rx, 1, runs[..n - 1]);
      assert (before + [GapOf(rx, runs[n - 1])])[..|before|] == before;
      assert before + [] == before;
    }
  }

  // ---- the two algorithms ----

  ghost function LostFlags(t: Track, wcl: int): (f: seq<bool>)
    requires Even(t)
  {
    seq(|t.rx|, i requires 0 <= i < |t.rx| => TrueLoss(t, wcl, i))
  }

  /** Of a sender of which something was seen, every loss is counted. */
  lemma LossesAreCounted(rows: seq<Row>, pair: nat, wcl: int)
    requires (forall r <- rows :: r.rx < INT64_MAX) && TrackOf(rows, pair).Some?
    ensures var t := TrackOf(rows, pair).value.1; CountedLosses(t, wcl) == LostFlags(t, wcl)
  {
    hide TrackOf, TrueLoss;
    SpanEndsAreSeen(rows, pair);
    var t := TrackOf(rows, pair).value.1;
    assert AnySeen(t) by { assert t.rx[0] != INT64_MAX; }
    assert CountedLosses(t, wcl) == LostFlags(t, wcl);
  }

  ghost function BurstFlags(t: Track, wcl: int): (f: seq<bool>)
    requires Even(t)
  {
    seq(|t.rx|, i requires 0 <= i < |t.rx| => Dropped(t, wcl)[i] && !Skipped(t, wcl, i))
  }

  ghost function SkippedFlags(t: Track, wcl: int): (f: seq<bool>)
    requires Even(t)
  {
    seq(|t.rx|, i requires 0 <= i < |t.rx| => Skipped(t, wcl, i))
  }

  /** No run of dropped numbers that contains a late arrival is backward, and every backward hole lies
      between delivered packets. */
  ghost predicate HolesStandAlone(t: Track, wcl: int)
    requires Even(t)
  {
    && (forall a: nat, b: nat, j: nat :: IsRun(Dropped(t, wcl), a, b) && a <= j <= b && t.rx[j] != INT64_MAX ==> !Backward(t.rx, a, b))
    && (forall a: nat, b: nat :: IsRun(Unseen(t), a, b) && Backward(t.rx, a, b) ==> IsRun(Dropped(t, wcl), a, b))
  }
}
