/** What the analysis of a capture says about a sender, in terms of the rows of the capture alone. */
module OwlmMeaning {
  import opened Wire
  import opened OwlmHistogram
  import opened OwlmAggregate
  import opened OwlmRuns
  import opened OwlmLoss
  import opened OwlmPipeline

  // ---- copies of a sequence number ----

  predicate PrimaryCopy(r: Row, pair: nat, s: int) {
    (r.role == Primary || r.role == Legacy) && PairOf(r.sender) == pair && r.sequence == s
  }

  predicate RedundantCopy(r: Row, pair: nat, s: int) {
    r.role == Redundant && PairOf(r.sender) == pair && r.sequence == s
  }

  predicate Copy(r: Row, pair: nat, s: int) {
    PrimaryCopy(r, pair, s) || RedundantCopy(r, pair, s)
  }

  predicate Heard(rows: seq<Row>, pair: nat, s: int) {
    exists r <- rows :: Copy(r, pair, s)
  }

  /** Some copy came within the worst-case latency. */
  predicate Delivered(rows: seq<Row>, pair: nat, s: int, wcl: int) {
    exists r <- rows :: Copy(r, pair, s) && r.lat <= wcl
  }

  /** x is when the first copy came. */
  predicate FirstArrival(rows: seq<Row>, pair: nat, s: int, x: int) {
    (exists r <- rows :: Copy(r, pair, s) && r.rx == x) && forall r <- rows :: Copy(r, pair, s) ==> x <= r.rx
  }

  /** The numbers before a and after b first came at x and y. */
  predicate Around(rows: seq<Row>, pair: nat, a: int, b: int, x: int, y: int) {
    FirstArrival(rows, pair, a - 1, x) && FirstArrival(rows, pair, b + 1, y)
  }

  /** Of the numbers a to b nothing was heard, and the number after them came no later than the one before them. */
  ghost predicate Hole(rows: seq<Row>, pair: nat, a: int, b: int, x: int, y: int) {
    && Around(rows, pair, a, b, x, y) && y <= x
    && forall n :: a <= n <= b ==> !Heard(rows, pair, n)
  }

  ghost predicate InHole(rows: seq<Row>, pair: nat, s: int) {
    exists a, b, x, y :: a <= s <= b && Hole(rows, pair, a, b, x, y)
  }

  // ---- lists and rows ----

  predicate Lists(k: List, r: Row, pair: nat, e: Entry) {
    Feeds(k, r) && PairOf(r.sender) == pair && e == (r.sequence, ValueFor(k, r))
  }

  lemma {:induction false} EntryHasRow(k: List, rows: seq<Row>, pair: nat, e: Entry)
    ensures e in EntriesOf(k, rows, pair) <==> exists r <- rows :: Lists(k, r, pair, e)
  {
    hide PairOf, Feeds, ValueFor;
    if rows != [] {
      var n := |rows| - 1;
      EntryHasRow(k, rows[..n], pair, e);
      assert rows == rows[..n] + [rows[n]];
      assert Lists(k, rows[n], pair, e) ==> rows[n] in rows;
    }
  }

  /** The least value listed for a number: a lower bound over its rows, and the value of one of them unless it is the
      sentinel. */
  lemma LeastOverRows(k: List, rows: seq<Row>, pair: nat, s: int)
    ensures var m := MinOf(EntriesOf(k, rows, pair), s);
            && (forall r <- rows :: Lists(k, r, pair, (s, ValueFor(k, r))) ==> m <= ValueFor(k, r))
            && (m == 0x7FFF_FFFF_FFFF_FFFF || exists r <- rows :: Lists(k, r, pair, (s, m)))
  {
    hide MinOf, EntriesOf, Lists, ValueFor;
    var es := EntriesOf(k, rows, pair);
    MinOfMeaning(es, s);
    forall r <- rows | Lists(k, r, pair, (s, ValueFor(k, r))) ensures MinOf(es, s) <= ValueFor(k, r) {
      EntryHasRow(k, rows, pair, (s, ValueFor(k, r)));
    }
    EntryHasRow(k, rows, pair, (s, MinOf(es, s)));
  }

  lemma ListedHasRow(k: List, rows: seq<Row>, pair: nat, s: int)
    ensures Listed(EntriesOf(k, rows, pair), s) <==> exists r <- rows :: Lists(k, r, pair, (s, ValueFor(k, r)))
  {
    hide EntriesOf, ValueFor;
    var es := EntriesOf(k, rows, pair);
    if Listed(es, s) {
      var i :| 0 <= i < |es| && es[i].0 == s;
      EntryHasRow(k, rows, pair, es[i]);
      var r :| r in rows && Lists(k, r, pair, es[i]);
      assert es[i] == (s, ValueFor(k, r));
    }
    if r :| r in rows && Lists(k, r, pair, (s, ValueFor(k, r))) {
      EntryHasRow(k, rows, pair, (s, ValueFor(k, r)));
      var i :| 0 <= i < |es| && es[i] == (s, ValueFor(k, r));
    }
  }

  lemma WhatListsHold(r: Row, pair: nat, s: int)
    ensures Lists(PrimaryLat, r, pair, (s, ValueFor(PrimaryLat, r))) <==> PrimaryCopy(r, pair, s)
    ensures Lists(RedundantLat, r, pair, (s, ValueFor(RedundantLat, r))) <==> RedundantCopy(r, pair, s)
    ensures Lists(FirstRx, r, pair, (s, ValueFor(FirstRx, r))) <==> Copy(r, pair, s)
    ensures ValueFor(PrimaryLat, r) == ValueFor(RedundantLat, r) == r.lat && ValueFor(FirstRx, r) == r.rx
  {
    hide PairOf;
  }

  // ---- the span and the arrays ----

  /** A sender is analysed if and only if something was heard of it, over exactly the span from the least to the
      greatest number heard. */
  lemma SpanMeaning(rows: seq<Row>, pair: nat)
    ensures TrackOf(rows, pair).None? <==> forall s :: !Heard(rows, pair, s)
    ensures TrackOf(rows, pair).Some? ==>
              var lo, t := TrackOf(rows, pair).value.0, TrackOf(rows, pair).value.1;
              && Heard(rows, pair, lo) && Heard(rows, pair, lo + |t.rx| - 1)
              && forall s :: Heard(rows, pair, s) ==> lo <= s < lo + |t.rx|
  {
    hide EntriesOf, PairOf, LeastSeq, GreatestSeq, Heard, Listed, Column;
    var es := EntriesOf(FirstRx, rows, pair);
    forall s ensures Heard(rows, pair, s) <==> Listed(es, s) {
      HeardIsListed(rows, pair, s);
    }
    if es == [] {
      forall s ensures !Listed(es, s) { NothingIsListed(s); }
    } else {
      forall s | Listed(es, s) ensures LeastSeq(es) <= s <= GreatestSeq(es) {
        ListedInSpan(es, s);
      }
    }
  }

  lemma NothingIsListed(s: int)
    ensures !Listed([], s)
  {
  }

  lemma ListedInSpan(es: seq<Entry>, s: int)
    requires es != [] && Listed(es, s)
    ensures LeastSeq(es) <= s <= GreatestSeq(es)
  {
    hide LeastSeq, GreatestSeq;
  }

  lemma HeardIsListed(rows: seq<Row>, pair: nat, s: int)
    ensures Heard(rows, pair, s) <==> Listed(EntriesOf(FirstRx, rows, pair), s)
  {
    hide EntriesOf, Listed, Copy, Lists, ValueFor;
    ListedHasRow(FirstRx, rows, pair, s);
    forall r ensures Lists(FirstRx, r, pair, (s, ValueFor(FirstRx, r))) <==> Copy(r, pair, s) {
      WhatListsHold(r, pair, s);
    }
  }

  /** Each array holds, for each number of the span, the least over the rows of that number: latency of Primary and
      Legacy copies, latency of Redundant copies, receive time of any copy; 0x7FFF_FFFF_FFFF_FFFF where there is none. */
  lemma TrackMeaning(rows: seq<Row>, pair: nat, i: nat)
    requires TrackOf(rows, pair).Some? && i < |TrackOf(rows, pair).value.1.rx|
    ensures var s, t := TrackOf(rows, pair).value.0 + i, TrackOf(rows, pair).value.1;
            && (forall r <- rows :: PrimaryCopy(r, pair, s) ==> t.primary[i] <= r.lat)
            && (t.primary[i] == 0x7FFF_FFFF_FFFF_FFFF || exists r <- rows :: PrimaryCopy(r, pair, s) && r.lat == t.primary[i])
            && (forall r <- rows :: RedundantCopy(r, pair, s) ==> t.redundant[i] <= r.lat)
            && (t.redundant[i] == 0x7FFF_FFFF_FFFF_FFFF || exists r <- rows :: RedundantCopy(r, pair, s) && r.lat == t.redundant[i])
            && (forall r <- rows :: Copy(r, pair, s) ==> t.rx[i] <= r.rx)
            && (t.rx[i] == 0x7FFF_FFFF_FFFF_FFFF || exists r <- rows :: Copy(r, pair, s) && r.rx == t.rx[i])
  {
    hide EntriesOf, MinOf, SpanOf, PairOf, PrimaryCopy, RedundantCopy, Copy;
    var s, t := TrackOf(rows, pair).value.0 + i, TrackOf(rows, pair).value.1;
    forall r
      ensures Lists(PrimaryLat, r, pair, (s, ValueFor(PrimaryLat, r))) <==> PrimaryCopy(r, pair, s)
      ensures Lists(RedundantLat, r, pair, (s, ValueFor(RedundantLat, r))) <==> RedundantCopy(r, pair, s)
      ensures Lists(FirstRx, r, pair, (s, ValueFor(FirstRx, r))) <==> Copy(r, pair, s)
    {
      WhatListsHold(r, pair, s);
    }
    LeastOverRows(PrimaryLat, rows, pair, s);
    LeastOverRows(RedundantLat, rows, pair, s);
    LeastOverRows(FirstRx, rows, pair, s);
  }

  /** The sentinel says that there is no copy, as long as no row carries it as a value. */
  lemma SentinelMeansNone(rows: seq<Row>, pair: nat, i: nat)
    requires TrackOf(rows, pair).Some? && i < |TrackOf(rows, pair).value.1.rx|
    requires forall r <- rows :: r.lat < 0x7FFF_FFFF_FFFF_FFFF && r.rx < 0x7FFF_FFFF_FFFF_FFFF
    ensures var s, t := TrackOf(rows, pair).value.0 + i, TrackOf(rows, pair).value.1;
            && (t.primary[i] == 0x7FFF_FFFF_FFFF_FFFF <==> forall r <- rows :: !PrimaryCopy(r, pair, s))
            && (t.redundant[i] == 0x7FFF_FFFF_FFFF_FFFF <==> forall r <- rows :: !RedundantCopy(r, pair, s))
            && (t.rx[i] == 0x7FFF_FFFF_FFFF_FFFF <==> !Heard(rows, pair, s))
  {
    hide TrackOf, PrimaryCopy, RedundantCopy, Copy;
    TrackMeaning(rows, pair, i);
  }

  // ---- losses ----

  /** A receive time in the arrays is that of the first arrival. */
  lemma ArrivalMeaning(rows: seq<Row>, pair: nat, i: nat, x: int)
    requires TrackOf(rows, pair).Some? && i < |TrackOf(rows, pair).value.1.rx| && forall r <- rows :: r.rx < 0x7FFF_FFFF_FFFF_FFFF
    ensures var s, t := TrackOf(rows, pair).value.0 + i, TrackOf(rows, pair).value.1;
            && (t.rx[i] == 0x7FFF_FFFF_FFFF_FFFF <==> !Heard(rows, pair, s))
            && (t.rx[i] != 0x7FFF_FFFF_FFFF_FFFF ==> (FirstArrival(rows, pair, s, x) <==> x == t.rx[i]))
  {
    hide TrackOf, Copy;
    TrackMeaning(rows, pair, i);
  }

  lemma DeliveryMeaning(rows: seq<Row>, pair: nat, wcl: int, i: nat)
    requires TrackOf(rows, pair).Some? && i < |TrackOf(rows, pair).value.1.rx| && wcl < 0x7FFF_FFFF_FFFF_FFFF
    ensures var s, t := TrackOf(rows, pair).value.0 + i, TrackOf(rows, pair).value.1;
            && (t.primary[i] <= wcl <==> exists r <- rows :: PrimaryCopy(r, pair, s) && r.lat <= wcl)
            && (t.redundant[i] <= wcl <==> exists r <- rows :: RedundantCopy(r, pair, s) && r.lat <= wcl)
            && (Dropped(t, wcl)[i] <==> !Delivered(rows, pair, s, wcl))
  {
    hide TrackOf, PrimaryCopy, RedundantCopy;
    TrackMeaning(rows, pair, i);
  }

  lemma HoleIsMasked(rows: seq<Row>, pair: nat, i: nat, a: int, b: int, x: int, y: int)
    requires TrackOf(rows, pair).Some? && i < |TrackOf(rows, pair).value.1.rx| && forall r <- rows :: r.rx < 0x7FFF_FFFF_FFFF_FFFF
    requires a <= TrackOf(rows, pair).value.0 + i <= b && Hole(rows, pair, a, b, x, y)
    ensures Masked(TrackOf(rows, pair).value.1, i)
  {
    hide TrackOf, Copy, Heard, FirstArrival;
    var lo, t := TrackOf(rows, pair).value.0, TrackOf(rows, pair).value.1;
    ArrivalIsHeard(rows, pair, a - 1, x);
    ArrivalIsHeard(rows, pair, b + 1, y);
    SpanMeaning(rows, pair);
    ArrivalMeaning(rows, pair, a - 1 - lo, x);
    ArrivalMeaning(rows, pair, b + 1 - lo, y);
    forall j | a - lo <= j <= b - lo ensures t.rx[j] == 0x7FFF_FFFF_FFFF_FFFF {
      ArrivalMeaning(rows, pair, j, 0);
    }
    assert IsRun(Unseen(t), a - lo, b - lo);
  }

  lemma ArrivalIsHeard(rows: seq<Row>, pair: nat, s: int, x: int)
    requires FirstArrival(rows, pair, s, x)
    ensures Heard(rows, pair, s)
  {
    hide Copy;
  }

  lemma MaskedIsHole(rows: seq<Row>, pair: nat, i: nat)
    requires TrackOf(rows, pair).Some? && i < |TrackOf(rows, pair).value.1.rx| && forall r <- rows :: r.rx < 0x7FFF_FFFF_FFFF_FFFF
    requires Masked(TrackOf(rows, pair).value.1, i)
    ensures InHole(rows, pair, TrackOf(rows, pair).value.0 + i)
  {
    hide TrackOf, Copy, Heard, FirstArrival;
    var lo, t := TrackOf(rows, pair).value.0, TrackOf(rows, pair).value.1;
    var a: nat, b: nat :| IsRun(Unseen(t), a, b) && a <= i <= b && Backward(t.rx, a, b);
    var x, y := t.rx[a - 1], t.rx[b + 1];
    ArrivalMeaning(rows, pair, a - 1, x);
    ArrivalMeaning(rows, pair, b + 1, y);
    forall n | lo + a <= n <= lo + b ensures !Heard(rows, pair, n) {
      assert Unseen(t)[n - lo];
      ArrivalMeaning(rows, pair, n - lo, 0);
    }
    assert Hole(rows, pair, lo + a, lo + b, x, y);
  }

  /** End to end, by the rows alone. A number is reported recovered if and only if no Primary or Legacy copy of it came
      within the worst-case latency and a Redundant copy did; lost if and only if no copy did and it does not lie in a
      hole over which the stream jumped back. */
  lemma ReportMeaning(rows: seq<Row>, pair: nat, wcl: int, minDropped: nat, i: nat)
    requires wcl < 0x7FFF_FFFF_FFFF_FFFF && (forall r <- rows :: r.rx < 0x7FFF_FFFF_FFFF_FFFF) && ReportOn(TrackOf(rows, pair), wcl, minDropped).Some?
    requires i < |ReportOn(TrackOf(rows, pair), wcl, minDropped).value.lost|
    ensures var report := ReportOn(TrackOf(rows, pair), wcl, minDropped).value;
            var s := report.minSeq + i;
            && |report.recovered| == |report.lost|
            && (report.recovered[i] <==> (forall r <- rows :: PrimaryCopy(r, pair, s) ==> r.lat > wcl)
                                         && exists r <- rows :: RedundantCopy(r, pair, s) && r.lat <= wcl)
            && (report.lost[i] <==> (forall r <- rows :: Copy(r, pair, s) ==> r.lat > wcl) && !InHole(rows, pair, s))
  {
    hide TrackOf, PrimaryCopy, RedundantCopy, Hole, GapsOf, Masked;
    var lo, t := TrackOf(rows, pair).value.0, TrackOf(rows, pair).value.1;
    DeliveryMeaning(rows, pair, wcl, i);
    SpanEndsAreSeen(rows, pair);
    assert AnySeen(t) by { assert t.rx[0] != 0x7FFF_FFFF_FFFF_FFFF; }
    if Masked(t, i) {
      MaskedIsHole(rows, pair, i);
    }
    if a, b, x, y :| a <= lo + i <= b && Hole(rows, pair, a, b, x, y) {
      HoleIsMasked(rows, pair, i, a, b, x, y);
    }
  }

  /** A sender is reported if and only if something was heard of it, and the report covers exactly the numbers from the
      least to the greatest heard. */
  lemma ReportSpan(rows: seq<Row>, pair: nat, wcl: int, minDropped: nat)
    ensures var r := ReportOn(TrackOf(rows, pair), wcl, minDropped);
            && (r.None? <==> forall s :: !Heard(rows, pair, s))
            && (r.Some? ==> Heard(rows, pair, r.value.minSeq) && Heard(rows, pair, r.value.minSeq + |r.value.lost| - 1)
                            && forall s :: Heard(rows, pair, s) ==> r.value.minSeq <= s < r.value.minSeq + |r.value.lost|)
  {
    hide TrackOf, Heard, GapsOf, TrueLoss, Recovered;
    SpanMeaning(rows, pair);
  }

  // ---- bursts ----

  lemma {:induction false} GapIffRun(rx: seq<int>, minDropped: nat, runs: seq<Run>, g: Gap)
    requires forall k :: 0 <= k < |runs| ==> runs[k].0 <= runs[k].1 < |rx|
    ensures g in Gaps(rx, minDropped, runs)
            <==> exists k :: 0 <= k < |runs| && Reports(rx, minDropped, runs[k]) && g == GapOf(rx, runs[k])
  {
    hide GapOf, Reports;
    if runs != [] {
      var n := |runs| - 1;
      GapIffRun(rx, minDropped, runs[..n], g);
      assert forall k :: 0 <= k < n ==> runs[..n][k] == runs[k];
    }
  }

  /** The bursts of a sender's arrays: exactly the maximal dropped runs that are long enough and no discontinuity. */
  lemma GapsAre(t: Track, wcl: int, minDropped: nat, g: Gap)
    requires Even(t)
    ensures g in GapsOf(t, wcl, minDropped)
            <==> IsRun(Dropped(t, wcl), g.start, g.end) && g.end + 1 - g.start >= minDropped && !Backward(t.rx, g.start, g.end)
                 && g.count == g.end + 1 - g.start
                 && g.outage == if 0 < g.start && g.end < |t.rx| - 1 then Some(t.rx[g.end + 1] - t.rx[g.start - 1]) else None
  {
    hide Dropped, RunsOf, IsRun, AreRuns;
    var f := Dropped(t, wcl);
    var runs := RunsOf(f);
    RunsOfAreRuns(f);
    RunsWithin(f, runs);
    GapIffRun(t.rx, minDropped, runs, g);
    if IsRun(f, g.start, g.end) {
      RunListed(f, runs, g.start, g.end);
    }
    forall k | 0 <= k < |runs| ensures IsRun(f, runs[k].0, runs[k].1) {
      RunsGoForward(f, runs, k);
    }
  }

  /** A burst in terms of the rows: the numbers a to b, none of them delivered, with a delivered number (or the end of
      the span) on either side. */
  ghost predicate Burst(rows: seq<Row>, pair: nat, wcl: int, lo: int, hi: int, a: int, b: int) {
    && lo <= a <= b <= hi && (forall n :: a <= n <= b ==> !Delivered(rows, pair, n, wcl))
    && (a == lo || Delivered(rows, pair, a - 1, wcl)) && (b == hi || Delivered(rows, pair, b + 1, wcl))
  }

  lemma BurstIsRun(rows: seq<Row>, pair: nat, wcl: int, a: nat, b: nat)
    requires TrackOf(rows, pair).Some? && wcl < 0x7FFF_FFFF_FFFF_FFFF
    ensures var lo, t := TrackOf(rows, pair).value.0, TrackOf(rows, pair).value.1;
            IsRun(Dropped(t, wcl), a, b) <==> Burst(rows, pair, wcl, lo, lo + |t.rx| - 1, lo + a, lo + b)
  {
    hide TrackOf, Delivered;
    var lo, t := TrackOf(rows, pair).value.0, TrackOf(rows, pair).value.1;
    var f := Dropped(t, wcl);
    forall i | 0 <= i < |t.rx| ensures f[i] <==> !Delivered(rows, pair, lo + i, wcl) {
      DeliveryMeaning(rows, pair, wcl, i);
    }
    if IsRun(f, a, b) {
      forall n | lo + a <= n <= lo + b ensures !Delivered(rows, pair, n, wcl) {
        assert f[n - lo];
      }
    }
    if Burst(rows, pair, wcl, lo, lo + |t.rx| - 1, lo + a, lo + b) {
      forall i | a <= i <= b ensures f[i] {
        assert !Delivered(rows, pair, lo + i, wcl);
      }
    }
  }

  lemma DeliveredIsHeard(rows: seq<Row>, pair: nat, s: int, wcl: int)
    requires Delivered(rows, pair, s, wcl)
    ensures Heard(rows, pair, s)
  {
    hide Copy;
  }

  /** The neighbours of a burst that does not touch the ends of the span, and when they first came. */
  lemma BurstNeighbours(rows: seq<Row>, pair: nat, wcl: int, a: nat, b: nat, x: int, y: int)
    requires TrackOf(rows, pair).Some? && wcl < 0x7FFF_FFFF_FFFF_FFFF && forall r <- rows :: r.rx < 0x7FFF_FFFF_FFFF_FFFF
    requires 0 < a <= b < |TrackOf(rows, pair).value.1.rx| - 1
    requires var lo, t := TrackOf(rows, pair).value.0, TrackOf(rows, pair).value.1;
             Burst(rows, pair, wcl, lo, lo + |t.rx| - 1, lo + a, lo + b)
    ensures var lo, t := TrackOf(rows, pair).value.0, TrackOf(rows, pair).value.1;
            (FirstArrival(rows, pair, lo + a - 1, x) <==> x == t.rx[a - 1]) && (FirstArrival(rows, pair, lo + b + 1, y) <==> y == t.rx[b + 1])
  {
    hide TrackOf, Delivered, Heard, FirstArrival;
    var lo := TrackOf(rows, pair).value.0;
    DeliveredIsHeard(rows, pair, lo + a - 1, wcl);
    DeliveredIsHeard(rows, pair, lo + b + 1, wcl);
    ArrivalMeaning(rows, pair, a - 1, x);
    ArrivalMeaning(rows, pair, b + 1, y);
  }

  /** The outage of a burst: none at the ends of the span, otherwise the positive time from the first arrival of the
      number before it to that of the number after it. */
  ghost predicate OutageIs(rows: seq<Row>, pair: nat, lo: int, hi: int, a: int, b: int, outage: Option<int>) {
    if a == lo || b == hi then outage.None?
    else outage.Some? && outage.value > 0
         && exists x, y :: Around(rows, pair, a, b, x, y) && y - x == outage.value
  }

  lemma OutageMeaning(rows: seq<Row>, pair: nat, wcl: int, g: Gap)
    requires TrackOf(rows, pair).Some? && wcl < 0x7FFF_FFFF_FFFF_FFFF && forall r <- rows :: r.rx < 0x7FFF_FFFF_FFFF_FFFF
    requires var lo, t := TrackOf(rows, pair).value.0, TrackOf(rows, pair).value.1;
             Burst(rows, pair, wcl, lo, lo + |t.rx| - 1, lo + g.start, lo + g.end)
    ensures var lo, t := TrackOf(rows, pair).value.0, TrackOf(rows, pair).value.1;
            OutageIs(rows, pair, lo, lo + |t.rx| - 1, lo + g.start, lo + g.end, g.outage)
            <==> !Backward(t.rx, g.start, g.end)
                 && g.outage == if 0 < g.start && g.end < |t.rx| - 1 then Some(t.rx[g.end + 1] - t.rx[g.start - 1]) else None
  {
    hide TrackOf, Delivered, FirstArrival;
    var lo, t := TrackOf(rows, pair).value.0, TrackOf(rows, pair).value.1;
    var a, b := g.start, g.end;
    if 0 < a && b < |t.rx| - 1 {
      var x, y := t.rx[a - 1], t.rx[b + 1];
      BurstNeighbours(rows, pair, wcl, a, b, x, y);
      var p, q := lo + a, lo + b;
      assert Around(rows, pair, p, q, x, y);
      forall x', y' | Around(rows, pair, p, q, x', y') ensures x' == x && y' == y {
        BurstNeighbours(rows, pair, wcl, a, b, x', y');
      }
    }
  }

  /** The bursts reported, by the rows alone: exactly the maximal stretches of numbers without a copy in time that are
      long enough and did not end before they began, each with its length and its outage. */
  lemma BurstMeaning(rows: seq<Row>, pair: nat, wcl: int, minDropped: nat, g: Gap)
    requires wcl < 0x7FFF_FFFF_FFFF_FFFF && (forall r <- rows :: r.rx < 0x7FFF_FFFF_FFFF_FFFF) && ReportOn(TrackOf(rows, pair), wcl, minDropped).Some?
    ensures var report := ReportOn(TrackOf(rows, pair), wcl, minDropped).value;
            var lo, hi := report.minSeq, report.minSeq + |report.lost| - 1;
            g in report.gaps
            <==> Burst(rows, pair, wcl, lo, hi, lo + g.start, lo + g.end) && g.count == g.end + 1 - g.start >= minDropped
                 && OutageIs(rows, pair, lo, hi, lo + g.start, lo + g.end, g.outage)
  {
    hide TrackOf, Burst, OutageIs, GapsOf, Backward, IsRun, Dropped, TrueLoss, Recovered;
    var lo, t := TrackOf(rows, pair).value.0, TrackOf(rows, pair).value.1;
    GapsAre(t, wcl, minDropped, g);
    BurstIsRun(rows, pair, wcl, g.start, g.end);
    if Burst(rows, pair, wcl, lo, lo + |t.rx| - 1, lo + g.start, lo + g.end) {
      OutageMeaning(rows, pair, wcl, g);
    }
  }

  ghost function LongOnes(runs: seq<Run>, minDropped: nat): (n: nat) {
    if runs == [] then 0 else LongOnes(runs[..|runs| - 1], minDropped) + if Length(runs[|runs| - 1]) >= minDropped then 1 else 0
  }

  /** Every run that is long enough is either a burst or counted as a discontinuity. */
  lemma {:induction false} BurstsAndDiscontinuities(rx: seq<int>, minDropped: nat, runs: seq<Run>)
    requires forall k :: 0 <= k < |runs| ==> runs[k].0 <= runs[k].1 < |rx|
    ensures |Gaps(rx, minDropped, runs)| + Discontinuities(rx, minDropped, runs) == LongOnes(runs, minDropped)
  {
    if runs != [] { BurstsAndDiscontinuities(rx, minDropped, runs[..|runs| - 1]); }
  }

  // ---- buckets ----

  /** The row is a remote one, received in bucket i. */
  predicate ReceivedIn(w: Window, r: Row, i: nat) {
    r.role != Local && w.t0 + i * w.bucketNs <= r.rx < w.t0 + (i + 1) * w.bucketNs
  }

  /** The latencies of those rows, in order. */
  ghost function LatenciesIn(w: Window, rows: seq<Row>, i: nat): (s: seq<int>) {
    if rows == [] then [] else
      var n := |rows| - 1;
      LatenciesIn(w, rows[..n], i) + if ReceivedIn(w, rows[n], i) then [rows[n].lat] else []
  }

  lemma {:induction false} SameLatencies(w: Window, rows: seq<Row>, i: nat)
    requires WfWindow(w)
    ensures Latencies(w, rows, i) == LatenciesIn(w, rows, i)
  {
    if rows != [] {
      var n := |rows| - 1;
      SameLatencies(w, rows[..n], i);
      WholeQuotient(rows[n].rx - w.t0, w.bucketNs, i);
    }
  }

  /** How many of those rows took longer than the worst case. */
  ghost function LateIn(w: Window, rows: seq<Row>, i: nat): (n: nat) {
    if rows == [] then 0 else
      var n := |rows| - 1;
      LateIn(w, rows[..n], i) + if ReceivedIn(w, rows[n], i) && rows[n].lat > w.wcl then 1 else 0
  }

  lemma CountOneMore(s: seq<int>, x: int, f: int -> bool)
    ensures Count(s + [x], f) == Count(s, f) + if f(x) then 1 else 0
  {
    assert (s + [x])[..|s|] == s;
  }

  lemma {:induction false} LateAreCounted(w: Window, rows: seq<Row>, i: nat)
    ensures Count(LatenciesIn(w, rows, i), Above(w.wcl)) == LateIn(w, rows, i)
  {
    hide ReceivedIn, Count;
    if rows == [] {
      assert Count([], Above(w.wcl)) == 0 by { CountNothing(Above(w.wcl)); }
    } else {
      var n := |rows| - 1;
      var before := LatenciesIn(w, rows[..n], i);
      LateAreCounted(w, rows[..n], i);
      if ReceivedIn(w, rows[n], i) {
        CountOneMore(before, rows[n].lat, Above(w.wcl));
      } else {
        assert LatenciesIn(w, rows, i) == before;
      }
    }
  }

  lemma CountNothing(f: int -> bool)
    ensures Count([], f) == 0
  {
  }

  /** A bucket of any merged result: how many remote rows were received in its stretch of time, the sum, least and
      greatest of their latencies, how many took longer than the worst case, and their histogram. */
  lemma MergedBucket(w: Window, out: Partial, rows: seq<Row>, i: nat)
    requires WfWindow(w) && out.Represents(w, rows) && i < w.buckets
    ensures i < |out.buckets| && Summarizes(w, LatenciesIn(w, rows, i), out.buckets[i]) && out.buckets[i].late == LateIn(w, rows, i)
  {
    hide Latencies, LatenciesIn, BucketOf, SparseOf, LateIn, Counts;
    SameLatencies(w, rows, i);
    BucketMeaning(w, rows, i);
    LateAreCounted(w, rows, i);
  }

  // ---- senders ----

  /** Two senders are one if and only if their EUI-64s agree but for the two middle octets. */
  lemma PairMeaning(a: nat, b: nat)
    requires a < 0x1_0000_0000_0000_0000 && b < 0x1_0000_0000_0000_0000
    ensures PairOf(a) == PairOf(b)
            <==> a / 0x100_0000_0000 == b / 0x100_0000_0000 && a % 0x100_0000 == b % 0x100_0000
  {
  }
}
