/** The summary's loss classifier against the burst finder: what bursts add up to, and exactly when the
    two name the same sequence numbers. */
module OwlmAgreement {
  import opened Wire
  import opened OwlmAggregate
  import opened OwlmRuns
  import opened OwlmLoss

  // ---- bursts add up ----

  lemma BurstFlagsKept(t: Track, wcl: int, runs: seq<Run>)
    requires WfTrack(t) && AreRuns(Dropped(t, wcl), runs)
    ensures FlagsKept(BurstFlags(t, wcl), runs, Kept(t.rx))
    ensures FlagsKept(SkippedFlags(t, wcl), runs, Passed(t.rx))
  {
    hide Dropped;
    var f := Dropped(t, wcl);
    forall i | 0 <= i < |t.rx|
      ensures f[i] && !Skipped(t, wcl, i) <==> exists k :: 0 <= k < |runs| && Kept(t.rx)(runs[k]) && Inside(runs[k], i)
      ensures Skipped(t, wcl, i) <==> exists k :: 0 <= k < |runs| && Passed(t.rx)(runs[k]) && Inside(runs[k], i)
    {
      RunOfPosition(t, wcl, runs, i);
    }
  }

  /** A dropped position is skipped exactly when the listed run around it is backward. */
  lemma RunOfPosition(t: Track, wcl: int, runs: seq<Run>, i: int)
    requires WfTrack(t) && AreRuns(Dropped(t, wcl), runs) && 0 <= i < |t.rx|
    ensures forall k :: 0 <= k < |runs| && Inside(runs[k], i) ==>
              Dropped(t, wcl)[i] && (Skipped(t, wcl, i) <==> Backward(t.rx, runs[k].0, runs[k].1))
    ensures Dropped(t, wcl)[i] ==> exists k :: 0 <= k < |runs| && Inside(runs[k], i)
    ensures Skipped(t, wcl, i) ==> Dropped(t, wcl)[i]
  {
    hide Dropped;
    var f := Dropped(t, wcl);
    forall k | 0 <= k < |runs| && Inside(runs[k], i)
      ensures f[i] && (Skipped(t, wcl, i) <==> Backward(t.rx, runs[k].0, runs[k].1))
    {
      assert IsRun(f, runs[k].0, runs[k].1);
      if Skipped(t, wcl, i) {
        var a: nat, b: nat :| IsRun(f, a, b) && a <= i <= b && Backward(t.rx, a, b);
        RunsMeet(f, a, b, runs[k].0, runs[k].1, i);
      }
    }
  }

  lemma {:induction false} CountSplit(f: seq<bool>, g: seq<bool>, h: seq<bool>)
    requires |f| == |g| == |h| && forall i :: 0 <= i < |f| ==> (f[i] <==> g[i] || h[i]) && !(g[i] && h[i])
    ensures CountTrue(f) == CountTrue(g) + CountTrue(h)
  {
    if f != [] { CountSplit(f[..|f| - 1], g[..|f| - 1], h[..|f| - 1]); }
  }

  /** With every run reported, the bursts and the skipped runs are disjoint and together are all
      dropped sequence numbers. */
  lemma BurstsConserve(t: Track, wcl: int, runs: seq<Run>)
    requires WfTrack(t) && AreRuns(Dropped(t, wcl), runs) && forall k :: 0 <= k < |runs| ==> runs[k].0 <= runs[k].1 < |t.rx|
    ensures SumCounts(Gaps(t.rx, 1, runs)) == CountTrue(BurstFlags(t, wcl))
    ensures SumCounts(Gaps(t.rx, 1, runs)) + KeptLength(runs, Passed(t.rx), |runs|) == CountTrue(Dropped(t, wcl))
  {
    hide Dropped, AreRuns, FlagsKept, KeptLength, CountTrue, Gaps;
    BurstFlagsKept(t, wcl, runs);
    assert runs[..|runs|] == runs;
    SumIsKeptLength(t.rx, runs, |runs|);
    KeptCounted(Dropped(t, wcl), BurstFlags(t, wcl), runs, Kept(t.rx));
    KeptCounted(Dropped(t, wcl), SkippedFlags(t, wcl), runs, Passed(t.rx));
    forall i | 0 <= i < |t.rx| && Skipped(t, wcl, i) ensures Dropped(t, wcl)[i] {
      RunOfPosition(t, wcl, runs, i);
    }
    CountSplit(Dropped(t, wcl), BurstFlags(t, wcl), SkippedFlags(t, wcl));
  }

  // ---- when the two agree ----

  ghost predicate Agree(t: Track, wcl: int)
    requires WfTrack(t)
  {
    LostFlags(t, wcl) == BurstFlags(t, wcl)
  }

  lemma MaskedIsDropped(t: Track, wcl: int, i: int)
    requires WfTrack(t) && wcl < INT64_MAX && Masked(t, i)
    ensures 0 <= i < |t.rx| && Dropped(t, wcl)[i]
  {
    hide Masked;
    MaskedIsUnseen(t, i);
  }

  lemma AgreeMeansMaskedIsSkipped(t: Track, wcl: int)
    requires WfTrack(t) && wcl < INT64_MAX
    ensures Agree(t, wcl) <==> forall i :: 0 <= i < |t.rx| ==> (Masked(t, i) <==> Skipped(t, wcl, i))
  {
    hide Masked, Skipped, IsRun;
    var l, b := LostFlags(t, wcl), BurstFlags(t, wcl);
    forall i | 0 <= i < |t.rx| ensures l[i] == b[i] <==> (Masked(t, i) <==> Skipped(t, wcl, i)) {
      if Masked(t, i) { MaskedIsDropped(t, wcl, i); }
      if Skipped(t, wcl, i) { SkippedIsDropped(t, wcl, i); }
    }
    if Agree(t, wcl) {
      assert forall i :: 0 <= i < |t.rx| ==> l[i] == b[i];
    }
  }

  lemma SkippedIsDropped(t: Track, wcl: int, i: int)
    requires WfTrack(t) && Skipped(t, wcl, i)
    ensures 0 <= i < |t.rx| && Dropped(t, wcl)[i]
  {
    hide Dropped;
    var a: nat, b: nat :| IsRun(Dropped(t, wcl), a, b) && a <= i <= b && Backward(t.rx, a, b);
  }

  /** A backward run of dropped numbers none of which was seen is a backward hole. */
  lemma UnseenRun(t: Track, wcl: int, a: nat, b: nat)
    requires WfTrack(t) && wcl < INT64_MAX && IsRun(Dropped(t, wcl), a, b) && forall j :: a <= j <= b ==> t.rx[j] == INT64_MAX
    ensures IsRun(Unseen(t), a, b)
  {
  }

  lemma MaskedThenSkipped(t: Track, wcl: int, i: int)
    requires WfTrack(t) && wcl < INT64_MAX && HolesStandAlone(t, wcl) && Masked(t, i)
    ensures Skipped(t, wcl, i)
  {
    hide Dropped, Unseen, IsRun;
    var a: nat, b: nat :| IsRun(Unseen(t), a, b) && a <= i <= b && Backward(t.rx, a, b);
    assert IsRun(Dropped(t, wcl), a, b);
  }

  lemma SkippedThenMasked(t: Track, wcl: int, i: int)
    requires WfTrack(t) && wcl < INT64_MAX && HolesStandAlone(t, wcl) && Skipped(t, wcl, i)
    ensures Masked(t, i)
  {
    hide Dropped, Unseen, IsRun;
    var a: nat, b: nat :| IsRun(Dropped(t, wcl), a, b) && a <= i <= b && Backward(t.rx, a, b);
    UnseenRun(t, wcl, a, b);
  }

  /** Masked and skipped alike: a backward dropped run has no late arrival in it. */
  lemma AgreeThenNoLate(t: Track, wcl: int, a: nat, b: nat, j: nat)
    requires WfTrack(t) && wcl < INT64_MAX && forall i :: 0 <= i < |t.rx| ==> (Masked(t, i) <==> Skipped(t, wcl, i))
    requires IsRun(Dropped(t, wcl), a, b) && a <= j <= b && Backward(t.rx, a, b)
    ensures t.rx[j] == INT64_MAX
  {
    hide Dropped, Masked;
    assert Skipped(t, wcl, j);
    MaskedIsUnseen(t, j);
  }

  lemma AgreeThenHoleIsRun(t: Track, wcl: int, a: nat, b: nat)
    requires WfTrack(t) && wcl < INT64_MAX && forall i :: 0 <= i < |t.rx| ==> (Masked(t, i) <==> Skipped(t, wcl, i))
    requires IsRun(Unseen(t), a, b) && Backward(t.rx, a, b)
    ensures IsRun(Dropped(t, wcl), a, b)
  {
    hide Dropped;
    assert Masked(t, a);
    var c: nat, d: nat :| IsRun(Dropped(t, wcl), c, d) && c <= a <= d && Backward(t.rx, c, d);
    forall j: nat | c <= j <= d ensures t.rx[j] == INT64_MAX {
      AgreeThenNoLate(t, wcl, c, d, j);
    }
    UnseenRun(t, wcl, c, d);
    RunsMeet(Unseen(t), a, b, c, d, a);
  }

  /** The two algorithms name the same sequence numbers exactly when no backward run of dropped numbers
      contains a late arrival and every backward hole lies between delivered packets. */
  lemma AgreeExactly(t: Track, wcl: int)
    requires WfTrack(t) && wcl < INT64_MAX
    ensures Agree(t, wcl) <==> HolesStandAlone(t, wcl)
  {
    hide Agree, Masked, Skipped, IsRun, Dropped, Unseen;
    AgreeMeansMaskedIsSkipped(t, wcl);
    if HolesStandAlone(t, wcl) {
      forall i | 0 <= i < |t.rx| ensures Masked(t, i) <==> Skipped(t, wcl, i) {
        if Masked(t, i) { MaskedThenSkipped(t, wcl, i); }
        if Skipped(t, wcl, i) { SkippedThenMasked(t, wcl, i); }
      }
    }
    if Agree(t, wcl) {
      forall a: nat, b: nat, j: nat | IsRun(Dropped(t, wcl), a, b) && a <= j <= b && Backward(t.rx, a, b)
        ensures t.rx[j] == INT64_MAX
      {
        AgreeThenNoLate(t, wcl, a, b, j);
      }
      forall a: nat, b: nat | IsRun(Unseen(t), a, b) && Backward(t.rx, a, b) ensures IsRun(Dropped(t, wcl), a, b) {
        AgreeThenHoleIsRun(t, wcl, a, b);
      }
    }
  }

  /** Where they agree, the bursts add up to the true losses. */
  lemma AgreeingCounts(t: Track, wcl: int, runs: seq<Run>)
    requires WfTrack(t) && wcl < INT64_MAX && HolesStandAlone(t, wcl)
    requires AreRuns(Dropped(t, wcl), runs) && forall k :: 0 <= k < |runs| ==> runs[k].0 <= runs[k].1 < |t.rx|
    ensures CountTrue(LostFlags(t, wcl)) == SumCounts(Gaps(t.rx, 1, runs))
  {
    hide HolesStandAlone, AreRuns, Dropped, LostFlags, BurstFlags;
    AgreeExactly(t, wcl);
    BurstsConserve(t, wcl, runs);
  }

  // ---- two kinds of capture on which they agree ----

  /** First arrivals strictly increase with the sequence number. */
  predicate InOrder(t: Track) {
    forall i, j :: 0 <= i < j < |t.rx| && t.rx[i] != INT64_MAX && t.rx[j] != INT64_MAX ==> t.rx[i] < t.rx[j]
  }

  lemma NothingBackward(t: Track, wcl: int, a: nat, b: nat)
    requires WfTrack(t) && wcl < INT64_MAX && InOrder(t) && (IsRun(Dropped(t, wcl), a, b) || IsRun(Unseen(t), a, b))
    ensures !Backward(t.rx, a, b)
  {
  }

  lemma {:induction false} NoDiscontinuities(rx: seq<int>, minDropped: nat, runs: seq<Run>)
    requires forall k :: 0 <= k < |runs| ==> !Backward(rx, runs[k].0, runs[k].1)
    ensures Discontinuities(rx, minDropped, runs) == 0
  {
    if runs != [] { NoDiscontinuities(rx, minDropped, runs[..|runs| - 1]); }
  }

  /** In order: nothing is masked, no discontinuity is counted, and the two counts are equal. */
  lemma InOrderAgrees(t: Track, wcl: int, runs: seq<Run>, minDropped: nat)
    requires WfTrack(t) && wcl < INT64_MAX && InOrder(t)
    requires AreRuns(Dropped(t, wcl), runs) && forall k :: 0 <= k < |runs| ==> runs[k].0 <= runs[k].1 < |t.rx|
    ensures forall i :: !Masked(t, i)
    ensures Discontinuities(t.rx, minDropped, runs) == 0
    ensures CountTrue(LostFlags(t, wcl)) == SumCounts(Gaps(t.rx, 1, runs))
  {
    hide Dropped, Unseen, InOrder, LostFlags;
    forall a: nat, b: nat | IsRun(Dropped(t, wcl), a, b) || IsRun(Unseen(t), a, b) ensures !Backward(t.rx, a, b) {
      NothingBackward(t, wcl, a, b);
    }
    NoDiscontinuities(t.rx, minDropped, runs);
    AgreeingCounts(t, wcl, runs);
  }

  /** Whatever the order of arrival: if every sequence number that was seen was delivered, the two agree. */
  lemma NothingLateAgrees(t: Track, wcl: int)
    requires WfTrack(t) && wcl < INT64_MAX && forall i :: 0 <= i < |t.rx| && t.rx[i] != INT64_MAX ==> !Dropped(t, wcl)[i]
    ensures Agree(t, wcl)
  {
    hide Agree;
    assert Dropped(t, wcl) == Unseen(t);
    AgreeExactly(t, wcl);
  }

  // ---- a capture on which they do not ----

  /** A packet in time, a late one, a hole, and a packet in time that came before the late one. */
  function LateTrack(): (t: Track)
    ensures WfTrack(t)
  {
    Track([0, 900, INT64_MAX, 0], [INT64_MAX, INT64_MAX, INT64_MAX, INT64_MAX], [10, 30, INT64_MAX, 20])
  }

  lemma LateFlags()
    ensures Dropped(LateTrack(), 100) == [false, true, true, false] && Unseen(LateTrack()) == [false, false, true, false]
  {
  }

  lemma LateClasses()
    ensures LostFlags(LateTrack(), 100) == [false, true, false, false]
  {
    hide LateTrack, Dropped, Unseen;
    var t := LateTrack();
    LateFlags();
    LateTimes();
    assert IsRun(Unseen(t), 2, 2);
    assert Masked(t, 2);
    if Masked(t, 1) { MaskedIsUnseen(t, 1); }
  }

  lemma LateTimes()
    ensures var t := LateTrack();
            |t.rx| == 4 && t.rx[1] == 30 && Backward(t.rx, 2, 2) && !Backward(t.rx, 1, 2)
            && t.primary[0] <= 100 && t.primary[1] > 100 && t.redundant[1] > 100 && t.primary[3] <= 100
  {
  }

  /** The classifier masks the hole and counts one loss; the burst finder reports one burst of two. */
  lemma LatePacketDisagrees()
    ensures AreRuns(Dropped(LateTrack(), 100), [(1, 2)])
    ensures CountTrue(LostFlags(LateTrack(), 100)) == 1 && |LateTrack().rx| == 4
    ensures SumCounts(Gaps(LateTrack().rx, 1, [(1, 2)])) == 2
  {
    hide LateTrack, Dropped, LostFlags;
    LateFlags();
    LateClasses();
    LateTimes();
    CountFour(false, true, false, false);
    var runs: seq<Run> := [(1, 2)];
    assert Inside(runs[0], 1) && Inside(runs[0], 2);
    OneGap(LateTrack().rx, (1, 2));
  }

  lemma CountFour(a: bool, b: bool, c: bool, d: bool)
    ensures CountTrue([a, b, c, d]) == B(a) + B(b) + B(c) + B(d)
  {
    assert [a, b, c, d][..3] == [a, b, c] && [a, b, c][..2] == [a, b] && [a, b][..1] == [a] && [a][..0] == [];
    assert CountTrue([a]) == B(a);
    assert CountTrue([a, b]) == B(a) + B(b);
    assert CountTrue([a, b, c]) == B(a) + B(b) + B(c);
  }

  function B(b: bool): (n: nat) { if b then 1 else 0 }

  lemma OneGap(rx: seq<int>, r: Run)
    requires r.0 <= r.1 < |rx| && Reports(rx, 1, r)
    ensures SumCounts(Gaps(rx, 1, [r])) == r.1 + 1 - r.0
  {
    var g := GapOf(rx, r);
    assert [r][..0] == [] && [g][..0] == [];
    assert Gaps(rx, 1, [r]) == [] + [g] == [g];
    assert SumCounts([g]) == SumCounts([]) + g.count;
  }
}
