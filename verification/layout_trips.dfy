/** A second trip: what one parse and serialize leaves is again what a serializer writes, and a control's payload
    only gets shorter. */
module LayoutTrips {
  import opened Wire
  import opened AemModel
  import F = Fields
  import opened ControlValues
  import opened Layouts
  import opened Utf8

  /** Piece i of the kept tail is piece i of the tail, rewritten. */
  lemma KeptPiece(t: nat, o: bytes, i: nat)
    requires Extent(TailShape(t).pieces) <= |o| && i < |TailShape(t).pieces|
    ensures Extent(TailShape(t).pieces) <= |KeptTail(t, o)|
    ensures Stretch(TailShape(t).pieces, KeptTail(t, o), i)
            == Rewrite(TailShape(t).pieces[i], Stretch(TailShape(t).pieces, o, i), o)
  {
    hide TailShape, Rewrite, RewriteUpTo, KeptTail, Place, KeptTrailer;
    var ps := TailShape(t).pieces;
    KeptInParts(t, o);
    RewrittenPiece(ps, o, |ps|, i);
    var r, o' := RewriteUpTo(ps, o, |ps|), KeptTail(t, o);
    assert o'[Place(ps, i)..Place(ps, i + 1)] == r[Place(ps, i)..Place(ps, i + 1)];
  }

  /** A 16-bit field is the same word afterwards. */
  lemma WordKept(t: nat, o: bytes, i: nat, p: nat)
    requires Extent(TailShape(t).pieces) <= |o| && i < |TailShape(t).pieces|
    requires TailShape(t).pieces[i] == Own(N2) && Place(TailShape(t).pieces, i) == p
    ensures WordAt(KeptTail(t, o), p) == WordAt(o, p)
  {
    hide TailShape, KeptTail, F.Canon;
    var ps, o' := TailShape(t).pieces, KeptTail(t, o);
    KeptPiece(t, o, i);
    PlacesGrow(ps, i + 1, |ps|);
    F.CanonKeepsNumbers(N2, Stretch(ps, o, i));
    assert Place(ps, i + 1) == p + 2;
    assert o'[p..p + 2] == o[p..p + 2];
    assert o'[p] == o'[p..p + 2][0] && o'[p + 1] == o'[p..p + 2][1];
    assert o[p] == o[p..p + 2][0] && o[p + 1] == o[p..p + 2][1];
  }

  // ---- the counts of lists stand in 16-bit fields ----

  const UNIT_AT: seq<nat> := [0, 36, 40, 42, 44]
  const STREAM_AT: seq<nat> :=
    [0, 64, 66, 68, 70, 78, 80, 82, 90, 92, 100, 102, 110, 112, 120, 122, 124, 128, 130, 132, 134]
  const LISTED_AT: seq<nat> := [0, 64, 66, 68, 70, 72]
  const MAP_AT: seq<nat> := [0, 2, 4]
  const SELECTOR_AT: seq<nat> := [0, 64, 66, 70, 74, 76, 78, 80, 82, 84, 86, 88, 90, 92]

  lemma StreamConsecutive()
    ensures StartsAre(STREAM_PIECES, STREAM_AT)
  {
  }

  lemma SelectorConsecutive()
    ensures StartsAre(SELECTOR_PIECES, SELECTOR_AT)
  {
  }

  lemma ListedConsecutive()
    ensures StartsAre(LISTED_PIECES, LISTED_AT)
  {
  }

  lemma UnitConsecutive()
    ensures StartsAre(TailShape(AUDIO_UNIT).pieces, UNIT_AT)
  {
  }

  lemma MapConsecutive(t: nat)
    requires AUDIO_MAP <= t <= SENSOR_MAP
    ensures StartsAre(TailShape(t).pieces, MAP_AT)
  {
  }

  /** Which piece holds the count of a type's n-th list. */
  function CountPiece(t: nat, n: nat): (i: nat) {
    if t == AUDIO_UNIT then 3
    else if t == STREAM_INPUT || t == STREAM_OUTPUT then if n == 0 then 6 else 18
    else if t == CLOCK_DOMAIN || t == TIMING then 4
    else if t == SIGNAL_SELECTOR then 6
    else 1
  }

  lemma ListTypes(t: nat)
    requires TailShape(t).trailer.Lists?
    ensures t in {AUDIO_UNIT, STREAM_INPUT, STREAM_OUTPUT, CLOCK_DOMAIN, TIMING, AUDIO_MAP, VIDEO_MAP, SENSOR_MAP, SIGNAL_SELECTOR}
  {
  }

  lemma ListShapes(t: nat, n: nat)
    requires TailShape(t).trailer.Lists? && n < |TailShape(t).trailer.lists|
    ensures CountPiece(t, n) < |TailShape(t).pieces| && TailShape(t).pieces[CountPiece(t, n)] == Own(N2)
    ensures TailShape(t).trailer.lists[n].0
            == (if t == AUDIO_UNIT then 42 else if t == STREAM_INPUT || t == STREAM_OUTPUT then (if n == 0 then 80 else 130)
                else if t == CLOCK_DOMAIN || t == TIMING then 70 else if t == SIGNAL_SELECTOR then 78 else 2)
    ensures t == STREAM_INPUT || t == STREAM_OUTPUT ==> TailShape(t).pieces == STREAM_PIECES
    ensures t == CLOCK_DOMAIN || t == TIMING ==> TailShape(t).pieces == LISTED_PIECES
    ensures t == SIGNAL_SELECTOR ==> TailShape(t).pieces == SELECTOR_PIECES
  {
  }

  lemma CountPlaces(t: nat, n: nat)
    requires TailShape(t).trailer.Lists? && n < |TailShape(t).trailer.lists|
    ensures CountPiece(t, n) < |TailShape(t).pieces| && TailShape(t).pieces[CountPiece(t, n)] == Own(N2)
    ensures Place(TailShape(t).pieces, CountPiece(t, n)) == TailShape(t).trailer.lists[n].0
  {
    hide TailShape, Place, StartsAre;
    ListTypes(t);
    ListShapes(t, n);
    var ps, i := TailShape(t).pieces, CountPiece(t, n);
    if t == AUDIO_UNIT {
      UnitConsecutive();
      PlacesAre(ps, UNIT_AT, i);
    } else if t == STREAM_INPUT || t == STREAM_OUTPUT {
      StreamConsecutive();
      PlacesAre(ps, STREAM_AT, i);
    } else if t == CLOCK_DOMAIN || t == TIMING {
      ListedConsecutive();
      PlacesAre(ps, LISTED_AT, i);
    } else if t == SIGNAL_SELECTOR {
      SelectorConsecutive();
      PlacesAre(ps, SELECTOR_AT, i);
    } else {
      MapConsecutive(t);
      PlacesAre(ps, MAP_AT, i);
    }
  }

  lemma {:induction false} SameListsLength(ls: seq<(nat, nat)>, o: bytes, o': bytes)
    requires forall n :: 0 <= n < |ls| ==> WordAt(o, ls[n].0) == WordAt(o', ls[n].0)
    ensures ListsLength(ls, o) == ListsLength(ls, o')
  {
    hide WordAt;
    if ls != [] {
      SameListsLength(ls[..|ls| - 1], o, o');
    }
  }

  lemma ListsKept(t: nat, o: bytes)
    requires TailShape(t).trailer.Lists? && Extent(TailShape(t).pieces) <= |o|
    ensures ListsLength(TailShape(t).trailer.lists, KeptTail(t, o)) == ListsLength(TailShape(t).trailer.lists, o)
  {
    hide TailShape, KeptTail, WordAt, Place, ListsLength;
    var ls := TailShape(t).trailer.lists;
    forall n | 0 <= n < |ls| ensures WordAt(o, ls[n].0) == WordAt(KeptTail(t, o), ls[n].0) {
      CountPlaces(t, n);
      WordKept(t, o, CountPiece(t, n), ls[n].0);
    }
    SameListsLength(ls, o, KeptTail(t, o));
  }

  // ---- the pieces ----

  lemma PiecesOf(t: nat, i: nat)
    requires i < |TailShape(t).pieces|
    ensures TailShape(t).pieces[i].Redundant? ==> t == STREAM_INPUT || t == STREAM_OUTPUT
    ensures TailShape(t).pieces[i].ValueCount? ==> t == CONTROL && i == 9
  {
    hide TailShape;
    if t == STREAM_INPUT || t == STREAM_OUTPUT {
      StreamPieces(t);
    } else if t == CONTROL {
      ControlShape();
    } else {
      OtherPieces(t, i);
    }
  }

  lemma StreamPieces(t: nat)
    requires t == STREAM_INPUT || t == STREAM_OUTPUT
    ensures forall i :: 0 <= i < |TailShape(t).pieces| ==> !TailShape(t).pieces[i].ValueCount?
  {
  }

  lemma OtherPieces(t: nat, i: nat)
    requires t != STREAM_INPUT && t != STREAM_OUTPUT && t != CONTROL && i < |TailShape(t).pieces|
    ensures TailShape(t).pieces[i].Own? || TailShape(t).pieces[i].Const? || TailShape(t).pieces[i].Lost?
  {
  }

  lemma StreamLists(t: nat)
    requires t == STREAM_INPUT || t == STREAM_OUTPUT
    ensures TailShape(t).trailer == Lists([(80, 8), (130, 2)])
  {
  }

  lemma RedundantKept(t: nat, o: bytes)
    requires (t == STREAM_INPUT || t == STREAM_OUTPUT) && Extent(TailShape(t).pieces) <= |o|
    ensures RedundantOffset(KeptTail(t, o)) == RedundantOffset(o)
  {
    hide TailShape, KeptTail, WordAt, Place;
    StreamLists(t);
    CountPlaces(t, 0);
    CountPlaces(t, 1);
    WordKept(t, o, CountPiece(t, 0), 80);
    WordKept(t, o, CountPiece(t, 1), 130);
  }

  /** A control parsed and serialized: the payload is cut to as many octets as it counted values, and what is left
      is counted again. */
  lemma ControlCut(o: bytes)
    requires TailWritten(CONTROL, o)
    ensures |o| >= 100 && |KeptTail(CONTROL, o)| >= 100
    ensures WordAt(KeptTail(CONTROL, o), 76) == WordAt(o, 76)
    ensures KeptTail(CONTROL, o)[100..] == ParsedPayload(WordAt(o, 76), o[100..])
    ensures KeptTail(CONTROL, o)[92..94] == U16(CutCount(o))
    ensures WordAt(KeptTail(CONTROL, o), 92) == CountValues(WordAt(o, 76), KeptTail(CONTROL, o)[100..])
  {
    hide TailShape, KeptTail, Place, RewriteUpTo, CountValues, Cut, ParsedPayload, PieceWritten, Rewrite, CutCount;
    var o' := KeptTail(CONTROL, o);
    ControlShape();
    ControlCount(o);
    ControlStarts(13);
    KeptInParts(CONTROL, o);
    ControlStarts(5);
    WordKept(CONTROL, o, 5, 76);
    ControlStarts(9);
    ControlStarts(10);
    KeptPiece(CONTROL, o, 9);
    CountRewritten(o[92..94], o);
    CutCountIs(o);
    WordBack(o', 92, CutCount(o));
  }

  lemma KeptPieceWritten(t: nat, o: bytes, i: nat)
    requires TailWritten(t, o) && i < |TailShape(t).pieces|
    ensures PieceWritten(TailShape(t).pieces[i], Stretch(TailShape(t).pieces, KeptTail(t, o), i), KeptTail(t, o))
  {
    hide TailShape, KeptTail, Place, Stretch, CountValues, Cut, CutCount, F.Canon, RedundantOffset;
    TailCovered(t, o);
    KeptPiece(t, o, i);
    PiecesOf(t, i);
    var ps := TailShape(t).pieces;
    assert PieceWritten(ps[i], Stretch(ps, o, i), o);
    if ps[i].Redundant? {
      RedundantKept(t, o);
    } else if ps[i].ValueCount? {
      ControlCut(o);
      CountRewritten(Stretch(ps, o, i), o);
    }
  }

  /** One trip leaves octets a serializer writes. */
  lemma KeptWritten(t: nat, o: bytes)
    requires TailWritten(t, o)
    ensures TailWritten(t, KeptTail(t, o))
  {
    hide TailShape, KeptTail, Place, Stretch, PieceWritten, ListsLength, RewriteUpTo;
    var s, o' := TailShape(t), KeptTail(t, o);
    TailCovered(t, o);
    KeptInParts(t, o);
    forall i | 0 <= i < |s.pieces| ensures PieceWritten(s.pieces[i], Stretch(s.pieces, o', i), o') {
      KeptPieceWritten(t, o, i);
    }
    if s.trailer.Lists? {
      ListsKept(t, o);
    }
  }

  /** Nothing gets longer. */
  lemma KeptNotLonger(t: nat, o: bytes)
    requires TailWritten(t, o)
    ensures |KeptTail(t, o)| <= |o|
  {
    hide TailShape, KeptTail, Place, RewriteUpTo, ListsLength, PiecesWritten, ParsedPayload;
    if t == CONTROL {
      ControlCut(o);
      PayloadSurvives(WordAt(o, 76), o[100..]);
    } else {
      NoPayload(t);
      TailCovered(t, o);
      KeptInParts(t, o);
    }
  }

  lemma NoPayload(t: nat)
    requires t != CONTROL
    ensures !TailShape(t).trailer.Payload?
  {
  }

  // ---- trips come to rest ----

  lemma CanonTwiceIsClean(d: bytes)
    requires |d| == 64
    ensures CleanText(F.Canon(F.Text, F.Canon(F.Text, d)))
  {
    hide F.Canon, CleanText, Repacked;
    F.TextCanon(d);
    F.TextCanon(Repacked(d));
    TwoTripsSettle(d);
  }

  /** Strings are clean after two trips. */
  lemma KeptTwiceIsClean(t: nat, o: bytes)
    requires Extent(TailShape(t).pieces) <= |o|
    ensures Clean(TailShape(t).pieces, KeptTail(t, KeptTail(t, o)))
  {
    hide TailShape, KeptTail, Place, CleanText, Stretch, F.Canon;
    var ps, o' := TailShape(t).pieces, KeptTail(t, o);
    forall i | 0 <= i < |ps| && ps[i] == Own(F.Text) ensures CleanText(Stretch(ps, KeptTail(t, o'), i)) {
      KeptPiece(t, o, i);
      KeptPiece(t, o', i);
      CanonTwiceIsClean(Stretch(ps, o, i));
    }
  }

  /** Clean strings stay clean. */
  lemma CleanStays(t: nat, o: bytes)
    requires Extent(TailShape(t).pieces) <= |o| && Clean(TailShape(t).pieces, o)
    ensures Clean(TailShape(t).pieces, KeptTail(t, o))
  {
    hide TailShape, KeptTail, Place, CleanText, Stretch, F.Canon;
    var ps := TailShape(t).pieces;
    forall i | 0 <= i < |ps| && ps[i] == Own(F.Text) ensures CleanText(Stretch(ps, KeptTail(t, o), i)) {
      KeptPiece(t, o, i);
      F.TextCanon(Stretch(ps, o, i));
      FieldComesBack(Stretch(ps, o, i));
    }
  }

  /** Piece i of a kept head. */
  lemma KeptHeadPiece(t: nat, h: bytes, i: nat)
    requires |h| == Extent(HeadPieces(t)) && i < |HeadPieces(t)|
    ensures |KeptHead(t, h)| == Extent(HeadPieces(t))
    ensures Stretch(HeadPieces(t), KeptHead(t, h), i) == Rewrite(HeadPieces(t)[i], Stretch(HeadPieces(t), h, i), h)
  {
    hide HeadPieces, Place, RewriteUpTo, Rewrite;
    RewrittenPiece(HeadPieces(t), h, |HeadPieces(t)|, i);
  }

  lemma HeadTwiceIsClean(t: nat, h: bytes)
    requires |h| == Extent(HeadPieces(t))
    ensures Clean(HeadPieces(t), KeptHead(t, KeptHead(t, h)))
  {
    hide HeadPieces, Place, CleanText, F.Canon, KeptHead, Stretch;
    var ps, h' := HeadPieces(t), KeptHead(t, h);
    forall i | 0 <= i < |ps| && ps[i] == Own(F.Text) ensures CleanText(Stretch(ps, KeptHead(t, h'), i)) {
      KeptHeadPiece(t, h, i);
      KeptHeadPiece(t, h', i);
      CanonTwiceIsClean(Stretch(ps, h, i));
    }
  }

  /** The octets after n trips. */
  function TailTrips(t: nat, o: bytes, n: nat): (r: bytes)
    decreases n
  {
    if n == 0 then o else TailTrips(t, KeptTail(t, o), n - 1)
  }

  lemma {:induction false} Stays(t: nat, o: bytes, n: nat)
    requires TailWritten(t, o) && Survives(t, o)
    ensures TailTrips(t, o, n) == o
    decreases n
  {
    hide TailWritten, Survives, KeptTail;
    if n > 0 {
      TailsKept(t, o);
      Stays(t, o, n - 1);
    }
  }

  /** A payload that does not fit comes back shorter. */
  lemma ControlShrinks(o: bytes)
    requires TailWritten(CONTROL, o) && Clean(TailShape(CONTROL).pieces, o)
    ensures |o| >= 100
    ensures Survives(CONTROL, o) || |KeptTail(CONTROL, o)| < |o|
  {
    hide TailWritten, TailShape, KeptTail, CountValues, PayloadFits, ParsedPayload, Clean, CutCount;
    ControlCut(o);
    PayloadSurvives(WordAt(o, 76), o[100..]);
  }

  lemma {:induction false} ControlsComeToRest(o: bytes, n: nat)
    requires TailWritten(CONTROL, o) && Clean(TailShape(CONTROL).pieces, o) && n + 100 >= |o|
    ensures Survives(CONTROL, TailTrips(CONTROL, o, n))
    decreases n
  {
    hide TailWritten, TailShape, KeptTail, Clean, Survives;
    ControlShrinks(o);
    if Survives(CONTROL, o) {
      Stays(CONTROL, o, n);
    } else {
      KeptWritten(CONTROL, o);
      TailCovered(CONTROL, o);
      CleanStays(CONTROL, o);
      ControlCovered(KeptTail(CONTROL, o));
      ControlsComeToRest(KeptTail(CONTROL, o), n - 1);
    }
  }

  lemma ControlCovered(o: bytes)
    requires TailWritten(CONTROL, o)
    ensures |o| >= 100
  {
    hide TailWritten, TailShape, Place;
    TailCovered(CONTROL, o);
    ControlShape();
    ControlStarts(13);
  }

  lemma ClusterAtRest(t: nat, o: bytes)
    requires TailWritten(t, o) && (t == VIDEO_CLUSTER || t == SENSOR_CLUSTER) && Clean(TailShape(t).pieces, KeptTail(t, o))
    ensures Survives(t, KeptTail(t, o))
  {
    hide TailWritten, TailShape, KeptTail, Place, Clean, Rewrite, RewriteUpTo;
    var o' := KeptTail(t, o);
    TailCovered(t, o);
    ClusterShape(t);
    ClusterStarts(9);
    ClusterStarts(10);
    KeptInParts(t, o);
    KeptPiece(t, o, 9);
    LostRewritten(Stretch(CLUSTER_PIECES, o, 9), o);
    assert o'[84..] == o'[84..86];
  }

  lemma PlainAtRest(t: nat, o: bytes)
    requires Clean(TailShape(t).pieces, o) && !Lossy(t)
    ensures Survives(t, o)
  {
    hide Clean, TailShape;
  }

  lemma TwoTrips(t: nat, o: bytes, n: nat)
    requires n >= 2
    ensures TailTrips(t, o, n) == TailTrips(t, KeptTail(t, KeptTail(t, o)), n - 2)
  {
    hide KeptTail;
  }

  /** After more trips than there are octets, and at least two, nothing changes any more. */
  lemma TailsComeToRest(t: nat, o: bytes, n: nat)
    requires TailWritten(t, o) && n > |o| && n >= 2
    ensures Survives(t, TailTrips(t, o, n))
  {
    hide TailWritten, TailShape, KeptTail, Clean, Survives, TailTrips;
    var o1 := KeptTail(t, o);
    var o2 := KeptTail(t, o1);
    TailCovered(t, o);
    KeptWritten(t, o);
    KeptWritten(t, o1);
    KeptTwiceIsClean(t, o);
    TwoTrips(t, o, n);
    if t == CONTROL {
      KeptNotLonger(t, o);
      KeptNotLonger(t, o1);
      ControlsComeToRest(o2, n - 2);
    } else {
      if t == VIDEO_CLUSTER || t == SENSOR_CLUSTER {
        ClusterAtRest(t, o1);
      } else {
        PlainAtRest(t, o2);
      }
      Stays(t, o2, n - 2);
    }
  }
}
