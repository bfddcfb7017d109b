/** Which of a descriptor's own octets a parser keeps: the octets of every descriptor type after parsing and
    serializing again. */
module Layouts {
  import opened Wire
  import opened AemModel
  import opened Pools
  import F = Fields
  import opened ControlValues
  import opened Utf8

  /** A stretch of octets around the computed ranges: a field that is parsed and written back, octets that are
      written but not read, the offset of a stream's redundant list, the value count of a control, or octets
      that are neither read nor written back. */
  datatype Piece = Own(k: F.Kind) | Const(octets: bytes) | Redundant | ValueCount | Lost(n: nat)

  /** What follows: nothing; lists, given by the place of their count and the width of an element; octets kept
      to the end; the payload of a control; or octets that no parser reads. */
  datatype Trailer = Nothing | Lists(lists: seq<(nat, nat)>) | Rest | Payload | Dropped

  datatype Shape = Shape(pieces: seq<Piece>, trailer: Trailer)

  function PieceWidth(p: Piece): (w: nat) {
    match p
    case Own(k) => F.Width(k)
    case Const(o) => |o|
    case Redundant => 2
    case ValueCount => 2
    case Lost(n) => n
  }

  function Owned(ks: seq<F.Kind>): (ps: seq<Piece>)
    ensures |ps| == |ks| && forall i :: 0 <= i < |ks| ==> ps[i] == Own(ks[i])
  {
    seq(|ks|, i requires 0 <= i < |ks| => Own(ks[i]))
  }

  const N2 := F.Number(2)
  const N4 := F.Number(4)
  const E8 := F.Eui(8)
  const NAMED: seq<F.Kind> := [F.Text, F.Reference]

  /** The own fields before the ranges. Leaves keep all of theirs in the tail. */
  function HeadPieces(t: nat): (ps: seq<Piece>) {
    if t == ENTITY then Owned(F.ENTITY)
    else if t == CONFIGURATION then Owned(NAMED)
    else if AUDIO_UNIT <= t <= SENSOR_UNIT then Owned(NAMED + [N2])
    else if STREAM_PORT_INPUT <= t <= INTERNAL_PORT_OUTPUT then Owned([N2, N2])
    else if t == AVB_INTERFACE then Owned(F.AVB_INTERFACE)
    else if t == CONTROL_BLOCK then Owned(NAMED)
    else if t == LOCALE then Owned([F.Text])
    else if t == PTP_INSTANCE then Owned(NAMED + [E8, N4, N2, N2])
    else []
  }

  const CLUSTER_PIECES: seq<Piece> :=
    [Own(F.Text), Own(F.Reference), Own(N2), Own(N2), Own(N2), Own(N4), Own(N4), Own(N2), Const([0, 86]), Lost(2)]
  const CONTROL_PIECES: seq<Piece> :=
    [Own(F.Text), Own(F.Reference), Own(N4), Own(N4), Own(N2), Own(N2), Own(E8), Own(N4), Const([0, 104]), ValueCount,
     Own(N2), Own(N2), Own(N2)]
  const STREAM_PIECES: seq<Piece> :=
    [Own(F.Text), Own(F.Reference), Own(N2), Own(N2), Own(E8), Const([0, 138]), Own(N2), Own(E8), Own(N2), Own(E8), Own(N2),
     Own(E8), Own(N2), Own(E8), Own(N2), Own(N2), Own(N4), Redundant, Own(N2), Own(N2)]
  const LISTED_PIECES: seq<Piece> := [Own(F.Text), Own(F.Reference), Own(N2), Const([0, 76]), Own(N2)]
  const SELECTOR_PIECES: seq<Piece> :=
    [Own(F.Text), Own(F.Reference), Own(N4), Own(N4), Own(N2), Const([0, 96]), Own(N2), Own(N2), Own(N2), Own(N2), Own(N2), Own(N2),
     Own(N2)]
  const MATRIX_PIECES: seq<Piece> :=
    [Own(F.Text), Own(F.Reference), Own(N4), Own(N4), Own(N2), Own(N2), Own(E8), Own(N2), Own(N2), Const([0, 102]), Own(N2), Own(N2),
     Own(N2)]

  /** The own fields after the ranges; all the fields of a leaf. */
  function TailShape(t: nat): (s: Shape) {
    if t == AUDIO_UNIT then Shape([Const(Zeros(36)), Own(N4), Const([0, 144]), Own(N2)], Lists([(42, 4)]))
    else if t == VIDEO_UNIT || t == SENSOR_UNIT then Shape([Const(Zeros(36))], Nothing)
    else if EXTERNAL_PORT_INPUT <= t <= INTERNAL_PORT_OUTPUT then Shape(Owned([N2, N2, N2, N4, N2]), Nothing)
    else if t == CONTROL_BLOCK then Shape(Owned([N2, N2, N2, N2]), Nothing)
    else if t in {STREAM_PORT_INPUT, STREAM_PORT_OUTPUT, AVB_INTERFACE, LOCALE, PTP_INSTANCE} then Shape([], Nothing)
    else if t == STREAM_INPUT || t == STREAM_OUTPUT then Shape(STREAM_PIECES, Lists([(80, 8), (130, 2)]))
    else if t == JACK_INPUT || t == JACK_OUTPUT then Shape(Owned(NAMED + [N2, N2]) + [Const(Zeros(4))], Nothing)
    else if t == CLOCK_SOURCE then Shape(Owned(F.CLOCK_SOURCE), Nothing)
    else if t == CLOCK_DOMAIN || t == TIMING then Shape(LISTED_PIECES, Lists([(70, 2)]))
    else if t == MEMORY_OBJECT then Shape(Owned(F.MEMORY_OBJECT), Nothing)
    else if t == STRINGS then Shape(Owned([F.Text, F.Text, F.Text, F.Text, F.Text, F.Text, F.Text]), Nothing)
    else if t == AUDIO_CLUSTER then Shape(Owned(F.AUDIO_CLUSTER), Nothing)
    else if t == VIDEO_CLUSTER || t == SENSOR_CLUSTER then Shape(CLUSTER_PIECES, Dropped)
    else if t == AUDIO_MAP || t == VIDEO_MAP then Shape([Const([0, 8]), Own(N2)], Lists([(2, 8)]))
    else if t == SENSOR_MAP then Shape([Const([0, 8]), Own(N2)], Lists([(2, 6)]))
    else if t == CONTROL then Shape(CONTROL_PIECES, Payload)
    else if t == SIGNAL_SELECTOR then Shape(SELECTOR_PIECES, Lists([(78, 6)]))
    else if t == MATRIX then Shape(MATRIX_PIECES, Rest)
    else if t == PTP_PORT then Shape(Owned(NAMED + [N2, N2, N4, N2, F.Eui(6)]), Nothing)
    else Shape([], Rest)
  }

  // ---- pieces ----

  /** Where piece n starts. */
  function Place(ps: seq<Piece>, n: nat): (p: nat)
    requires n <= |ps|
  {
    if n == 0 then 0 else Place(ps, n - 1) + PieceWidth(ps[n - 1])
  }

  lemma {:induction false} PlacesGrow(ps: seq<Piece>, i: nat, n: nat)
    requires i <= n <= |ps|
    ensures Place(ps, i) <= Place(ps, n)
  {
    if i < n { PlacesGrow(ps, i, n - 1); }
  }

  function Extent(ps: seq<Piece>): (n: nat) { Place(ps, |ps|) }

  /** The octets of piece i. */
  function Stretch(ps: seq<Piece>, o: bytes, i: nat): (d: bytes)
    requires i < |ps|
    ensures |d| == PieceWidth(ps[i])
  {
    if Place(ps, i + 1) <= |o| then o[Place(ps, i)..Place(ps, i + 1)] else Zeros(PieceWidth(ps[i]))
  }

  function WordAt(o: bytes, p: nat): (v: nat)
    ensures v < 0x1_0000
  {
    if p + 2 <= |o| then U16At(o, p) else 0
  }

  /** Where a stream's redundant list starts, counted from the start of the descriptor; 0 without one. */
  function RedundantOffset(o: bytes): (v: nat) {
    if WordAt(o, 130) > 0 then 138 + 8 * WordAt(o, 80) else 0
  }

  /** The payload a control parser takes: as many octets as the count says, as far as there are. */
  function Cut(o: bytes): (r: bytes)
    requires |o| >= 100
  {
    var n := WordAt(o, 92);
    if 100 + n < |o| then o[100..100 + n] else o[100..]
  }

  /** The count after the cut: that of the octets that are left. */
  function CutCount(o: bytes): (n: nat)
    requires |o| >= 100
    ensures n < 0x1_0000
  {
    CutCountFits(o);
    CountValues(WordAt(o, 76), Cut(o))
  }

  lemma CutCountFits(o: bytes)
    requires |o| >= 100
    ensures CountValues(WordAt(o, 76), Cut(o)) < 0x1_0000
  {
    if Cut(o) == [] {
      NothingCounted(WordAt(o, 76));
    } else {
      CountIsSmaller(WordAt(o, 76), Cut(o));
    }
  }

  lemma NothingCounted(t: nat)
    ensures CountValues(t, []) == 0
  {
  }

  /** A piece after parsing and serializing. */
  function Rewrite(p: Piece, d: bytes, o: bytes): (r: bytes)
    requires |d| == PieceWidth(p)
    ensures |r| == |d|
  {
    match p
    case Own(k) => if F.WfKind(k) then F.Canon(k, d) else d
    case Const(c) => c
    case Redundant => U16(RedundantOffset(o) % 0x1_0000)
    case ValueCount => if |o| < 100 then d else U16(CutCount(o))
    case Lost(n) => Zeros(n)
  }

  function RewriteUpTo(ps: seq<Piece>, o: bytes, n: nat): (r: bytes)
    requires n <= |ps| && Place(ps, n) <= |o|
    ensures |r| == Place(ps, n)
  {
    if n == 0 then [] else
      RewriteUpTo(ps, o, n - 1) + Rewrite(ps[n - 1], Stretch(ps, o, n - 1), o)
  }

  /** The piece holds what a serializer writes there: a field holds whatever its value packs to. */
  predicate PieceWritten(p: Piece, d: bytes, o: bytes) {
    match p
    case Const(c) => d == c
    case Redundant => RedundantOffset(o) < 0x1_0000 && d == U16(RedundantOffset(o))
    case ValueCount => |o| >= 100 && d == o[92..94] && WordAt(o, 92) == CountValues(WordAt(o, 76), o[100..])
    case _ => true
  }

  predicate PiecesWritten(ps: seq<Piece>, o: bytes) {
    && Extent(ps) <= |o|
    && forall i :: 0 <= i < |ps| ==> PieceWritten(ps[i], Stretch(ps, o, i), o)
  }

  /** Where the pieces start, as a list. */
  predicate StartsAre(ps: seq<Piece>, at: seq<nat>) {
    && |at| == |ps| + 1 && at[0] == 0
    && forall i :: 0 <= i < |ps| ==> at[i + 1] == at[i] + PieceWidth(ps[i])
  }

  lemma {:induction false} PlacesAre(ps: seq<Piece>, at: seq<nat>, n: nat)
    requires StartsAre(ps, at) && n <= |ps|
    ensures Place(ps, n) == at[n]
  {
    if n > 0 { PlacesAre(ps, at, n - 1); }
  }

  /** Piece i comes back as it was. */
  predicate Unchanged(ps: seq<Piece>, o: bytes, i: nat)
    requires i < |ps|
  {
    Rewrite(ps[i], Stretch(ps, o, i), o) == Stretch(ps, o, i)
  }

  lemma StretchSplits(ps: seq<Piece>, o: bytes, lo: nat, n: nat)
    requires lo <= n < |ps| && Place(ps, n + 1) <= |o|
    ensures Place(ps, lo) <= Place(ps, n) <= Place(ps, n + 1)
    ensures o[Place(ps, lo)..Place(ps, n + 1)] == o[Place(ps, lo)..Place(ps, n)] + Stretch(ps, o, n)
  {
    PlacesGrow(ps, lo, n);
  }

  lemma NoPlace(ps: seq<Piece>)
    ensures Place(ps, 0) == 0
  {
  }

  /** The pieces come back exactly when each of them does. */
  lemma {:induction false} PiecesUnchanged(ps: seq<Piece>, o: bytes, n: nat)
    requires n <= |ps| && Place(ps, n) <= |o|
    ensures RewriteUpTo(ps, o, n) == o[..Place(ps, n)] <==> forall i :: 0 <= i < n ==> Unchanged(ps, o, i)
  {
    hide Rewrite, Stretch, Place;
    NoPlace(ps);
    if n > 0 {
      StretchSplits(ps, o, 0, n - 1);
      var r, d := RewriteUpTo(ps, o, n - 1), Stretch(ps, o, n - 1);
      PiecesUnchanged(ps, o, n - 1);
      SameParts(r, Rewrite(ps[n - 1], d, o), o[..Place(ps, n - 1)], d);
      assert (forall i :: 0 <= i < n ==> Unchanged(ps, o, i))
             <==> Unchanged(ps, o, n - 1) && forall i :: 0 <= i < n - 1 ==> Unchanged(ps, o, i);
    }
  }

  lemma SameParts<X>(a: seq<X>, b: seq<X>, c: seq<X>, d: seq<X>)
    requires |a| == |c|
    ensures a + b == c + d <==> a == c && b == d
  {
    if a + b == c + d {
      assert (a + b)[..|a|] == a && (c + d)[..|a|] == c;
      assert (a + b)[|a|..] == b && (c + d)[|a|..] == d;
    }
  }

  /** What has been rewritten stands where the piece stood. */
  lemma {:induction false} RewrittenPiece(ps: seq<Piece>, o: bytes, n: nat, i: nat)
    requires i < n <= |ps| && Place(ps, n) <= |o|
    ensures Place(ps, i) <= Place(ps, i + 1) <= Place(ps, n)
    ensures RewriteUpTo(ps, o, n)[Place(ps, i)..Place(ps, i + 1)] == Rewrite(ps[i], Stretch(ps, o, i), o)
  {
    hide Rewrite, Stretch, Place, RewriteUpTo;
    RewriteStep(ps, o, n);
    PlacesGrow(ps, i + 1, n);
    var r, x := RewriteUpTo(ps, o, n - 1), Rewrite(ps[n - 1], Stretch(ps, o, n - 1), o);
    if i < n - 1 {
      PlacesGrow(ps, i + 1, n - 1);
      RewrittenPiece(ps, o, n - 1, i);
      SliceOfFront(r, x, Place(ps, i), Place(ps, i + 1));
    } else {
      SliceOfBack(r, x);
    }
  }

  lemma RewriteStep(ps: seq<Piece>, o: bytes, n: nat)
    requires 0 < n <= |ps| && Place(ps, n) <= |o|
    ensures Place(ps, n - 1) <= Place(ps, n) == Place(ps, n - 1) + PieceWidth(ps[n - 1])
    ensures RewriteUpTo(ps, o, n) == RewriteUpTo(ps, o, n - 1) + Rewrite(ps[n - 1], Stretch(ps, o, n - 1), o)
  {
    hide Rewrite, Stretch;
  }

  lemma SliceOfFront(r: bytes, x: bytes, a: nat, b: nat)
    requires a <= b <= |r|
    ensures (r + x)[a..b] == r[a..b]
  {
  }

  lemma SliceOfBack(r: bytes, x: bytes)
    ensures (r + x)[|r|..|r| + |x|] == x
  {
  }

  // ---- whole tails and heads ----

  function Padded(o: bytes, n: nat): (r: bytes)
    ensures |r| >= n && (|o| >= n ==> r == o)
  {
    if |o| >= n then o else o + Zeros(n - |o|)
  }

  /** The octets of the lists whose counts stand in o. */
  function ListsLength(ls: seq<(nat, nat)>, o: bytes): (n: nat) {
    if ls == [] then 0 else ListsLength(ls[..|ls| - 1], o) + WordAt(o, ls[|ls| - 1].0) * ls[|ls| - 1].1
  }

  function KeptTrailer(s: Shape, o: bytes): (r: bytes)
    requires Extent(s.pieces) <= |o|
  {
    var e := Extent(s.pieces);
    match s.trailer
    case Nothing => []
    case Dropped => []
    case Rest => o[e..]
    case Payload => if |o| < 100 then [] else Cut(o)
    case Lists(ls) => if e + ListsLength(ls, o) <= |o| then o[e..e + ListsLength(ls, o)] else o[e..]
  }

  /** The octets after a descriptor's ranges, parsed and serialized. What no number is read from may be missing. */
  function KeptTail(t: nat, tail: bytes): (r: bytes) {
    var s := TailShape(t);
    var o := Padded(tail, Extent(s.pieces));
    RewriteUpTo(s.pieces, o, |s.pieces|) + KeptTrailer(s, o)
  }

  function KeptHead(t: nat, head: bytes): (r: bytes) {
    var ps := HeadPieces(t);
    RewriteUpTo(ps, Padded(head, Extent(ps)), |ps|)
  }

  /** What a decompiled descriptor is, as octets. */
  function Settled(t: nat, b: Body): (r: Body) {
    Body(KeptHead(t, b.head), b.ranges, KeptTail(t, b.tail))
  }

  /** The octets are what the serializer of the type writes after the ranges. */
  predicate TailWritten(t: nat, o: bytes) {
    var s := TailShape(t);
    && PiecesWritten(s.pieces, o)
    && (match s.trailer
        case Nothing => |o| == Extent(s.pieces)
        case Lists(ls) => |o| == Extent(s.pieces) + ListsLength(ls, o)
        case _ => true)
  }

  // ---- what comes back ----

  /** The string fields come back: see CleanText. */
  predicate Clean(ps: seq<Piece>, o: bytes) {
    forall i :: 0 <= i < |ps| && ps[i] == Own(F.Text) ==> CleanText(Stretch(ps, o, i))
  }

  /** What a tail must satisfy to come back: clean strings; for a control a payload that fits; for a video or
      sensor cluster no format octets. */
  predicate Survives(t: nat, o: bytes) {
    && Clean(TailShape(t).pieces, o)
    && (t == CONTROL ==> |o| >= 100 && PayloadFits(WordAt(o, 76), o[100..]))
    && (t == VIDEO_CLUSTER || t == SENSOR_CLUSTER ==> |o| == 86 && o[84..] == [0, 0])
  }

  predicate Plain(p: Piece) {
    p.Own? || p.Const? || p.Redundant?
  }

  lemma PlainUnchanged(p: Piece, d: bytes, o: bytes)
    requires |d| == PieceWidth(p) && PieceWritten(p, d, o) && Plain(p)
    ensures Rewrite(p, d, o) == d <==> p == Own(F.Text) ==> CleanText(d)
  {
    hide F.Canon, F.WfKind, CleanText, CutCount, Cut, CountValues, RedundantOffset, WordAt, U16, Zeros, Repacked;
    if p == Own(F.Text) {
      TextIsKind();
      F.TextCanon(d);
      FieldComesBack(d);
    } else if p.Own? && F.WfKind(p.k) {
      F.CanonKeepsNumbers(p.k, d);
    }
  }

  lemma TextIsKind()
    ensures F.WfKind(F.Text) && F.Width(F.Text) == 64
  {
  }

  predicate Lossy(t: nat) {
    t in {CONTROL, VIDEO_CLUSTER, SENSOR_CLUSTER}
  }

  lemma PlainShapes(t: nat)
    ensures forall i :: 0 <= i < |HeadPieces(t)| ==> HeadPieces(t)[i].Own?
    ensures !Lossy(t) ==> !TailShape(t).trailer.Payload? && !TailShape(t).trailer.Dropped?
    ensures !Lossy(t) ==> forall i :: 0 <= i < |TailShape(t).pieces| ==> Plain(TailShape(t).pieces[i])
  {
  }

  lemma PlainPieces(ps: seq<Piece>, o: bytes)
    requires PiecesWritten(ps, o) && forall i :: 0 <= i < |ps| ==> Plain(ps[i])
    ensures RewriteUpTo(ps, o, |ps|) == o[..Extent(ps)] <==> Clean(ps, o)
  {
    hide Rewrite, PieceWritten, Stretch, Place, CleanText;
    PiecesUnchanged(ps, o, |ps|);
    forall i | 0 <= i < |ps|
      ensures Unchanged(ps, o, i) <==> ps[i] == Own(F.Text) ==> CleanText(Stretch(ps, o, i))
    {
      PlainUnchanged(ps[i], Stretch(ps, o, i), o);
    }
  }

  /** A head comes back exactly when its strings are clean. */
  lemma HeadsKept(t: nat, h: bytes)
    requires |h| == Extent(HeadPieces(t))
    ensures KeptHead(t, h) == h <==> Clean(HeadPieces(t), h)
  {
    hide HeadPieces;
    PlainShapes(t);
    PlainPieces(HeadPieces(t), h);
    assert h[..|h|] == h;
  }

  lemma KeptInParts(t: nat, o: bytes)
    requires Extent(TailShape(t).pieces) <= |o|
    ensures KeptTail(t, o) == RewriteUpTo(TailShape(t).pieces, o, |TailShape(t).pieces|) + KeptTrailer(TailShape(t), o)
  {
    hide TailShape, RewriteUpTo, KeptTrailer, Place;
  }

  lemma TailCovered(t: nat, o: bytes)
    requires TailWritten(t, o)
    ensures Extent(TailShape(t).pieces) <= |o|
  {
    hide TailShape, PieceWritten, Stretch, Place;
  }

  lemma TailSplits(t: nat, o: bytes)
    requires TailWritten(t, o)
    ensures var s := TailShape(t);
            Extent(s.pieces) <= |o|
            && (KeptTail(t, o) == o <==> RewriteUpTo(s.pieces, o, |s.pieces|) == o[..Extent(s.pieces)]
                                         && KeptTrailer(s, o) == o[Extent(s.pieces)..])
  {
    hide TailShape, RewriteUpTo, KeptTrailer, KeptTail, TailWritten, Place;
    TailCovered(t, o);
    KeptInParts(t, o);
    var s := TailShape(t);
    var e := Extent(s.pieces);
    SameParts(RewriteUpTo(s.pieces, o, |s.pieces|), KeptTrailer(s, o), o[..e], o[e..]);
    assert o == o[..e] + o[e..];
  }

  lemma PlainTailsKept(t: nat, o: bytes)
    requires TailWritten(t, o) && !Lossy(t)
    ensures KeptTail(t, o) == o <==> Survives(t, o)
  {
    hide TailShape, RewriteUpTo, Stretch, PieceWritten, KeptTail, Clean;
    PlainShapes(t);
    TailSplits(t, o);
    PlainPieces(TailShape(t).pieces, o);
  }

  // ---- video and sensor clusters ----

  const CLUSTER_AT: seq<nat> := [0, 64, 66, 68, 70, 72, 76, 80, 82, 84, 86]

  lemma ClusterStarts(n: nat)
    requires n <= |CLUSTER_PIECES|
    ensures Place(CLUSTER_PIECES, n) == CLUSTER_AT[n]
  {
    hide Place;
    ClusterConsecutive();
    PlacesAre(CLUSTER_PIECES, CLUSTER_AT, n);
  }

  lemma ClusterConsecutive()
    ensures StartsAre(CLUSTER_PIECES, CLUSTER_AT)
  {
  }

  lemma ClusterShape(t: nat)
    requires t == VIDEO_CLUSTER || t == SENSOR_CLUSTER
    ensures TailShape(t) == Shape(CLUSTER_PIECES, Dropped)
    ensures |CLUSTER_PIECES| == 10 && CLUSTER_PIECES[9] == Lost(2)
    ensures forall i :: 0 <= i < 9 ==> Plain(CLUSTER_PIECES[i])
  {
  }

  /** A cluster comes back exactly when its strings are clean and it has no formats. */
  lemma ClustersKept(t: nat, o: bytes)
    requires TailWritten(t, o) && (t == VIDEO_CLUSTER || t == SENSOR_CLUSTER)
    ensures KeptTail(t, o) == o <==> Survives(t, o)
  {
    hide TailShape, RewriteUpTo, Rewrite, Place, PieceWritten, KeptTail, CleanText;
    var ps := CLUSTER_PIECES;
    ClusterShape(t);
    ClusterStarts(9);
    ClusterStarts(10);
    TailSplits(t, o);
    PiecesUnchanged(ps, o, 10);
    forall i | 0 <= i < 9 ensures Unchanged(ps, o, i) <==> ps[i] == Own(F.Text) ==> CleanText(Stretch(ps, o, i)) {
      PlainUnchanged(ps[i], Stretch(ps, o, i), o);
    }
    assert Unchanged(ps, o, 9) <==> o[84..86] == [0, 0] by {
      LostRewritten(o[84..86], o);
    }
    assert Survives(t, o) ==> o[84..86] == o[84..];
    assert |o| == 86 ==> o[84..86] == o[84..];
  }

  lemma LostRewritten(d: bytes, o: bytes)
    requires |d| == 2
    ensures Rewrite(Lost(2), d, o) == [0, 0]
  {
    assert Zeros(2) == [0, 0];
  }

  // ---- controls ----

  const CONTROL_AT: seq<nat> := [0, 64, 66, 70, 74, 76, 78, 86, 90, 92, 94, 96, 98, 100]

  lemma ControlStarts(n: nat)
    requires n <= |CONTROL_PIECES|
    ensures Place(CONTROL_PIECES, n) == CONTROL_AT[n]
  {
    hide Place;
    ControlConsecutive();
    PlacesAre(CONTROL_PIECES, CONTROL_AT, n);
  }

  lemma ControlConsecutive()
    ensures StartsAre(CONTROL_PIECES, CONTROL_AT)
  {
  }

  lemma ControlShape()
    ensures TailShape(CONTROL) == Shape(CONTROL_PIECES, Payload)
    ensures |CONTROL_PIECES| == 13 && CONTROL_PIECES[9] == ValueCount
    ensures forall i :: 0 <= i < 13 && i != 9 ==> Plain(CONTROL_PIECES[i])
  {
  }

  lemma CountRewritten(d: bytes, o: bytes)
    requires |o| >= 100 && |d| == 2
    ensures Rewrite(ValueCount, d, o) == U16(CutCount(o))
  {
    hide CutCount;
  }

  lemma ControlCount(o: bytes)
    requires TailWritten(CONTROL, o)
    ensures |o| >= 100 && WordAt(o, 92) == CountValues(WordAt(o, 76), o[100..])
    ensures Cut(o) == ParsedPayload(WordAt(o, 76), o[100..])
  {
    hide TailShape, Place, Stretch, CountValues;
    ControlShape();
    ControlStarts(13);
    assert PieceWritten(CONTROL_PIECES[9], Stretch(CONTROL_PIECES, o, 9), o);
  }

  lemma WordBack(o: bytes, p: nat, v: nat)
    requires p + 2 <= |o| && v < 0x1_0000
    ensures U16(v) == o[p..p + 2] <==> WordAt(o, p) == v
  {
    assert o[p..p + 2] == [o[p], o[p + 1]];
  }

  /** A control comes back exactly when its strings are clean and its payload fits. */
  lemma ControlsKept(o: bytes)
    requires TailWritten(CONTROL, o)
    ensures KeptTail(CONTROL, o) == o <==> Survives(CONTROL, o)
  {
    hide TailShape, RewriteUpTo, Rewrite, Place, PieceWritten, KeptTail, CleanText, CountValues, PayloadFits, Cut, ParsedPayload, CutCount;
    var ps := CONTROL_PIECES;
    ControlShape();
    ControlStarts(9);
    ControlStarts(10);
    ControlStarts(13);
    TailSplits(CONTROL, o);
    ControlCount(o);
    PiecesUnchanged(ps, o, 13);
    forall i | 0 <= i < 13 && i != 9 ensures Unchanged(ps, o, i) <==> ps[i] == Own(F.Text) ==> CleanText(Stretch(ps, o, i)) {
      PlainUnchanged(ps[i], Stretch(ps, o, i), o);
    }
    PayloadSurvives(WordAt(o, 76), o[100..]);
    assert Unchanged(ps, o, 9) <==> CutCount(o) == WordAt(o, 92) by {
      CountRewritten(o[92..94], o);
      WordBack(o, 92, CutCount(o));
    }
    CutCountIs(o);
  }

  lemma CutCountIs(o: bytes)
    requires |o| >= 100
    ensures CutCount(o) == CountValues(WordAt(o, 76), Cut(o))
  {
  }

  /** The octets of a descriptor's own fields come back exactly when they survive. */
  lemma TailsKept(t: nat, o: bytes)
    requires TailWritten(t, o)
    ensures KeptTail(t, o) == o <==> Survives(t, o)
  {
    hide TailWritten, KeptTail, Survives;
    if t == CONTROL {
      ControlsKept(o);
    } else if t == VIDEO_CLUSTER || t == SENSOR_CLUSTER {
      ClustersKept(t, o);
    } else {
      PlainTailsKept(t, o);
    }
  }
}
