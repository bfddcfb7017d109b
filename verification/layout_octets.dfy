/** How long each descriptor is, and what its offset words say, read from its octets. */
module LayoutOctets {
  import opened Wire
  import opened AemModel
  import opened Pools
  import opened Codec
  import opened Compiler
  import F = Fields
  import V = ControlValues
  import opened Layouts
  import opened LayoutTrips
  import opened Settle
  import opened AemTheorems

  /** The word at `at` is the offset of a list that starts there, and its count follows. */
  predicate OffsetAndCount(w: bytes, at: nat, offset: nat, width: nat) {
    |w| >= at + 4 && U16At(w, at) == offset && |w| == offset + width * U16At(w, at + 2)
  }

  /** The length of a descriptor with its lists, and the constant words in it. */
  predicate Sized(t: nat, w: bytes) {
    match t
    case 0x02 => OffsetAndCount(w, 140, 144, 4) && forall i :: 100 <= i < 136 ==> w[i] == 0
    case 0x03 | 0x04 => |w| == 136 && forall i :: 100 <= i < 136 ==> w[i] == 0
    case 0x05 | 0x06 =>
      && |w| >= 138 && U16At(w, 82) == 138 && |w| == 138 + 8 * U16At(w, 84) + 2 * U16At(w, 134)
      && U16At(w, 132) == if U16At(w, 134) == 0 then 0 else 138 + 8 * U16At(w, 84)
    case 0x07 | 0x08 => |w| == 78 && forall i :: 74 <= i < 78 ==> w[i] == 0
    case 0x09 => |w| == 102
    case 0x0A => |w| == 86
    case 0x0B => |w| == 108
    case 0x0C => |w| == 72
    case 0x0D => |w| == 452
    case 0x0E | 0x0F => |w| == 20
    case 0x10 | 0x11 | 0x12 | 0x13 => |w| == 24
    case 0x14 => |w| == 90
    case 0x15 | 0x16 => |w| >= 90 && U16At(w, 86) == 86
    case 0x17 | 0x18 => OffsetAndCount(w, 4, 8, 8)
    case 0x19 => OffsetAndCount(w, 4, 8, 6)
    case 0x1A => |w| >= 104 && U16At(w, 94) == 104 && U16At(w, 96) == V.CountValues(U16At(w, 80), w[104..])
    case 0x1B => OffsetAndCount(w, 80, 96, 6)
    case 0x1D => |w| >= 102 && U16At(w, 94) == 102
    case 0x24 | 0x40 => OffsetAndCount(w, 72, 76, 2)
    case 0x25 => |w| == 82
    case 0x41 => |w| == 90
    case 0x42 => |w| == 86
    case _ => true
  }

  // ---- pieces at their places ----

  /** A constant piece, where the serializer writes it. */
  lemma ConstAt(ps: seq<Piece>, at: seq<nat>, o: bytes, i: nat)
    requires PiecesWritten(ps, o) && StartsAre(ps, at) && i < |ps| && ps[i].Const?
    ensures at[i] <= at[i + 1] <= at[|ps|] <= |o| && o[at[i]..at[i + 1]] == ps[i].octets
  {
    hide Place, StartsAre;
    StartsGrow(ps, at, i);
    PlacesAre(ps, at, i);
    PlacesAre(ps, at, i + 1);
    PlacesAre(ps, at, |ps|);
    PlacesGrow(ps, i, i + 1);
    PlacesGrow(ps, i + 1, |ps|);
    assert PieceWritten(ps[i], Stretch(ps, o, i), o);
  }

  lemma StartsGrow(ps: seq<Piece>, at: seq<nat>, i: nat)
    requires StartsAre(ps, at) && i < |ps|
    ensures |at| == |ps| + 1 && at[i + 1] == at[i] + PieceWidth(ps[i])
  {
  }

  lemma WordIs(o: bytes, p: nat, v: nat)
    requires p + 2 <= |o| && v < 256 && o[p..p + 2] == [0, v]
    ensures WordAt(o, p) == v
  {
    assert o[p] == o[p..p + 2][0] && o[p + 1] == o[p..p + 2][1];
  }

  /** A word after the ranges, seen from the start of the descriptor. */
  lemma WordFrom(w: bytes, m: nat, o: bytes, p: nat)
    requires m <= |w| && o == w[m..] && p + 2 <= |o|
    ensures U16At(w, m + p) == WordAt(o, p)
  {
  }

  // ---- tails ----

  lemma ListLengths(o: bytes, a: nat, n: nat, b: nat, m: nat)
    ensures ListsLength([(a, n)], o) == WordAt(o, a) * n
    ensures ListsLength([(a, n), (b, m)], o) == WordAt(o, a) * n + WordAt(o, b) * m
  {
    hide WordAt;
    var one, two := [(a, n)], [(a, n), (b, m)];
    assert one[..0] == [] && two[..1] == one;
    assert ListsLength(one[..0], o) == 0;
  }

  lemma UnitTail(o: bytes)
    requires TailWritten(AUDIO_UNIT, o)
    ensures |o| == 44 + 4 * WordAt(o, 42) && WordAt(o, 40) == 144 && forall i :: 0 <= i < 36 ==> o[i] == 0
  {
    hide WordAt, ListsLength, Place, PieceWritten, Stretch;
    var ps := TailShape(AUDIO_UNIT).pieces;
    UnitConsecutive();
    PlacesAre(ps, UNIT_AT, 4);
    ConstAt(ps, UNIT_AT, o, 0);
    ConstAt(ps, UNIT_AT, o, 2);
    WordIs(o, 40, 144);
    ListLengths(o, 42, 4, 0, 0);
    ZerosAt(o, 0, 36);
  }

  lemma ZerosAt(o: bytes, a: nat, n: nat)
    requires a + n <= |o| && o[a..a + n] == Zeros(n)
    ensures forall i :: a <= i < a + n ==> o[i] == 0
  {
    hide Zeros;
    ZerosAreZero(n);
    forall i | a <= i < a + n ensures o[i] == 0 {
      assert o[i] == o[a..a + n][i - a];
    }
  }

  lemma ZerosAreZero(n: nat)
    ensures |Zeros(n)| == n && forall i :: 0 <= i < n ==> Zeros(n)[i] == 0
  {
  }

  lemma OtherUnitTail(t: nat, o: bytes)
    requires TailWritten(t, o) && (t == VIDEO_UNIT || t == SENSOR_UNIT)
    ensures |o| == 36 && forall i :: 0 <= i < 36 ==> o[i] == 0
  {
    hide Place, PieceWritten, Stretch;
    var ps := TailShape(t).pieces;
    PlacesAre(ps, [0, 36], 1);
    ConstAt(ps, [0, 36], o, 0);
    ZerosAt(o, 0, 36);
  }

  lemma StreamTail(t: nat, o: bytes)
    requires TailWritten(t, o) && (t == STREAM_INPUT || t == STREAM_OUTPUT)
    ensures |o| == 134 + 8 * WordAt(o, 80) + 2 * WordAt(o, 130) && WordAt(o, 78) == 138
    ensures WordAt(o, 128) == if WordAt(o, 130) == 0 then 0 else 138 + 8 * WordAt(o, 80)
  {
    hide WordAt, ListsLength, Place, PieceWritten, Stretch, StartsAre;
    var ps := TailShape(t).pieces;
    assert ps == STREAM_PIECES && ps[17] == Redundant;
    StreamConsecutive();
    PlacesAre(ps, STREAM_AT, 20);
    ConstAt(ps, STREAM_AT, o, 5);
    WordIs(o, 78, 138);
    ListLengths(o, 80, 8, 130, 2);
    RedundantAt(o);
  }

  lemma RedundantAt(o: bytes)
    requires PiecesWritten(STREAM_PIECES, o)
    ensures |o| >= 134 && WordAt(o, 128) == RedundantOffset(o)
  {
    hide Place, RedundantOffset;
    var ps := STREAM_PIECES;
    StreamConsecutive();
    PlacesAre(ps, STREAM_AT, 17);
    PlacesAre(ps, STREAM_AT, 18);
    PlacesAre(ps, STREAM_AT, 20);
    assert PieceWritten(ps[17], Stretch(ps, o, 17), o);
    WordBack(o, 128, RedundantOffset(o));
  }

  lemma ListedTail(t: nat, o: bytes)
    requires TailWritten(t, o) && (t == CLOCK_DOMAIN || t == TIMING)
    ensures |o| == 72 + 2 * WordAt(o, 70) && WordAt(o, 68) == 76
  {
    hide WordAt, ListsLength, Place, PieceWritten, Stretch;
    var ps := TailShape(t).pieces;
    ListedConsecutive();
    PlacesAre(ps, LISTED_AT, 5);
    ConstAt(ps, LISTED_AT, o, 3);
    WordIs(o, 68, 76);
    ListLengths(o, 70, 2, 0, 0);
  }

  lemma SelectorTail(o: bytes)
    requires TailWritten(SIGNAL_SELECTOR, o)
    ensures |o| == 92 + 6 * WordAt(o, 78) && WordAt(o, 76) == 96
  {
    hide WordAt, ListsLength, Place, PieceWritten, Stretch;
    var ps := TailShape(SIGNAL_SELECTOR).pieces;
    SelectorConsecutive();
    PlacesAre(ps, SELECTOR_AT, 13);
    ConstAt(ps, SELECTOR_AT, o, 5);
    WordIs(o, 76, 96);
    ListLengths(o, 78, 6, 0, 0);
  }

  lemma MapTail(t: nat, o: bytes)
    requires TailWritten(t, o) && AUDIO_MAP <= t <= SENSOR_MAP
    ensures |o| == 4 + (if t == SENSOR_MAP then 6 else 8) * WordAt(o, 2) && WordAt(o, 0) == 8
  {
    hide WordAt, ListsLength, Place, PieceWritten, Stretch;
    var ps := TailShape(t).pieces;
    MapConsecutive(t);
    PlacesAre(ps, MAP_AT, 2);
    ConstAt(ps, MAP_AT, o, 0);
    WordIs(o, 0, 8);
    ListLengths(o, 2, if t == SENSOR_MAP then 6 else 8, 0, 0);
  }

  lemma ControlTail(o: bytes)
    requires TailWritten(CONTROL, o)
    ensures |o| >= 100 && WordAt(o, 90) == 104 && WordAt(o, 92) == V.CountValues(WordAt(o, 76), o[100..])
  {
    hide WordAt, Place, PieceWritten, Stretch, V.CountValues;
    ControlCount(o);
    ControlShape();
    ControlConsecutive();
    ConstAt(CONTROL_PIECES, CONTROL_AT, o, 8);
    WordIs(o, 90, 104);
  }

  const MATRIX_AT: seq<nat> := [0, 64, 66, 70, 74, 76, 78, 86, 88, 90, 92, 94, 96, 98]

  lemma MatrixConsecutive()
    ensures StartsAre(MATRIX_PIECES, MATRIX_AT)
  {
  }

  lemma MatrixTail(o: bytes)
    requires TailWritten(MATRIX, o)
    ensures |o| >= 98 && WordAt(o, 90) == 102
  {
    hide WordAt, Place, PieceWritten, Stretch;
    MatrixConsecutive();
    assert TailShape(MATRIX).pieces == MATRIX_PIECES;
    ConstAt(MATRIX_PIECES, MATRIX_AT, o, 9);
    WordIs(o, 90, 102);
  }

  lemma ClusterTail(t: nat, o: bytes)
    requires TailWritten(t, o) && (t == VIDEO_CLUSTER || t == SENSOR_CLUSTER)
    ensures |o| >= 86 && WordAt(o, 82) == 86
  {
    hide WordAt, Place, PieceWritten, Stretch;
    ClusterShape(t);
    ClusterConsecutive();
    ConstAt(CLUSTER_PIECES, CLUSTER_AT, o, 8);
    WordIs(o, 82, 86);
  }

  lemma JackTail(t: nat, o: bytes)
    requires TailWritten(t, o) && (t == JACK_INPUT || t == JACK_OUTPUT)
    ensures |o| == 74 && forall i :: 70 <= i < 74 ==> o[i] == 0
  {
    hide Place, PieceWritten, Stretch;
    var ps := TailShape(t).pieces;
    assert |ps| == 5 && ps[4] == Const(Zeros(4));
    PlacesAre(ps, [0, 64, 66, 68, 70, 74], 5);
    ConstAt(ps, [0, 64, 66, 68, 70, 74], o, 4);
    ZerosAt(o, 70, 4);
  }

  /** The descriptors without lists. */
  lemma FixedTails(t: nat, o: bytes)
    requires TailWritten(t, o)
    ensures t == CLOCK_SOURCE ==> |o| == 82
    ensures t == MEMORY_OBJECT ==> |o| == 104
    ensures t == AUDIO_CLUSTER ==> |o| == 86
  {
    hide Place, PieceWritten, Stretch, F.Offset;
    if t == CLOCK_SOURCE {
      OwnedExtent(F.CLOCK_SOURCE, 6);
      F.ClockSourceOffsets(6);
      LastPlace(Owned(F.CLOCK_SOURCE), 7);
    } else if t == MEMORY_OBJECT {
      OwnedExtent(F.MEMORY_OBJECT, 8);
      F.MemoryObjectOffsets(8);
      LastPlace(Owned(F.MEMORY_OBJECT), 9);
    } else if t == AUDIO_CLUSTER {
      OwnedExtent(F.AUDIO_CLUSTER, 10);
      F.AudioClusterOffsets(10);
      LastPlace(Owned(F.AUDIO_CLUSTER), 11);
    }
  }

  const STRINGS_AT: seq<nat> := [0, 64, 128, 192, 256, 320, 384, 448]
  const PTP_PORT_AT: seq<nat> := [0, 64, 66, 68, 70, 74, 76, 82]

  lemma StringsConsecutive()
    ensures TailShape(STRINGS).trailer == Nothing && |TailShape(STRINGS).pieces| == 7 && StartsAre(TailShape(STRINGS).pieces, STRINGS_AT)
  {
  }

  lemma PtpPortConsecutive()
    ensures TailShape(PTP_PORT).trailer == Nothing && |TailShape(PTP_PORT).pieces| == 7 && StartsAre(TailShape(PTP_PORT).pieces, PTP_PORT_AT)
  {
  }

  lemma MemberTails(t: nat, o: bytes)
    requires TailWritten(t, o)
    ensures t == STRINGS ==> |o| == 448
    ensures t == PTP_PORT ==> |o| == 82
  {
    hide Place, PieceWritten, Stretch, TailShape, StartsAre;
    if t == STRINGS {
      StringsConsecutive();
      PlacesAre(TailShape(t).pieces, STRINGS_AT, 7);
    } else if t == PTP_PORT {
      PtpPortConsecutive();
      PlacesAre(TailShape(t).pieces, PTP_PORT_AT, 7);
    }
  }

  lemma OwnerTailLengths(t: nat, o: bytes)
    requires TailWritten(t, o)
    ensures STREAM_PORT_INPUT <= t <= INTERNAL_PORT_OUTPUT ==> |o| == if t <= STREAM_PORT_OUTPUT then 0 else 12
    ensures t == AVB_INTERFACE || t == LOCALE || t == PTP_INSTANCE ==> |o| == 0
    ensures t == CONTROL_BLOCK ==> |o| == 8
  {
    hide Place, PieceWritten, Stretch;
    if STREAM_PORT_INPUT <= t <= INTERNAL_PORT_OUTPUT {
      PortExtent(t);
    } else if t == AVB_INTERFACE || t == CONTROL_BLOCK {
      OwnerTails(t);
    } else if t == LOCALE || t == PTP_INSTANCE {
      NoPlace(TailShape(t).pieces);
    }
  }

  // ---- whole descriptors ----

  lemma Tail(t: nat, i: nat, b: Body)
    requires Encodable(t, b)
    ensures |Encode(t, i, b)| == MinLength(t) + |b.tail| && Encode(t, i, b)[MinLength(t)..] == b.tail
  {
    hide Word, RangeOctets, HeadLength, RangeCount;
    var w, m := Encode(t, i, b), MinLength(t);
    assert w == (Word(t) + Word(i) + b.head + RangeOctets(b.ranges)) + b.tail;
  }

  lemma TailStarts(t: nat)
    ensures AUDIO_UNIT <= t <= SENSOR_UNIT ==> MinLength(t) == 100
    ensures STREAM_PORT_INPUT <= t <= STREAM_PORT_OUTPUT ==> MinLength(t) == 20
    ensures EXTERNAL_PORT_INPUT <= t <= INTERNAL_PORT_OUTPUT ==> MinLength(t) == 12
    ensures t == AVB_INTERFACE ==> MinLength(t) == 102
    ensures t == CONTROL_BLOCK ==> MinLength(t) == 74
    ensures t == LOCALE ==> MinLength(t) == 72
    ensures t == PTP_INSTANCE ==> MinLength(t) == 90
    ensures (STREAM_INPUT <= t <= JACK_OUTPUT || t in {CLOCK_SOURCE, MEMORY_OBJECT, STRINGS} || AUDIO_CLUSTER <= t <= CLOCK_DOMAIN
             || t in {TIMING, PTP_PORT}) ==> MinLength(t) == 4
  {
  }

  /** Every descriptor a serializer writes has the length its type and its counts give it, and its offset words point at
      its lists; only that of a video or sensor cluster points into the fixed part, at itself. */
  lemma SizedDescriptor(t: nat, i: nat, b: Body)
    requires Encodable(t, b) && TailWritten(t, b.tail)
    ensures Sized(t, Encode(t, i, b))
  {
    hide Encode, Encodable, TailWritten, MinLength, WordAt, U16At, V.CountValues;
    var w, o := Encode(t, i, b), b.tail;
    Tail(t, i, b);
    TailStarts(t);
    if t == AUDIO_UNIT {
      UnitTail(o);
      WordFrom(w, 100, o, 40);
      WordFrom(w, 100, o, 42);
      ZerosFrom(w, 100, o, 0, 36);
    } else if t == VIDEO_UNIT || t == SENSOR_UNIT {
      OtherUnitTail(t, o);
      ZerosFrom(w, 100, o, 0, 36);
    } else if t == STREAM_INPUT || t == STREAM_OUTPUT {
      StreamTail(t, o);
      WordFrom(w, 4, o, 78);
      WordFrom(w, 4, o, 80);
      WordFrom(w, 4, o, 128);
      WordFrom(w, 4, o, 130);
    } else if t == JACK_INPUT || t == JACK_OUTPUT {
      JackTail(t, o);
      ZerosFrom(w, 4, o, 70, 74);
    } else if t == SIGNAL_SELECTOR || t == MATRIX || AUDIO_MAP <= t <= SENSOR_MAP {
      SizedLists(t, w, o);
    } else {
      SizedOthers(t, w, o);
    }
  }

  lemma ZerosFrom(w: bytes, m: nat, o: bytes, a: nat, b: nat)
    requires m <= |w| && o == w[m..] && a <= b <= |o| && forall i :: a <= i < b ==> o[i] == 0
    ensures forall i :: m + a <= i < m + b ==> w[i] == 0
  {
    forall i | m + a <= i < m + b ensures w[i] == 0 {
      assert w[i] == o[i - m];
    }
  }

  lemma SizedLists(t: nat, w: bytes, o: bytes)
    requires TailWritten(t, o) && |w| >= 4 && w[4..] == o && (t == SIGNAL_SELECTOR || t == MATRIX || AUDIO_MAP <= t <= SENSOR_MAP)
    ensures Sized(t, w)
  {
    hide TailWritten, WordAt, U16At, V.CountValues;
    if t == SIGNAL_SELECTOR {
      SelectorTail(o);
      WordFrom(w, 4, o, 76);
      WordFrom(w, 4, o, 78);
    } else if t == MATRIX {
      MatrixTail(o);
      WordFrom(w, 4, o, 90);
    } else {
      MapTail(t, o);
      WordFrom(w, 4, o, 0);
      WordFrom(w, 4, o, 2);
    }
  }

  lemma SizedOthers(t: nat, w: bytes, o: bytes)
    requires TailWritten(t, o) && |w| == MinLength(t) + |o| && w[MinLength(t)..] == o
    requires !(AUDIO_UNIT <= t <= JACK_OUTPUT) && t !in {SIGNAL_SELECTOR, MATRIX} && !(AUDIO_MAP <= t <= SENSOR_MAP)
    ensures Sized(t, w)
  {
    hide TailWritten, MinLength, WordAt, U16At, V.CountValues;
    TailStarts(t);
    FixedTails(t, o);
    MemberTails(t, o);
    OwnerTailLengths(t, o);
    if t == CONTROL {
      ControlTail(o);
      WordFrom(w, 4, o, 76);
      WordFrom(w, 4, o, 90);
      WordFrom(w, 4, o, 92);
      assert w[104..] == o[100..];
    } else if t == CLOCK_DOMAIN || t == TIMING {
      ListedTail(t, o);
      WordFrom(w, 4, o, 68);
      WordFrom(w, 4, o, 70);
    } else if t == VIDEO_CLUSTER || t == SENSOR_CLUSTER {
      ClusterTail(t, o);
      WordFrom(w, 4, o, 82);
    }
  }

  /** So has every descriptor of a compiled list. */
  lemma SizedList(ds: seq<FlatDescriptor>, e: Entity, d: FlatDescriptor)
    requires WfEntity(e) && NumbersFit(e) && Written(e) && IsFlat(ds, e) && d in ds
    ensures Sized(d.dtype, d.data)
  {
    hide AddConfiguration, ConfigurationWire, WfConfiguration, FinalEntityWire, Encode, NumbersFit, Written, StrictlySorted, Encodable,
      TailWritten;
    assert Emitted(e, d);
    if d.dtype >= 2 {
      PoolBody(e, d.config, d.dtype, d.index);
      SizedDescriptor(d.dtype, d.index, At(AddConfiguration(e.configurations[d.config]), d.dtype)[d.index].body);
    }
  }
}
