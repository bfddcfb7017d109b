/** The compiler and the decompiler together. */
module AemTheorems {
  import opened Wire
  import opened AemModel
  import opened Pools
  import opened Counts
  import opened Codec
  import opened Stages
  import opened Unflatten
  import opened NormalForm
  import opened RoundTripUnits
  import opened RoundTrip
  import opened Recompile
  import opened Flatten
  import opened Compiler
  import opened Decompiler
  import F = Fields
  import opened Utf8
  import opened Layouts
  import opened LayoutTrips
  import opened Settle

  // ---- what grouping finds in a compiled list ----

  lemma {:induction false} GroupedHas(ds: seq<FlatDescriptor>, config: nat, t: nat, i: nat)
    requires DistinctKeys(ds)
    ensures i in WireBucket(Grouped(ds, config), t) <==> exists d :: d in ds && d.config == config && d.dtype == t && d.index == i
    ensures forall d <- ds :: d.config == config && d.dtype == t && d.index == i ==>
              i in WireBucket(Grouped(ds, config), t) && WireBucket(Grouped(ds, config), t)[i] == d.data
  {
    if ds != [] {
      var init, x := ds[..|ds| - 1], ds[|ds| - 1];
      assert ds == init + [x];
      GroupedHas(init, config, t, i);
      assert forall d <- init :: !SameKey(d, x);
    }
  }

  lemma SortedKeysDistinct(ds: seq<FlatDescriptor>)
    requires StrictlySorted(ds)
    ensures DistinctKeys(ds)
  {
  }

  /** A compiled list, grouped, is each configuration's pools, encoded. */
  lemma GroupedIsPools(ds: seq<FlatDescriptor>, e: Entity, config: nat, t: nat, i: nat)
    requires WfEntity(e) && IsFlat(ds, e) && config < |e.configurations| && t >= 2
    ensures var P, m := AddConfiguration(e.configurations[config]), WireBucket(Grouped(ds, config), t);
            (i in m <==> i < Size(P, t)) && (i < Size(P, t) ==> m[i] == Encode(t, i, At(P, t)[i].body))
  {
    hide AddConfiguration, ConfigurationWire, WfConfiguration, Encode, FinalEntityWire, Grouped, StrictlySorted;
    var P, m := AddConfiguration(e.configurations[config]), WireBucket(Grouped(ds, config), t);
    SortedKeysDistinct(ds);
    GroupedHas(ds, config, t, i);
    if i < Size(P, t) {
      var d := Flat(config, t, i, Encode(t, i, At(P, t)[i].body));
      assert InPools(d, config, P);
      assert d in ds;
    }
    if i in m {
      var d :| d in ds && d.config == config && d.dtype == t && d.index == i;
      assert Emitted(e, d);
    }
  }

  lemma CountsFitPools(e: Entity, config: nat)
    requires WfEntity(e) && NumbersFit(e) && config < |e.configurations|
    ensures Fits(AddConfiguration(e.configurations[config]))
  {
    hide AddConfiguration, Total, WfConfiguration, HandNumbersFitIn;
    var c := e.configurations[config];
    assert c in e.configurations;
    forall t ensures Size(AddConfiguration(c), t) <= 0xFFFF {
      CountTableIsExact(c, t);
      if t !in COUNTED_TYPES {
        NothingOutsideTable(c, t);
      }
    }
  }

  // ---- what a tree's descriptors are made of ----

  /** Every descriptor holds what its serializer writes. */
  ghost predicate Written(e: Entity) {
    forall config, t, i :: 0 <= config < |e.configurations| && 0 <= i < Size(AddConfiguration(e.configurations[config]), t)
      ==> TailWritten(t, At(AddConfiguration(e.configurations[config]), t)[i].body.tail)
  }

  /** A descriptor's own octets survive parsing. */
  predicate BodySurvives(t: nat, b: Body) {
    Clean(HeadPieces(t), b.head) && Survives(t, b.tail)
  }

  ghost predicate ConfigurationSurvives(c: Configuration) {
    && Clean(HeadPieces(CONFIGURATION), c.head)
    && forall t, i :: 0 <= i < Size(AddConfiguration(c), t) ==> BodySurvives(t, At(AddConfiguration(c), t)[i].body)
  }

  /** Every string field is clean, every control's payload fits, no video or sensor cluster has formats. */
  ghost predicate AllSurvive(e: Entity) {
    Clean(HeadPieces(ENTITY), e.head) && forall c <- e.configurations :: ConfigurationSurvives(c)
  }

  lemma {:induction false} HeadLengths(t: nat)
    requires t >= 2
    ensures Extent(HeadPieces(t)) == HeadLength(t)
  {
    hide HeadPieces, Place;
    if AUDIO_UNIT <= t <= SENSOR_UNIT {
      UnitExtent(t);
    } else if STREAM_PORT_INPUT <= t <= INTERNAL_PORT_OUTPUT {
      PortExtent(t);
    } else if t == AVB_INTERFACE {
      InterfaceExtent();
    } else if t == CONTROL_BLOCK {
      NamedExtent(t);
    } else if t == LOCALE || t == PTP_INSTANCE {
      GroupExtent(t);
    } else {
      NoHead(t);
      NoPlace(HeadPieces(t));
    }
  }

  lemma NoHead(t: nat)
    requires t >= 2 && HeadLength(t) == 0
    ensures HeadPieces(t) == []
  {
  }

  /** A descriptor comes back exactly when it survives. */
  lemma BodiesKept(t: nat, b: Body)
    requires t >= 2 && Encodable(t, b) && TailWritten(t, b.tail)
    ensures Settled(t, b) == b <==> BodySurvives(t, b)
    ensures Encodable(t, Settled(t, b)) && TailWritten(t, Settled(t, b).tail)
  {
    hide KeptHead, KeptTail, HeadPieces, TailWritten, Clean, Survives, Place, HeadLength, RangeCount;
    HeadLengths(t);
    HeadsKept(t, b.head);
    TailsKept(t, b.tail);
    KeptWritten(t, b.tail);
    KeptLengths(t, b.head, b.tail);
  }

  lemma LastPieceCovered(ps: seq<Piece>)
    ensures Place(ps, LastNumber(ps)) <= Extent(ps)
  {
    PlacesGrow(ps, LastNumber(ps), |ps|);
  }

  lemma MinLengths(t: nat)
    ensures MinLength(t) >= 4
  {
  }

  /** What a serializer wrote reaches as far as the parser reads. */
  lemma WrittenIsReadable(t: nat, i: nat, b: Body)
    requires Encodable(t, b) && TailWritten(t, b.tail)
    ensures Readable(t, Encode(t, i, b)) && ParsedBody(t, Encode(t, i, b)) == Settled(t, b)
  {
    hide TailShape, Encode, Decode, Encodable, Settled, Place, HeadLength, RangeCount, PieceWritten, Stretch, LastNumber, ListsLength;
    var w := Encode(t, i, b);
    DecodeEncode(t, i, b);
    TailOfWire(t, w);
    LastPieceCovered(TailShape(t).pieces);
    MinLengths(t);
    assert |w| == MinLength(t) + |b.tail|;
  }

  lemma TailOfWire(t: nat, w: bytes)
    requires |w| >= MinLength(t)
    ensures Decode(t, w).tail == w[MinLength(t)..]
  {
    hide ReadRanges;
  }

  /** How many octets the parsers of units, ports, control blocks, controls, maps and clusters insist on; lists come on
      top. A STRINGS descriptor may be short: its strings are then. */
  lemma ParserNeeds(t: nat)
    ensures t == AUDIO_UNIT ==> Need(t) == 144
    ensures t == VIDEO_UNIT || t == SENSOR_UNIT ==> Need(t) == 100
    ensures t == STREAM_PORT_INPUT || t == STREAM_PORT_OUTPUT ==> Need(t) == 20
    ensures EXTERNAL_PORT_INPUT <= t <= INTERNAL_PORT_OUTPUT ==> Need(t) == 24
    ensures t == CONTROL_BLOCK ==> Need(t) == 82
    ensures t == CONTROL ==> Need(t) == 104
    ensures t == VIDEO_CLUSTER || t == SENSOR_CLUSTER ==> Need(t) == 86
    ensures AUDIO_MAP <= t <= SENSOR_MAP ==> Need(t) == 8
    ensures t == STRINGS ==> Need(t) == 0
  {
    hide Place, LastNumber, TailShape, MinLength, StartsAre;
    FixedParts(t);
    if t == AUDIO_UNIT {
      UnitConsecutive();
      PlacesAre(TailShape(t).pieces, UNIT_AT, 4);
    } else if STREAM_PORT_INPUT <= t <= INTERNAL_PORT_OUTPUT {
      PortExtent(t);
    } else if t == CONTROL_BLOCK {
      OwnerTails(t);
    } else if t == CONTROL {
      ControlShape();
      ControlStarts(13);
    } else if t == VIDEO_CLUSTER || t == SENSOR_CLUSTER {
      ClusterShape(t);
      ClusterStarts(8);
    } else if AUDIO_MAP <= t <= SENSOR_MAP {
      MapConsecutive(t);
      PlacesAre(TailShape(t).pieces, MAP_AT, 2);
    }
    NoPlace(TailShape(t).pieces);
  }

  lemma FixedParts(t: nat)
    ensures t == AUDIO_UNIT ==> MinLength(t) == 100 && LastNumber(TailShape(t).pieces) == 4 == |TailShape(t).pieces|
    ensures t == VIDEO_UNIT || t == SENSOR_UNIT ==> MinLength(t) == 100 && LastNumber(TailShape(t).pieces) == 0
    ensures t == STREAM_PORT_INPUT || t == STREAM_PORT_OUTPUT ==> MinLength(t) == 20 && LastNumber(TailShape(t).pieces) == 0 == |TailShape(t).pieces|
    ensures EXTERNAL_PORT_INPUT <= t <= INTERNAL_PORT_OUTPUT ==> MinLength(t) == 12 && LastNumber(TailShape(t).pieces) == |TailShape(t).pieces| > 0
    ensures t == CONTROL_BLOCK ==> MinLength(t) == 74 && LastNumber(TailShape(t).pieces) == |TailShape(t).pieces| > 0
    ensures t == CONTROL ==> MinLength(t) == 4 && LastNumber(TailShape(t).pieces) == 13
    ensures t == VIDEO_CLUSTER || t == SENSOR_CLUSTER ==> MinLength(t) == 4 && LastNumber(TailShape(t).pieces) == 8
    ensures AUDIO_MAP <= t <= SENSOR_MAP ==> MinLength(t) == 4 && LastNumber(TailShape(t).pieces) == 2 == |TailShape(t).pieces|
    ensures t == STRINGS ==> MinLength(t) == 4 && LastNumber(TailShape(t).pieces) == 0
  {
    if t == STRINGS {
      NoNumbers(TailShape(t).pieces);
    } else if t == VIDEO_CLUSTER || t == SENSOR_CLUSTER {
      var ps := CLUSTER_PIECES;
      assert TailShape(t).pieces == ps && ps[..9][8] == ps[8] && ps[..9][..8] == ps[..8] && ps[..8][7] == ps[7];
      assert LastNumber(ps[..8]) == 8;
      assert LastNumber(ps[..9]) == 8;
    }
  }

  lemma {:induction false} NoNumbers(ps: seq<Piece>)
    requires forall i :: 0 <= i < |ps| ==> !IsNumber(ps[i])
    ensures LastNumber(ps) == 0
  {
    if ps != [] { NoNumbers(ps[..|ps| - 1]); }
  }

  // ---- decompiling what was compiled ----

  lemma PoolBody(e: Entity, config: nat, t: nat, i: nat)
    requires WfEntity(e) && NumbersFit(e) && Written(e) && config < |e.configurations|
    requires i < Size(AddConfiguration(e.configurations[config]), t)
    ensures t >= 2
    ensures var b := At(AddConfiguration(e.configurations[config]), t)[i].body; Encodable(t, b) && TailWritten(t, b.tail)
  {
    hide AddConfiguration, WfConfiguration, NumbersFit, Encodable, TailWritten;
    assert e.configurations[config] in e.configurations;
    CountsFitPools(e, config);
    ConfigurationEncodable(e.configurations[config]);
    if t < 2 { NoHeadTypesInPools(e.configurations[config], t); }
  }

  lemma CompiledIsLongEnough(ds: seq<FlatDescriptor>, e: Entity, config: nat)
    requires WfEntity(e) && NumbersFit(e) && Written(e) && IsFlat(ds, e) && config < |e.configurations|
    ensures LongEnough(Grouped(ds, config)) && WfConfiguration(e.configurations[config])
    ensures Holds(Parsed(Grouped(ds, config)), AddConfiguration(SettleConfiguration(e.configurations[config])))
  {
    hide AddConfiguration, WfConfiguration, NumbersFit, Written, IsFlat, Encode, ParsedBody, Readable, Settled, Grouped, Encodable,
      TailWritten, SettleConfiguration;
    var W, c := Grouped(ds, config), e.configurations[config];
    var P, Q := AddConfiguration(c), AddConfiguration(SettleConfiguration(c));
    assert c in e.configurations;
    SettlingAllocatesTheSame(c);
    forall t: nat, i: nat | t >= 2
      ensures i in WireBucket(W, t) <==> i < Size(Q, t)
      ensures i < Size(Q, t) ==> Readable(t, WireBucket(W, t)[i]) && ParsedBody(t, WireBucket(W, t)[i]) == At(Q, t)[i].body
    {
      SettlesSize(P, Q, t);
      GroupedIsPools(ds, e, config, t, i);
      if i < Size(P, t) {
        PoolBody(e, config, t, i);
        WrittenIsReadable(t, i, At(P, t)[i].body);
        assert SettlesAt(P, Q, t);
      }
    }
    assert forall t: nat, i: nat | t >= 2 :: i in Bucket(Parsed(W), t) <==> i in WireBucket(W, t);
  }

  lemma ConfigurationHeadRead(ds: seq<FlatDescriptor>, e: Entity, config: nat)
    requires WfEntity(e) && IsFlat(ds, e) && config < |e.configurations|
    ensures |ConfigurationOctets(ds, config)| >= 70
    ensures ConfigurationOctets(ds, config)[4..70] == e.configurations[config].head
  {
    hide AddConfiguration, CountTable, Word, FinalEntityWire, Grouped, FirstConfigurationIndex;
    var c := e.configurations[config];
    assert c in e.configurations;
    var d := Flat(config, CONFIGURATION, config, ConfigurationWire(c, config));
    assert Emitted(e, d);
    assert d in ds;
    SortedKeysDistinct(ds);
    GroupedHas(ds, config, CONFIGURATION, config);
    var table := CountTable(c, COUNTED_TYPES);
    assert ConfigurationWire(c, config)
           == (Word(CONFIGURATION) + Word(config)) + c.head + (Word(|table| / 4) + Word(74) + table);
  }

  lemma EntityHeadRead(ds: seq<FlatDescriptor>, e: Entity)
    requires WfEntity(e) && NumbersFit(e) && IsFlat(ds, e)
    ensures EntityOctets(ds) == Some(FinalEntityWire(e)) && |FinalEntityWire(e)| == 312
    ensures U16At(FinalEntityWire(e), 308) == |e.configurations|
  {
    hide AddConfiguration, ConfigurationWire, WfConfiguration, Grouped, HasIdentify;
    var d := Flat(0, ENTITY, 0, FinalEntityWire(e));
    assert Emitted(e, d);
    assert d in ds;
    SortedKeysDistinct(ds);
    GroupedHas(ds, 0, ENTITY, 0);
    var w := EntityWire(e);
    assert w[308..310] == Word(|e.configurations|);
    WordReads(w, 308, |e.configurations|);
    if HasIdentify(e) {
      assert PatchCapabilities(w)[308] == PatchCapabilities(w)[24..][284] == w[24..][284] == w[308];
      assert PatchCapabilities(w)[309] == PatchCapabilities(w)[24..][285] == w[24..][285] == w[309];
    }
  }

  /** The entity a compiled list decompiles to. */
  ghost function NormalEntity(e: Entity): (n: Entity)
    requires WfEntity(e)
    ensures |n.head| == 304 && |n.configurations| == |e.configurations|
  {
    EntityExtent();
    KeptLengths(ENTITY, FinalEntityWire(e)[4..308], []);
    Entity(KeptHead(ENTITY, FinalEntityWire(e)[4..308]),
           seq(|e.configurations|, i requires 0 <= i < |e.configurations| =>
             assert e.configurations[i] in e.configurations; NormalOfSettled(e.configurations[i])))
  }

  ghost function NormalOfSettled(c: Configuration): (n: Configuration)
    requires WfConfiguration(c)
  {
    SettledWf(c);
    NormalConfiguration(SettleConfiguration(c))
  }

  /** Decompiling a compiled entity always succeeds and gives exactly its normal form: every unit,
      port, cluster, map, locale and PTP port in its place and order, its octets as its parser keeps them,
      symbols erased, the derived identify bit kept, interface and block controls moved to configuration level. */
  lemma DecompileCompiled(ds: seq<FlatDescriptor>, e: Entity)
    requires WfEntity(e) && NumbersFit(e) && Written(e) && IsFlat(ds, e)
    ensures Decompiled(ds) == Some(NormalEntity(e))
  {
    hide IsFlat, NumbersFit, Written, WfConfiguration, FinalEntityWire, EntityOctets, Rebuild, NormalOfSettled, Parsed, Grouped,
         ConfigurationOctets, LongEnough, Holds, AddConfiguration, KeptHead, SettleConfiguration;
    EntityHeadRead(ds, e);
    var n := |e.configurations|;
    forall i | 0 <= i < n
      ensures Parseable(ds, i) && DecompiledConfiguration(ds, i) == NormalOfSettled(e.configurations[i])
    {
      assert e.configurations[i] in e.configurations;
      CompiledIsLongEnough(ds, e, i);
      ConfigurationHeadRead(ds, e, i);
      RebuildsNormal(Parsed(Grouped(ds, i)), e.configurations[i]);
    }
    assert Decompiled(ds).Some?;
    assert Decompiled(ds).value.configurations == NormalEntity(e).configurations;
  }

  lemma RebuildsNormal(T: Types, c: Configuration)
    requires WfConfiguration(c) && Holds(T, AddConfiguration(SettleConfiguration(c)))
    ensures Rebuild(T, KeptHead(CONFIGURATION, c.head)) == NormalOfSettled(c)
  {
    hide Rebuild, WfConfiguration, Holds, AddConfiguration, KeptHead, NormalConfiguration, SettleLeaves, SettleOwners, SettleGroups, SettleUnits;
    SettledWf(c);
    ConfigurationRoundTrip(T, SettleConfiguration(c));
  }

  // ---- recompiling ----

  lemma SettledHandNumbers(c: Configuration)
    requires WfConfiguration(c) && HandNumbersFitIn(c)
    ensures HandNumbersFitIn(SettleConfiguration(c))
  {
    hide KeptHead, KeptTail, WfConfiguration, SettleGroups, SettleUnits;
    var c' := SettleConfiguration(c);
    forall i | 0 <= i < |c'.interfaces| ensures HandNumbersFit(c'.interfaces[i]) {
      assert c.interfaces[i] in c.interfaces;
    }
    forall i | 0 <= i < |c'.blocks| ensures HandNumbersFit(c'.blocks[i]) {
      assert c.blocks[i] in c.blocks;
    }
  }

  lemma SettledFits(P: Pools, Q: Pools)
    requires Settles(P, Q) && Fits(P)
    ensures Fits(Q)
  {
    hide Settles;
    forall t ensures Size(Q, t) <= 0xFFFF {
      SettlesSize(P, Q, t);
      assert Size(P, t) <= 0xFFFF;
    }
  }

  /** What the settled tree of configuration i is good for. */
  lemma SettledCompiles(e: Entity, i: nat)
    requires WfEntity(e) && NumbersFit(e) && i < |e.configurations|
    ensures WfConfiguration(e.configurations[i])
    ensures var c' := SettleConfiguration(e.configurations[i]);
            WfConfiguration(c') && HandNumbersFitIn(c') && Fits(AddConfiguration(c'))
  {
    hide AddConfiguration, WfConfiguration, SettleConfiguration, HandNumbersFitIn, Fits, Settles, Total;
    var c := e.configurations[i];
    assert c in e.configurations;
    SettledWf(c);
    SettledHandNumbers(c);
    CountsFitPools(e, i);
    SettlingAllocatesTheSame(c);
    SettledFits(AddConfiguration(c), AddConfiguration(SettleConfiguration(c)));
  }

  /** One trip over a pool: the bodies settled, the symbols gone. */
  ghost predicate TripAt(P: Pools, Q: Pools, t: nat) {
    Size(Q, t) == Size(P, t) && forall i :: 0 <= i < Size(P, t) ==> At(Q, t)[i] == Item(Settled(t, At(P, t)[i].body), None)
  }

  lemma TripPools(e: Entity, i: nat, t: nat)
    requires WfEntity(e) && NumbersFit(e) && i < |e.configurations|
    ensures WfConfiguration(NormalEntity(e).configurations[i])
    ensures TripAt(AddConfiguration(e.configurations[i]), AddConfiguration(NormalEntity(e).configurations[i]), t)
  {
    hide AddConfiguration, WfConfiguration, NormalConfiguration, SettleConfiguration, FinalEntityWire, KeptHead, HandNumbersFitIn, Fits,
      NumbersFit, Settled;
    var c := e.configurations[i];
    SettledCompiles(e, i);
    var c' := SettleConfiguration(c);
    NormalFormWellFormed(c');
    NormalFormAllocatesTheSame(c');
    SettlingAllocatesTheSame(c);
    SamesAt(AddConfiguration(c'), AddConfiguration(NormalConfiguration(c')), t);
    assert SettlesAt(AddConfiguration(c), AddConfiguration(c'), t);
  }

  lemma SameTotals(e: Entity, i: nat, t: nat)
    requires WfEntity(e) && NumbersFit(e) && i < |e.configurations|
    ensures Total(NormalEntity(e).configurations[i], t) == Total(e.configurations[i], t)
  {
    hide AddConfiguration, NumbersFit, WfConfiguration, Total, NormalEntity, Settled;
    var c, n := e.configurations[i], NormalEntity(e).configurations[i];
    assert c in e.configurations;
    TripPools(e, i, t);
    CountTableIsExact(c, t);
    CountTableIsExact(n, t);
  }

  lemma {:induction false} SameCountTable(c: Configuration, n: Configuration, ts: seq<nat>)
    requires forall t <- ts :: Total(c, t) == Total(n, t)
    ensures CountTable(c, ts) == CountTable(n, ts)
  {
    hide Total;
    if ts != [] {
      assert ts[|ts| - 1] in ts;
      SameCountTable(c, n, ts[..|ts| - 1]);
    }
  }

  lemma NormalHead(e: Entity, i: nat)
    requires WfEntity(e) && i < |e.configurations|
    ensures NormalEntity(e).configurations[i].head == KeptHead(CONFIGURATION, e.configurations[i].head)
  {
    hide KeptHead, FinalEntityWire, SettleLeaves, SettleOwners, SettleGroups, SettleUnits, EraseLeaves, EraseGroups, EraseUnits, NormalOwners,
      Inlined;
    assert e.configurations[i] in e.configurations;
  }

  /** The CONFIGURATION descriptor after a trip: the head as it is kept, the same count table. */
  lemma TripConfigurationWire(e: Entity, i: nat)
    requires WfEntity(e) && NumbersFit(e) && i < |e.configurations|
    ensures ConfigurationWire(NormalEntity(e).configurations[i], i)
            == ConfigurationWire(e.configurations[i].(head := KeptHead(CONFIGURATION, e.configurations[i].head)), i)
  {
    hide Total, WfConfiguration, NormalEntity, CountTable, KeptHead;
    var c, n := e.configurations[i], NormalEntity(e).configurations[i];
    var h := c.(head := KeptHead(CONFIGURATION, c.head));
    NormalHead(e, i);
    forall t ensures Total(h, t) == Total(n, t) {
      SameTotals(e, i, t);
      HeadNotCounted(c, KeptHead(CONFIGURATION, c.head), t);
    }
    SameCountTable(n, h, COUNTED_TYPES);
  }

  lemma {:induction false} HeadNotCounted(c: Configuration, h: bytes, t: nat)
    ensures Total(c.(head := h), t) == Total(c, t)
  {
    FlatNotCounted(c, h, FLAT_TYPES, t);
  }

  lemma {:induction false} FlatNotCounted(c: Configuration, h: bytes, ts: seq<nat>, t: nat)
    ensures FlatCount(c.(head := h), ts, t) == FlatCount(c, ts, t)
  {
    if ts != [] { FlatNotCounted(c, h, ts[..|ts| - 1], t); }
  }

  // ---- the ENTITY descriptor ----

  lemma U32Reads(w: bytes, at: nat, v: nat)
    requires at + 4 <= |w| && v < 0x1_0000_0000 && w[at..at + 4] == U32(v)
    ensures U32At(w, at) == v
  {
    var q := w[at..at + 4];
    assert w[at] == q[0] && w[at + 1] == q[1] && w[at + 2] == q[2] && w[at + 3] == q[3];
  }

  /** An identify control stays one: its control_type is a field of its own. */
  lemma IdentifyKept(i: nat, o: bytes)
    requires TailWritten(CONTROL, o)
    ensures IsIdentify(Encode(CONTROL, i, Settled(CONTROL, Body([], [], o)))) <==> IsIdentify(Encode(CONTROL, i, Body([], [], o)))
  {
    hide KeptTail, KeptHead, TailShape, TailWritten, Place, RewriteUpTo, F.Canon;
    var o' := KeptTail(CONTROL, o);
    ControlCut(o);
    ControlShape();
    ControlStarts(6);
    ControlStarts(7);
    ControlStarts(13);
    KeptPiece(CONTROL, o, 6);
    F.CanonKeepsNumbers(E8, o[78..86]);
    assert o'[78..86] == o[78..86];
    ControlTypeAt(i, o);
    ControlTypeAt(i, o');
    NoHeadKept(CONTROL);
  }

  lemma NoHeadKept(t: nat)
    requires t >= 2 && HeadLength(t) == 0
    ensures KeptHead(t, []) == []
  {
    hide HeadPieces;
    NoHead(t);
  }

  lemma ControlTypeAt(i: nat, o: bytes)
    requires |o| >= 86
    ensures var w := Encode(CONTROL, i, Body([], [], o)); |w| >= 90 && w[82..90] == o[78..86]
  {
    var w := Encode(CONTROL, i, Body([], [], o));
    assert w == (Word(CONTROL) + Word(i)) + o;
  }

  lemma ControlsAreLeaves(c: Configuration, i: nat)
    requires WfConfiguration(c) && Fits(AddConfiguration(c)) && i < Size(AddConfiguration(c), CONTROL)
    ensures var b := At(AddConfiguration(c), CONTROL)[i].body; b == Body([], [], b.tail)
  {
    hide AddConfiguration, WfConfiguration;
    ConfigurationEncodable(c);
    assert Encodable(CONTROL, At(AddConfiguration(c), CONTROL)[i].body);
  }

  lemma SameIdentify(e: Entity)
    requires WfEntity(e) && NumbersFit(e) && Written(e)
    ensures HasIdentify(NormalEntity(e)) <==> HasIdentify(e)
  {
    hide AddConfiguration, NumbersFit, Encode, IsIdentify, NormalEntity, Settled, WfConfiguration, TailWritten;
    if e.configurations != [] {
      var P, Q := AddConfiguration(e.configurations[0]), AddConfiguration(NormalEntity(e).configurations[0]);
      assert e.configurations[0] in e.configurations;
      TripPools(e, 0, CONTROL);
      CountsFitPools(e, 0);
      forall i | 0 <= i < Size(P, CONTROL)
        ensures IsIdentify(Encode(CONTROL, i, At(Q, CONTROL)[i].body)) <==> IsIdentify(Encode(CONTROL, i, At(P, CONTROL)[i].body))
      {
        ControlsAreLeaves(e.configurations[0], i);
        IdentifyKept(i, At(P, CONTROL)[i].body.tail);
      }
    }
  }

  /** The ENTITY descriptor around its head. */
  lemma EntityParts(e: Entity)
    requires |e.head| == 304
    ensures var w := FinalEntityWire(e);
            w == Word(ENTITY) + Word(0) + w[4..308] + Word(|e.configurations|) + Word(0)
  {
    hide HasIdentify, PatchCapabilities, Word, EntityWire;
    var raw, w := EntityWire(e), FinalEntityWire(e);
    EntityEnds(e);
    if HasIdentify(e) {
      SameEnds(w, raw);
    }
    assert w == w[..4] + w[4..308] + w[308..];
  }

  lemma EntityEnds(e: Entity)
    requires |e.head| == 304
    ensures EntityWire(e)[..4] == Word(ENTITY) + Word(0) && EntityWire(e)[308..] == Word(|e.configurations|) + Word(0)
  {
    hide Word;
    var front, back := Word(ENTITY) + Word(0), Word(|e.configurations|) + Word(0);
    assert EntityWire(e) == front + e.head + back;
  }

  lemma SameEnds(w: bytes, raw: bytes)
    requires |w| == |raw| == 312 && w[..20] == raw[..20] && w[24..] == raw[24..]
    ensures w[..4] == raw[..4] && w[308..] == raw[308..]
  {
    Subslice(w, 0, 20, 0, 4);
    Subslice(raw, 0, 20, 0, 4);
    Subslice(w, 24, 312, 284, 288);
    Subslice(raw, 24, 312, 284, 288);
  }

  const ENTITY_STARTS: seq<nat> := [0, 8, 16, 20, 22, 24, 26, 28, 32, 36, 44, 108, 110, 112, 176, 240, 304]

  lemma EntityStarts(n: nat)
    requires n <= 16
    ensures Place(HeadPieces(ENTITY), n) == ENTITY_STARTS[n]
    ensures |HeadPieces(ENTITY)| == 16
  {
    hide Place;
    EntityStartsAre();
    PlacesAre(HeadPieces(ENTITY), ENTITY_STARTS, n);
  }

  lemma EntityStartsAre()
    ensures StartsAre(HeadPieces(ENTITY), ENTITY_STARTS)
  {
  }

  /** The capabilities are a number: a parser keeps them. */
  lemma CapabilitiesKept(h: bytes)
    requires |h| == 304
    ensures |KeptHead(ENTITY, h)| == 304 && KeptHead(ENTITY, h)[16..20] == h[16..20]
  {
    hide HeadPieces, Place, RewriteUpTo, F.Canon;
    var ps := HeadPieces(ENTITY);
    EntityStarts(2);
    EntityStarts(3);
    EntityStarts(16);
    RewrittenPiece(ps, h, 16, 2);
    EntityKinds();
    F.CanonKeepsNumbers(N4, h[16..20]);
  }

  lemma EntityKinds()
    ensures |HeadPieces(ENTITY)| == 16 && HeadPieces(ENTITY)[2] == Own(N4)
    ensures forall i :: 0 <= i < 16 && HeadPieces(ENTITY)[i] == Own(F.Text) ==> i >= 10
  {
  }

  /** The derived bit is already in the normal form, and deriving it again changes nothing. */
  lemma TripEntityWire(e: Entity)
    requires WfEntity(e) && NumbersFit(e) && Written(e)
    ensures FinalEntityWire(NormalEntity(e))[4..308] == KeptHead(ENTITY, FinalEntityWire(e)[4..308])
    ensures FinalEntityWire(NormalEntity(e)) == FinalEntityWire(e) <==> Clean(HeadPieces(ENTITY), e.head)
  {
    hide AddConfiguration, WfConfiguration, NumbersFit, HasIdentify, KeptHead, HeadPieces, PatchCapabilities, Clean, Word, Place, EntityWire;
    var n, w := NormalEntity(e), FinalEntityWire(e);
    var h := w[4..308];
    SameIdentify(e);
    CapabilitiesKept(h);
    EntityParts(e);
    EntityParts(n);
    PatchedAgain(e, n);
    EntityExtent();
    HeadsKept(ENTITY, h);
    PatchedIsClean(e);
    assert FinalEntityWire(n) == w <==> FinalEntityWire(n)[4..308] == h;
  }

  lemma PatchedAgain(e: Entity, n: Entity)
    requires WfEntity(e) && |n.head| == 304 && n.head[16..20] == FinalEntityWire(e)[4..308][16..20]
    ensures (if HasIdentify(e) then PatchCapabilities(EntityWire(n)) else EntityWire(n))[4..308] == n.head
  {
    hide HasIdentify, WfConfiguration, Word;
    var w, r := EntityWire(n), FinalEntityWire(e);
    assert w[4..308] == n.head;
    Subslice(w, 4, 308, 16, 20);
    Subslice(r, 4, 308, 16, 20);
    if HasIdentify(e) {
      var caps := WithIdentifyBit(U32At(EntityWire(e), 20));
      assert r[20..24] == U32(caps);
      U32Reads(w, 20, caps);
      Reassembled(w, U32(caps));
    }
  }

  lemma Reassembled(w: bytes, middle: bytes)
    requires |w| >= 24 && w[20..24] == middle
    ensures w[..20] + middle + w[24..] == w
  {
    assert w == w[..20] + w[20..24] + w[24..];
  }

  /** Setting the bit does not touch a string. */
  lemma PatchedIsClean(e: Entity)
    requires WfEntity(e)
    ensures Clean(HeadPieces(ENTITY), FinalEntityWire(e)[4..308]) <==> Clean(HeadPieces(ENTITY), e.head)
  {
    hide HasIdentify, WfConfiguration, Word, HeadPieces, Place, CleanText, U32;
    var h, h', ps := e.head, FinalEntityWire(e)[4..308], HeadPieces(ENTITY);
    var raw := EntityWire(e);
    assert raw[4..308] == h;
    EntityKinds();
    EntityStarts(16);
    forall i | 0 <= i < 16 && ps[i] == Own(F.Text) ensures Stretch(ps, h', i) == Stretch(ps, h, i) {
      EntityStarts(i);
      EntityStarts(i + 1);
      EntityStartsGrow(i);
      if HasIdentify(e) {
        SameBeyond(FinalEntityWire(e), raw, Place(ps, i), Place(ps, i + 1));
      }
    }
  }

  lemma SameBeyond(w: bytes, raw: bytes, a: nat, b: nat)
    requires |w| == |raw| == 312 && w[24..] == raw[24..] && 20 <= a <= b <= 304
    ensures w[4..308][a..b] == raw[4..308][a..b]
  {
    Subslice(w, 4, 308, a, b);
    Subslice(raw, 4, 308, a, b);
    Subslice(w, 24, 312, a - 20, b - 20);
    Subslice(raw, 24, 312, a - 20, b - 20);
  }

  lemma EntityStartsGrow(i: nat)
    requires 10 <= i < 16
    ensures 20 <= ENTITY_STARTS[i] <= ENTITY_STARTS[i + 1] <= 304
  {
  }

  lemma {:induction false} NormalOwnersFit(os: seq<Owner>, base: nat)
    requires base + |Inlined(os)| <= 0xFFFF
    ensures forall o <- NormalOwners(os, base) :: HandNumbersFit(o)
  {
    if os != [] {
      NormalOwnersFit(os[..|os| - 1], base);
    }
  }

  lemma ControlsFit(c: Configuration)
    requires WfConfiguration(c) && Fits(AddConfiguration(c))
    ensures |c.controls| + |Inlined(c.interfaces)| + |Inlined(c.blocks)| <= 0xFFFF
  {
    hide WfConfiguration, AddConfiguration, AddTopLevel, Stage, Inlined;
    TopLevelControls(c);
    StagesAreTheWalk(c);
    StagesGrow(c, 6, 9);
    ExtendsAt(Stage(c, 6), AddConfiguration(c), CONTROL);
    assert Size(AddConfiguration(c), CONTROL) <= 0xFFFF;
  }

  lemma NormalHandNumbers(c: Configuration)
    requires WfConfiguration(c) && Fits(AddConfiguration(c))
    ensures HandNumbersFitIn(NormalConfiguration(c))
  {
    hide WfConfiguration, AddConfiguration, AddTopLevel, Stage, Inlined, HandNumbersFit, NormalOwners, Fits, EraseLeaves,
      EraseUnits, EraseGroups;
    ControlsFit(c);
    NormalOwnersFit(c.interfaces, |c.controls|);
    NormalOwnersFit(c.blocks, |c.controls| + |Inlined(c.interfaces)|);
  }
}
