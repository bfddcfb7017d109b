/** Which compiled lists a decompile and a recompile leave as they are, told from their octets alone. */
module SurvivalOctets {
  import opened Wire
  import opened Utf8
  import opened AemModel
  import opened Pools
  import opened Codec
  import opened Flatten
  import opened Compiler
  import F = Fields
  import V = ControlValues
  import opened Layouts
  import opened LayoutTrips
  import opened Settle
  import opened AemTheorems
  import opened AemTrips
  import opened CompiledOctets
  import opened LayoutOctets

  predicate TextAt(w: bytes, at: nat) {
    at + 64 <= |w| && CleanText(w[at..at + 64])
  }

  predicate StringClean(w: bytes, k: nat) {
    TextAt(w, 4 + 64 * k)
  }

  /** A descriptor comes back from its parser as it was: its strings are clean, a control has no values but at most one
      octet of a type that is neither LINEAR nor SELECTOR, a video or sensor cluster has no formats. */
  predicate ComesBack(t: nat, w: bytes) {
    match t
    case 0x00 => TextAt(w, 48) && TextAt(w, 116) && TextAt(w, 180) && TextAt(w, 244)
    case 0x0D => forall k :: 0 <= k < 7 ==> StringClean(w, k)
    case 0x0E | 0x0F | 0x10 | 0x11 | 0x12 | 0x13 | 0x17 | 0x18 | 0x19 => true
    case 0x15 | 0x16 => TextAt(w, 4) && |w| == 90 && w[88] == w[89] == 0
    case 0x1A => TextAt(w, 4) && |w| >= 104 && (|w| == 104 || (|w| == 105 && U16At(w, 80) % 0x4000 >= 0x14))
    case _ => TextAt(w, 4)
  }

  // ---- where the strings are ----

  predicate OnlyFirst(ps: seq<Piece>) {
    ps != [] && ps[0] == Own(F.Text) && forall i :: 0 < i < |ps| ==> ps[i] != Own(F.Text)
  }

  predicate NoText(ps: seq<Piece>) {
    forall i :: 0 <= i < |ps| ==> ps[i] != Own(F.Text)
  }

  lemma CleanFirst(ps: seq<Piece>, o: bytes)
    requires OnlyFirst(ps) && Extent(ps) <= |o|
    ensures |o| >= 64 && (Clean(ps, o) <==> CleanText(o[..64]))
  {
    hide CleanText;
    PlacesGrow(ps, 1, |ps|);
    assert Place(ps, 1) == Place(ps, 0) + 64;
  }

  predicate HeadNamed(t: nat) {
    1 <= t <= 4 || t in {0x09, 0x0C, 0x25, 0x41}
  }

  predicate TailNamed(t: nat) {
    5 <= t <= 8 || t in {0x0A, 0x0B, 0x14, 0x15, 0x16, 0x1A, 0x1B, 0x1D, 0x24, 0x40, 0x42}
  }

  lemma HeadTexts(t: nat)
    requires t >= 1
    ensures if HeadNamed(t) then OnlyFirst(HeadPieces(t)) else NoText(HeadPieces(t))
  {
  }

  lemma NamedTails(t: nat)
    requires TailNamed(t)
    ensures OnlyFirst(TailShape(t).pieces)
  {
    hide TailShape, OnlyFirst;
    if 5 <= t <= 8 {
      StreamAndJackTails(t);
    } else if t in {0x0A, 0x0B, 0x14, 0x42} {
      OwnedTails(t);
    } else if t in {0x24, 0x40, 0x1B, 0x1D} {
      ListTails(t);
    } else if t == 0x1A {
      ControlNamed();
    } else {
      ClusterNamed(t);
    }
  }

  lemma StreamAndJackTails(t: nat)
    requires 5 <= t <= 8
    ensures OnlyFirst(TailShape(t).pieces)
  {
  }

  lemma OwnedTails(t: nat)
    requires t in {0x0A, 0x0B, 0x14, 0x42}
    ensures OnlyFirst(TailShape(t).pieces)
  {
  }

  lemma ListTails(t: nat)
    requires t in {0x24, 0x40, 0x1B, 0x1D}
    ensures OnlyFirst(TailShape(t).pieces)
  {
  }

  lemma ControlNamed()
    ensures OnlyFirst(TailShape(0x1A).pieces)
  {
  }

  lemma ClusterNamed(t: nat)
    requires t in {0x15, 0x16}
    ensures OnlyFirst(TailShape(t).pieces)
  {
  }

  lemma OtherTails(t: nat)
    requires HeadNamed(t) || 0x0E <= t <= 0x13 || 0x17 <= t <= 0x19
    ensures NoText(TailShape(t).pieces)
  {
  }

  lemma CleanWithout(ps: seq<Piece>, o: bytes)
    requires NoText(ps)
    ensures Clean(ps, o)
  {
  }

  // ---- one descriptor ----

  lemma Kinds(t: nat)
    requires t in COUNTED_TYPES
    ensures t >= 2 && (HeadNamed(t) || TailNamed(t) || 0x0E <= t <= 0x13 || 0x17 <= t <= 0x19 || t == 0x0D)
    ensures TailNamed(t) || t == 0x0D ==> MinLength(t) == 4
  {
  }

  lemma Head(t: nat, i: nat, b: Body)
    requires Encodable(t, b)
    ensures |Encode(t, i, b)| >= 4 + |b.head| && Encode(t, i, b)[4..4 + |b.head|] == b.head
  {
    hide Word, RangeOctets, HeadLength, RangeCount;
    assert Encode(t, i, b) == (Word(t) + Word(i)) + b.head + (RangeOctets(b.ranges) + b.tail);
  }

  lemma FirstText(w: bytes, o: bytes, n: nat)
    requires 64 <= n <= |o| && 4 + n <= |w| && w[4..4 + n] == o[..n]
    ensures w[4..68] == o[..64]
  {
    assert w[4..68] == w[4..4 + n][..64] && o[..n][..64] == o[..64];
  }

  lemma HeadNamedBack(t: nat, i: nat, b: Body)
    requires t in COUNTED_TYPES && HeadNamed(t) && Encodable(t, b) && TailWritten(t, b.tail)
    ensures BodySurvives(t, b) <==> TextAt(Encode(t, i, b), 4)
  {
    hide Encode, Encodable, TailWritten, CleanText, HeadPieces, TailShape, OnlyFirst, NoText, Clean, Place, MinLength;
    var w := Encode(t, i, b);
    Kinds(t);
    HeadTexts(t);
    Head(t, i, b);
    HeadCovered(t, b);
    CleanFirst(HeadPieces(t), b.head);
    FirstText(w, b.head, |b.head|);
    OtherTails(t);
    CleanWithout(TailShape(t).pieces, b.tail);
  }

  lemma TailNamedBack(t: nat, i: nat, b: Body)
    requires t in COUNTED_TYPES && TailNamed(t) && !HeadNamed(t) && Encodable(t, b) && TailWritten(t, b.tail)
    ensures Clean(HeadPieces(t), b.head) && |Encode(t, i, b)| == 4 + |b.tail| && Encode(t, i, b)[4..] == b.tail
    ensures Clean(TailShape(t).pieces, b.tail) <==> TextAt(Encode(t, i, b), 4)
  {
    hide Encode, Encodable, TailWritten, CleanText, HeadPieces, TailShape, OnlyFirst, NoText, Clean, Place, MinLength;
    var w, o := Encode(t, i, b), b.tail;
    Kinds(t);
    HeadTexts(t);
    CleanWithout(HeadPieces(t), b.head);
    Tail(t, i, b);
    TailCovered(t, o);
    NamedTails(t);
    CleanFirst(TailShape(t).pieces, o);
    assert w[4..4 + |o|] == w[4..] && o[..|o|] == o;
    FirstText(w, o, |o|);
  }

  lemma UnnamedBack(t: nat, i: nat, b: Body)
    requires t in COUNTED_TYPES && !HeadNamed(t) && !TailNamed(t) && Encodable(t, b) && TailWritten(t, b.tail)
    ensures BodySurvives(t, b) <==> ComesBack(t, Encode(t, i, b))
  {
    hide Encode, Encodable, TailWritten, CleanText, HeadPieces, TailShape, OnlyFirst, NoText, Clean, MinLength, StringClean;
    Kinds(t);
    HeadTexts(t);
    CleanWithout(HeadPieces(t), b.head);
    if t == STRINGS {
      Tail(t, i, b);
      StringsComeBack(Encode(t, i, b), b.tail);
    } else {
      OtherTails(t);
      CleanWithout(TailShape(t).pieces, b.tail);
    }
  }

  /** A descriptor survives its parser exactly when its octets say so. */
  lemma BodyComesBack(t: nat, i: nat, b: Body)
    requires t in COUNTED_TYPES && Encodable(t, b) && TailWritten(t, b.tail)
    ensures BodySurvives(t, b) <==> ComesBack(t, Encode(t, i, b))
  {
    hide Encode, Encodable, TailWritten, TextAt, HeadPieces, TailShape, Clean, V.PayloadFits, U16At, WordAt;
    Kinds(t);
    if HeadNamed(t) {
      HeadNamedBack(t, i, b);
    } else if TailNamed(t) {
      TailNamedBack(t, i, b);
      if t == CONTROL {
        ControlComesBack(Encode(t, i, b), b.tail);
      } else if t == VIDEO_CLUSTER || t == SENSOR_CLUSTER {
        ClusterTail(t, b.tail);
        ClusterComesBack(Encode(t, i, b), b.tail);
      }
    } else {
      UnnamedBack(t, i, b);
    }
  }

  lemma HeadCovered(t: nat, b: Body)
    requires t >= 2 && Encodable(t, b)
    ensures |b.head| == Extent(HeadPieces(t))
  {
    hide HeadPieces, Place;
    HeadLengths(t);
  }

  lemma ControlComesBack(w: bytes, o: bytes)
    requires TailWritten(CONTROL, o) && |w| == 4 + |o| && w[4..] == o
    ensures |o| >= 100 && |w| >= 104
    ensures V.PayloadFits(WordAt(o, 76), o[100..]) <==> |w| == 104 || (|w| == 105 && U16At(w, 80) % 0x4000 >= 0x14)
  {
    hide TailWritten, WordAt, U16At;
    ControlTail(o);
    WordFrom(w, 4, o, 76);
  }

  lemma ClusterComesBack(w: bytes, o: bytes)
    requires |o| >= 86 && |w| == 4 + |o| && w[4..] == o
    ensures |o| == 86 && o[84..] == [0, 0] <==> |w| == 90 && w[88] == w[89] == 0
  {
    assert w[88] == o[84] && w[89] == o[85];
    assert |o| == 86 ==> o[84..] == [o[84], o[85]];
  }

  lemma StringsComeBack(w: bytes, o: bytes)
    requires TailWritten(STRINGS, o) && |w| == 4 + |o| && w[4..] == o
    ensures Clean(TailShape(STRINGS).pieces, o) <==> forall k :: 0 <= k < 7 ==> StringClean(w, k)
  {
    hide CleanText, Place, TailWritten, StartsAre;
    var ps := TailShape(STRINGS).pieces;
    StringsConsecutive();
    MemberTails(STRINGS, o);
    forall k | 0 <= k < 7 ensures ps[k] == Own(F.Text) && (StringClean(w, k) <==> CleanText(Stretch(ps, o, k))) {
      PlacesAre(ps, STRINGS_AT, k);
      PlacesAre(ps, STRINGS_AT, k + 1);
      assert Stretch(ps, o, k) == o[64 * k..64 * k + 64];
      Subslice(w, 4, |w|, 64 * k, 64 * k + 64);
      assert w[4..|w|] == o;
    }
  }

  // ---- ENTITY and CONFIGURATION ----

  lemma EntityText(h: bytes, w: bytes, i: nat)
    requires |h| == 304 && |w| == 312 && w[24..308] == h[20..] && i in {10, 13, 14, 15}
    ensures Stretch(HeadPieces(ENTITY), h, i) == w[F.ENTITY_AT[i]..F.ENTITY_AT[i] + 64]
  {
    hide Place, F.Offset;
    var ps, at := Owned(F.ENTITY), F.ENTITY_AT[i];
    OwnedExtent(F.ENTITY, i);
    OwnedExtent(F.ENTITY, i + 1);
    F.EntityOffsets(i);
    OneWide(F.ENTITY, i);
    Subslice(w, 24, 308, at - 24, at + 40);
    Subslice(h, 20, 304, at - 24, at + 40);
    assert h[20..304] == h[20..];
  }

  lemma OneWide(l: F.Layout, i: nat)
    requires i < |l|
    ensures F.Offset(l, i + 1) == F.Offset(l, i) + F.Width(l[i])
  {
  }

  lemma EntityTexts(i: nat)
    requires i < |HeadPieces(ENTITY)|
    ensures |HeadPieces(ENTITY)| == 16 && (HeadPieces(ENTITY)[i] == Own(F.Text) <==> i in {10, 13, 14, 15})
  {
  }

  lemma EntityComesBack(h: bytes, w: bytes)
    requires |h| == 304 && |w| == 312 && w[24..308] == h[20..]
    ensures Clean(HeadPieces(ENTITY), h) <==> ComesBack(ENTITY, w)
  {
    hide CleanText, HeadPieces, Stretch;
    var ps := HeadPieces(ENTITY);
    forall i | 0 <= i < |ps| ensures ps[i] == Own(F.Text) <==> i in {10, 13, 14, 15} {
      EntityTexts(i);
    }
    assert |ps| == 16 by { EntityPieces(); }
    EntityText(h, w, 10);
    EntityText(h, w, 13);
    EntityText(h, w, 14);
    EntityText(h, w, 15);
    EntityPlaces();
    assert ComesBack(ENTITY, w) <==> CleanText(Stretch(ps, h, 10)) && CleanText(Stretch(ps, h, 13)) && CleanText(Stretch(ps, h, 14))
                                     && CleanText(Stretch(ps, h, 15));
  }

  lemma EntityPieces()
    ensures |HeadPieces(ENTITY)| == 16
  {
  }

  lemma EntityPlaces()
    ensures F.ENTITY_AT[10] == 48 && F.ENTITY_AT[13] == 116 && F.ENTITY_AT[14] == 180 && F.ENTITY_AT[15] == 244
  {
  }

  lemma ConfigurationComesBack(c: Configuration, index: nat)
    requires |c.head| == 66
    ensures Clean(HeadPieces(CONFIGURATION), c.head) <==> ComesBack(CONFIGURATION, ConfigurationWire(c, index))
  {
    hide CleanText, HeadPieces, Clean, OnlyFirst, Place, CountTable, Word;
    var w, table := ConfigurationWire(c, index), CountTable(c, COUNTED_TYPES);
    HeadTexts(CONFIGURATION);
    NamedExtent(CONFIGURATION);
    CleanFirst(HeadPieces(CONFIGURATION), c.head);
    assert w == (Word(CONFIGURATION) + Word(index)) + c.head + (Word(|table| / 4) + Word(74) + table);
    assert w[4..70] == c.head && c.head[..66] == c.head;
    FirstText(w, c.head, 66);
  }

  // ---- the list ----

  /** Each configuration's descriptors in the list come back exactly when the configuration survives. */
  lemma ConfigurationListed(ds: seq<FlatDescriptor>, e: Entity, config: nat)
    requires Compiles(e) && IsFlat(ds, e) && config < |e.configurations|
    ensures ConfigurationSurvives(e.configurations[config])
            <==> forall d <- ds :: d.config == config && d.dtype > 0 ==> ComesBack(d.dtype, d.data)
  {
    hide AddConfiguration, ConfigurationWire, WfConfiguration, FinalEntityWire, Encode, NumbersFit, Written, StrictlySorted, Encodable,
      TailWritten, ComesBack, BodySurvives, Clean, HeadPieces;
    var c := e.configurations[config];
    assert c in e.configurations;
    var P := AddConfiguration(c);
    HeadIs66(c);
    ConfigurationComesBack(c, config);
    var own := Flat(config, CONFIGURATION, config, ConfigurationWire(c, config));
    assert Emitted(e, own);
    assert own in ds;
    forall t: nat, i: nat | i < Size(P, t)
      ensures t > 0 && Flat(config, t, i, Encode(t, i, At(P, t)[i].body)) in ds
      ensures BodySurvives(t, At(P, t)[i].body) <==> ComesBack(t, Encode(t, i, At(P, t)[i].body))
    {
      PoolComesBack(ds, e, config, t, i);
    }
    if ConfigurationSurvives(c) {
      forall d | d in ds && d.config == config && d.dtype > 0 ensures ComesBack(d.dtype, d.data) {
        assert Emitted(e, d);
      }
    }
  }

  lemma PoolComesBack(ds: seq<FlatDescriptor>, e: Entity, config: nat, t: nat, i: nat)
    requires Compiles(e) && IsFlat(ds, e) && config < |e.configurations| && i < Size(AddConfiguration(e.configurations[config]), t)
    ensures var b := At(AddConfiguration(e.configurations[config]), t)[i].body;
            && t >= 2 && Flat(config, t, i, Encode(t, i, b)) in ds
            && (BodySurvives(t, b) <==> ComesBack(t, Encode(t, i, b)))
  {
    hide AddConfiguration, ConfigurationWire, WfConfiguration, FinalEntityWire, Encode, NumbersFit, Written, StrictlySorted, Encodable,
      TailWritten, ComesBack, BodySurvives;
    var P := AddConfiguration(e.configurations[config]);
    assert e.configurations[config] in e.configurations;
    PoolBody(e, config, t, i);
    PoolTypes(e.configurations[config], t);
    BodyComesBack(t, i, At(P, t)[i].body);
    var d := Flat(config, t, i, Encode(t, i, At(P, t)[i].body));
    assert InPools(d, config, P);
  }

  /** Whatever the entity: decompiling its compiled list and compiling again gives the same list if and only if every
      descriptor in it comes back, and that shows in its octets. */
  lemma RecompiledSame(ds: seq<FlatDescriptor>, e: Entity, ds': seq<FlatDescriptor>)
    requires Compiles(e) && IsFlat(ds, e) && IsFlat(ds', NormalEntity(e))
    ensures ds' == ds <==> forall d <- ds :: ComesBack(d.dtype, d.data)
  {
    hide IsFlat, Compiles, NormalEntity, ComesBack, ConfigurationSurvives, Clean, HeadPieces;
    RecompileChangesNothing(ds, e, ds');
    EntityListed(ds, e);
    forall i | 0 <= i < |e.configurations|
      ensures ConfigurationSurvives(e.configurations[i]) <==> forall d <- ds :: d.config == i && d.dtype > 0 ==> ComesBack(d.dtype, d.data)
    {
      ConfigurationListed(ds, e, i);
    }
    if forall d <- ds :: ComesBack(d.dtype, d.data) {
      forall c <- e.configurations ensures ConfigurationSurvives(c) {
        var i :| 0 <= i < |e.configurations| && e.configurations[i] == c;
      }
    }
    if AllSurvive(e) {
      forall d <- ds ensures ComesBack(d.dtype, d.data) {
        if d.dtype > 0 { ConfigurationIs(ds, e, d); }
      }
    }
  }

  lemma ConfigurationIs(ds: seq<FlatDescriptor>, e: Entity, d: FlatDescriptor)
    requires Compiles(e) && IsFlat(ds, e) && d in ds && d.dtype > 0
    ensures d.config < |e.configurations| && e.configurations[d.config] in e.configurations
  {
    hide AddConfiguration, ConfigurationWire, FinalEntityWire, Encode, NumbersFit, Written, StrictlySorted;
    assert Emitted(e, d);
  }

  lemma EntityListed(ds: seq<FlatDescriptor>, e: Entity)
    requires Compiles(e) && IsFlat(ds, e)
    ensures Clean(HeadPieces(ENTITY), e.head) <==> forall d <- ds :: d.dtype == 0 ==> ComesBack(0, d.data)
  {
    hide AddConfiguration, ConfigurationWire, WfConfiguration, FinalEntityWire, NumbersFit, Written, StrictlySorted, ComesBack, Clean, HeadPieces,
      U16At, U32At;
    forall d | d in ds && d.dtype == 0 ensures Clean(HeadPieces(ENTITY), e.head) <==> ComesBack(0, d.data) {
      EntityDescriptor(ds, e, d);
      EntityComesBack(e.head, d.data);
    }
    var d := Flat(0, ENTITY, 0, FinalEntityWire(e));
    assert Emitted(e, d);
    assert d in ds;
  }
}
