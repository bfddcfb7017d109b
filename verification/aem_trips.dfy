/** Compiling again what was decompiled: when nothing changes, and that trips come to rest. */
module AemTrips {
  import opened Wire
  import opened AemModel
  import opened Pools
  import opened Counts
  import opened Codec
  import opened Unflatten
  import opened NormalForm
  import opened RoundTripUnits
  import opened RoundTrip
  import opened Recompile
  import opened Flatten
  import opened Compiler
  import opened Decompiler
  import opened Layouts
  import opened LayoutTrips
  import opened Settle
  import opened AemTheorems

  /** A tree that compiles, made of what serializers write. */
  ghost predicate Compiles(e: Entity) {
    WfEntity(e) && NumbersFit(e) && Written(e)
  }

  lemma NoSymbols(e: Entity, s: FlatSymbol)
    requires WfEntity(e) && NumbersFit(e)
    ensures !Symbolised(NormalEntity(e), s)
  {
    hide AddConfiguration, WfConfiguration, NumbersFit, FinalEntityWire, SettleConfiguration, NormalConfiguration, Settled, KeptHead;
    if s.config < |e.configurations| {
      TripPools(e, s.config, s.dtype);
      NoConfigurationSymbol(e, s.config);
    }
  }

  lemma NoConfigurationSymbol(e: Entity, i: nat)
    requires WfEntity(e) && i < |e.configurations|
    ensures NormalEntity(e).configurations[i].symbol == None
  {
    hide WfConfiguration, FinalEntityWire, SettleConfiguration, KeptHead;
    assert e.configurations[i] in e.configurations;
    SettledWf(e.configurations[i]);
  }

  lemma NormalNumbersFit(e: Entity, i: nat)
    requires WfEntity(e) && NumbersFit(e) && i < |e.configurations|
    ensures HandNumbersFitIn(NormalEntity(e).configurations[i])
  {
    hide WfConfiguration, FinalEntityWire, SettleConfiguration, NormalConfiguration, KeptHead, HandNumbersFitIn, NumbersFit, AddConfiguration;
    SettledCompiles(e, i);
    NormalHandNumbers(SettleConfiguration(e.configurations[i]));
  }

  lemma NormalWf(e: Entity)
    requires WfEntity(e) && NumbersFit(e)
    ensures WfEntity(NormalEntity(e)) && NumbersFit(NormalEntity(e))
  {
    hide WfConfiguration, Total, NormalEntity, AddConfiguration, HandNumbersFitIn, TripAt;
    var n := NormalEntity(e);
    forall i | 0 <= i < |n.configurations|
      ensures WfConfiguration(n.configurations[i]) && HandNumbersFitIn(n.configurations[i])
      ensures forall t <- COUNTED_TYPES :: Total(n.configurations[i], t) <= 0xFFFF
    {
      assert e.configurations[i] in e.configurations;
      TripPools(e, i, 0);
      NormalNumbersFit(e, i);
      forall t <- COUNTED_TYPES ensures Total(n.configurations[i], t) <= 0xFFFF {
        SameTotals(e, i, t);
      }
    }
  }

  lemma NormalWritten(e: Entity)
    requires Compiles(e)
    ensures Written(NormalEntity(e))
  {
    hide WfEntity, NumbersFit, NormalEntity, AddConfiguration, TailWritten, Settled, Encodable, BodySurvives;
    var n := NormalEntity(e);
    forall config, t, i | 0 <= config < |n.configurations| && 0 <= i < Size(AddConfiguration(n.configurations[config]), t)
      ensures TailWritten(t, At(AddConfiguration(n.configurations[config]), t)[i].body.tail)
    {
      TripPools(e, config, t);
      PoolBody(e, config, t, i);
      BodiesKept(t, At(AddConfiguration(e.configurations[config]), t)[i].body);
    }
  }

  /** What decompiling gives can always be compiled again. */
  lemma NormalEntityCompiles(e: Entity)
    requires Compiles(e)
    ensures Compiles(NormalEntity(e)) && CodesDistinct(NormalEntity(e))
  {
    hide WfEntity, NumbersFit, Written, NormalEntity, Symbolised;
    NormalWf(e);
    NormalWritten(e);
    forall s ensures !Symbolised(NormalEntity(e), s) {
      NoSymbols(e, s);
    }
  }

  // ---- when recompiling changes nothing ----

  lemma SettledInPools(e: Entity, config: nat, d: FlatDescriptor)
    requires Compiles(e) && config < |e.configurations| && ConfigurationSurvives(e.configurations[config])
    ensures InPools(d, config, AddConfiguration(e.configurations[config]))
            <==> InPools(d, config, AddConfiguration(NormalEntity(e).configurations[config]))
  {
    hide AddConfiguration, NormalEntity, WfEntity, NumbersFit, Written, Encode, BodySurvives, Settled, Encodable, TailWritten;
    var P, Q := AddConfiguration(e.configurations[config]), AddConfiguration(NormalEntity(e).configurations[config]);
    TripPools(e, config, d.dtype);
    if d.index < Size(P, d.dtype) {
      PoolBody(e, config, d.dtype, d.index);
      BodiesKept(d.dtype, At(P, d.dtype)[d.index].body);
    }
  }

  lemma SameWhenAllSurvive(ds: seq<FlatDescriptor>, e: Entity, ds': seq<FlatDescriptor>)
    requires Compiles(e) && IsFlat(ds, e) && IsFlat(ds', NormalEntity(e)) && AllSurvive(e)
    ensures ds' == ds
  {
    hide AddConfiguration, NormalEntity, WfConfiguration, NumbersFit, Written, ConfigurationWire, FinalEntityWire, InPools, StrictlySorted,
      ConfigurationSurvives, Clean, KeptHead;
    var n := NormalEntity(e);
    TripEntityWire(e);
    forall d ensures d in ds <==> d in ds' {
      if d.config < |e.configurations| {
        assert e.configurations[d.config] in e.configurations;
        SettledInPools(e, d.config, d);
        SameConfigurationWire(e, d.config);
      }
      assert Emitted(e, d) <==> Emitted(n, d);
    }
    SortedListUnique(ds, ds');
  }

  lemma SameConfigurationWire(e: Entity, i: nat)
    requires WfEntity(e) && NumbersFit(e) && i < |e.configurations| && ConfigurationSurvives(e.configurations[i])
    ensures ConfigurationWire(NormalEntity(e).configurations[i], i) == ConfigurationWire(e.configurations[i], i)
  {
    hide NormalEntity, ConfigurationWire, KeptHead, HeadPieces, Place, NumbersFit, AddConfiguration, Clean;
    var c := e.configurations[i];
    assert c in e.configurations;
    TripConfigurationWire(e, i);
    NamedExtent(CONFIGURATION);
    HeadsKept(CONFIGURATION, c.head);
    assert c.(head := c.head) == c;
  }

  lemma SameKeySameDescriptor(ds: seq<FlatDescriptor>, a: FlatDescriptor, b: FlatDescriptor)
    requires StrictlySorted(ds) && a in ds && b in ds && SameKey(a, b)
    ensures a == b
  {
    var i :| 0 <= i < |ds| && ds[i] == a;
    var j :| 0 <= j < |ds| && ds[j] == b;
    assert i == j;
  }

  /** If the lists agree, each body came back. */
  lemma SameListSameBody(ds: seq<FlatDescriptor>, e: Entity, config: nat, t: nat, i: nat)
    requires Compiles(e) && IsFlat(ds, e) && IsFlat(ds, NormalEntity(e))
    requires config < |e.configurations| && i < Size(AddConfiguration(e.configurations[config]), t)
    ensures BodySurvives(t, At(AddConfiguration(e.configurations[config]), t)[i].body)
  {
    hide AddConfiguration, NormalEntity, WfEntity, NumbersFit, Written, ConfigurationWire, FinalEntityWire, StrictlySorted, Encode, Decode,
      Settled, BodySurvives, Encodable, TailWritten;
    var P, Q := AddConfiguration(e.configurations[config]), AddConfiguration(NormalEntity(e).configurations[config]);
    var b := At(P, t)[i].body;
    TripPools(e, config, t);
    PoolBody(e, config, t, i);
    BodiesKept(t, b);
    var x, y := Flat(config, t, i, Encode(t, i, b)), Flat(config, t, i, Encode(t, i, Settled(t, b)));
    assert InPools(x, config, P) && InPools(y, config, Q);
    assert x in ds && y in ds;
    SameKeySameDescriptor(ds, x, y);
    DecodeEncode(t, i, b);
    DecodeEncode(t, i, Settled(t, b));
  }

  lemma SameListSameHead(ds: seq<FlatDescriptor>, e: Entity, config: nat)
    requires Compiles(e) && IsFlat(ds, e) && IsFlat(ds, NormalEntity(e))
    requires config < |e.configurations|
    ensures Clean(HeadPieces(CONFIGURATION), e.configurations[config].head)
  {
    hide AddConfiguration, NormalEntity, NumbersFit, Written, FinalEntityWire, StrictlySorted, InPools, ConfigurationWire, KeptHead, HeadPieces,
      Place, Clean;
    var c := e.configurations[config];
    assert c in e.configurations;
    var h := KeptHead(CONFIGURATION, c.head);
    NamedExtent(CONFIGURATION);
    KeptLengths(CONFIGURATION, c.head, []);
    HeadsKept(CONFIGURATION, c.head);
    TripConfigurationWire(e, config);
    var x, y := Flat(config, CONFIGURATION, config, ConfigurationWire(c, config)),
                Flat(config, CONFIGURATION, config, ConfigurationWire(c.(head := h), config));
    assert x in ds by { assert Emitted(e, x); }
    assert y in ds by { assert Emitted(NormalEntity(e), y); }
    SameKeySameDescriptor(ds, x, y);
    HeadOnWire(c, config);
    HeadOnWire(c.(head := h), config);
  }

  lemma HeadOnWire(c: Configuration, i: nat)
    requires |c.head| == 66
    ensures |ConfigurationWire(c, i)| >= 70 && ConfigurationWire(c, i)[4..70] == c.head
  {
    hide CountTable, Word;
    var table := CountTable(c, COUNTED_TYPES);
    assert ConfigurationWire(c, i) == (Word(CONFIGURATION) + Word(i)) + c.head + (Word(|table| / 4) + Word(74) + table);
  }

  lemma SurviveWhenSame(ds: seq<FlatDescriptor>, e: Entity)
    requires Compiles(e) && IsFlat(ds, e) && IsFlat(ds, NormalEntity(e))
    ensures AllSurvive(e)
  {
    hide AddConfiguration, NormalEntity, WfConfiguration, NumbersFit, Written, ConfigurationWire, FinalEntityWire, StrictlySorted, InPools, Clean,
      BodySurvives, HeadPieces;
    TripEntityWire(e);
    var x, y := Flat(0, ENTITY, 0, FinalEntityWire(e)), Flat(0, ENTITY, 0, FinalEntityWire(NormalEntity(e)));
    assert x in ds by { assert Emitted(e, x); }
    assert y in ds by { assert Emitted(NormalEntity(e), y); }
    SameKeySameDescriptor(ds, x, y);
    forall config | 0 <= config < |e.configurations| ensures ConfigurationSurvives(e.configurations[config]) {
      SameListSameHead(ds, e, config);
      forall t, i | 0 <= i < Size(AddConfiguration(e.configurations[config]), t)
        ensures BodySurvives(t, At(AddConfiguration(e.configurations[config]), t)[i].body)
      {
        SameListSameBody(ds, e, config, t, i);
      }
    }
  }

  /** Recompiling a decompiled entity changes nothing exactly when every control payload fits, no video or sensor
      cluster carries formats, and every string field is clean: no octets behind a NUL, no character cut in two.
      Then the two compiled lists are equal, descriptor by descriptor and octet by octet, including every index,
      count and base. */
  lemma RecompileChangesNothing(ds: seq<FlatDescriptor>, e: Entity, ds': seq<FlatDescriptor>)
    requires Compiles(e) && IsFlat(ds, e)
    requires IsFlat(ds', NormalEntity(e))
    ensures ds' == ds <==> AllSurvive(e)
  {
    hide Compiles, NormalEntity, AllSurvive, IsFlat;
    if AllSurvive(e) {
      SameWhenAllSurvive(ds, e, ds');
    }
    if ds' == ds {
      SurviveWhenSame(ds, e);
    }
  }

  // ---- what a trip makes of a compiled list ----

  /** A compiled descriptor parsed and serialized on its own. */
  function Tripped(d: FlatDescriptor): (r: FlatDescriptor)
    ensures SameKey(d, r)
  {
    var w := d.data;
    d.(data := if d.dtype == ENTITY then (if |w| < 308 then w else w[..4] + KeptHead(ENTITY, w[4..308]) + w[308..])
               else if d.dtype == CONFIGURATION then (if |w| < 70 then w else w[..4] + KeptHead(CONFIGURATION, w[4..70]) + w[70..])
               else Encode(d.dtype, d.index, ParsedBody(d.dtype, w)))
  }

  function AllTripped(ds: seq<FlatDescriptor>): (r: seq<FlatDescriptor>)
    ensures |r| == |ds| && forall i :: 0 <= i < |ds| ==> r[i] == Tripped(ds[i])
  {
    seq(|ds|, i requires 0 <= i < |ds| => Tripped(ds[i]))
  }

  lemma TrippedEntity(e: Entity)
    requires Compiles(e)
    ensures Tripped(Flat(0, ENTITY, 0, FinalEntityWire(e))) == Flat(0, ENTITY, 0, FinalEntityWire(NormalEntity(e)))
    ensures |FinalEntityWire(NormalEntity(e))| == |FinalEntityWire(e)|
  {
    hide WfConfiguration, NumbersFit, Written, FinalEntityWire, NormalEntity, KeptHead, Word, Clean;
    var w, n := FinalEntityWire(e), NormalEntity(e);
    EntityParts(e);
    EntityParts(n);
    TripEntityWire(e);
    var h, rest := w[4..308], Word(|e.configurations|) + Word(0);
    assert w == (Word(ENTITY) + Word(0)) + h + rest;
    assert w[..4] == Word(ENTITY) + Word(0) && w[308..] == rest;
    assert w[..4] + KeptHead(ENTITY, h) + w[308..] == FinalEntityWire(n);
  }

  lemma TrippedConfiguration(e: Entity, i: nat)
    requires Compiles(e) && i < |e.configurations|
    ensures Tripped(Flat(i, CONFIGURATION, i, ConfigurationWire(e.configurations[i], i)))
            == Flat(i, CONFIGURATION, i, ConfigurationWire(NormalEntity(e).configurations[i], i))
    ensures |ConfigurationWire(NormalEntity(e).configurations[i], i)| == |ConfigurationWire(e.configurations[i], i)|
  {
    hide WfConfiguration, NumbersFit, Written, NormalEntity, KeptHead, HeadPieces, Place, Word, CountTable, Total;
    var c := e.configurations[i];
    var h, table := KeptHead(CONFIGURATION, c.head), CountTable(c, COUNTED_TYPES);
    ConfigurationHeadLength(e, i);
    TripConfigurationWire(e, i);
    NamedExtent(CONFIGURATION);
    KeptLengths(CONFIGURATION, c.head, []);
    HeadNotListed(c, h, COUNTED_TYPES);
    var front, back := Word(CONFIGURATION) + Word(i), Word(|table| / 4) + Word(74) + table;
    var w := ConfigurationWire(c, i);
    assert w == front + c.head + back;
    assert ConfigurationWire(c.(head := h), i) == front + h + back;
    assert w[..4] == front && w[4..70] == c.head && w[70..] == back;
  }

  lemma {:induction false} HeadNotListed(c: Configuration, h: bytes, ts: seq<nat>)
    ensures CountTable(c.(head := h), ts) == CountTable(c, ts)
  {
    hide Total, Word;
    if ts != [] {
      HeadNotListed(c, h, ts[..|ts| - 1]);
      HeadNotCounted(c, h, ts[|ts| - 1]);
    }
  }

  lemma TrippedItem(e: Entity, config: nat, t: nat, i: nat)
    requires Compiles(e) && config < |e.configurations| && i < Size(AddConfiguration(e.configurations[config]), t)
    ensures Size(AddConfiguration(NormalEntity(e).configurations[config]), t) == Size(AddConfiguration(e.configurations[config]), t)
    ensures var x := Encode(t, i, At(AddConfiguration(e.configurations[config]), t)[i].body);
            var y := Encode(t, i, At(AddConfiguration(NormalEntity(e).configurations[config]), t)[i].body);
            Tripped(Flat(config, t, i, x)) == Flat(config, t, i, y) && |y| <= |x|
  {
    hide WfEntity, NumbersFit, Written, NormalEntity, AddConfiguration, Encode, ParsedBody, Readable, TailWritten, HeadLength, RangeCount, KeptHead,
      KeptTail, HeadPieces, Place, TailShape, Survives;
    var b := At(AddConfiguration(e.configurations[config]), t)[i].body;
    TripPools(e, config, t);
    PoolBody(e, config, t, i);
    WrittenIsReadable(t, i, b);
    BodiesKept(t, b);
    KeptNotLonger(t, b.tail);
  }

  lemma TrippedEmitted(e: Entity, d: FlatDescriptor)
    requires Compiles(e) && Emitted(e, d)
    ensures Emitted(NormalEntity(e), Tripped(d)) && |Tripped(d).data| <= |d.data|
  {
    hide WfConfiguration, NumbersFit, Written, NormalEntity, AddConfiguration, Encode, ConfigurationWire, FinalEntityWire, Tripped;
    if d == Flat(0, ENTITY, 0, FinalEntityWire(e)) {
      TrippedEntity(e);
    } else if d.dtype == CONFIGURATION && d.index == d.config && d.data == ConfigurationWire(e.configurations[d.config], d.config) {
      TrippedConfiguration(e, d.config);
    } else {
      TrippedItem(e, d.config, d.dtype, d.index);
      assert InPools(Tripped(d), d.config, AddConfiguration(NormalEntity(e).configurations[d.config]));
    }
  }

  /** Everything the normal form emits is a descriptor of the original, tripped. */
  lemma EmittedTripped(e: Entity, y: FlatDescriptor) returns (d: FlatDescriptor)
    requires Compiles(e) && Emitted(NormalEntity(e), y)
    ensures Emitted(e, d) && Tripped(d) == y
  {
    hide WfConfiguration, NumbersFit, Written, NormalEntity, AddConfiguration, Encode, ConfigurationWire, FinalEntityWire, Tripped;
    var n := NormalEntity(e);
    if y == Flat(0, ENTITY, 0, FinalEntityWire(n)) {
      TrippedEntity(e);
      d := Flat(0, ENTITY, 0, FinalEntityWire(e));
    } else if y.dtype == CONFIGURATION && y.index == y.config && y.data == ConfigurationWire(n.configurations[y.config], y.config) {
      TrippedConfiguration(e, y.config);
      d := Flat(y.config, CONFIGURATION, y.config, ConfigurationWire(e.configurations[y.config], y.config));
    } else {
      var P := AddConfiguration(e.configurations[y.config]);
      assert WfEntity(e);
      SameSizes(e, y.config, y.dtype);
      TrippedItem(e, y.config, y.dtype, y.index);
      d := Flat(y.config, y.dtype, y.index, Encode(y.dtype, y.index, At(P, y.dtype)[y.index].body));
      assert InPools(d, y.config, P);
    }
  }

  lemma SameSizes(e: Entity, config: nat, t: nat)
    requires Compiles(e) && config < |e.configurations|
    ensures Size(AddConfiguration(NormalEntity(e).configurations[config]), t) == Size(AddConfiguration(e.configurations[config]), t)
  {
    hide WfEntity, NumbersFit, Written, NormalEntity, AddConfiguration, Settled;
    TripPools(e, config, t);
  }

  lemma TrippedIsSorted(ds: seq<FlatDescriptor>)
    requires StrictlySorted(ds)
    ensures StrictlySorted(AllTripped(ds))
  {
    hide Tripped;
    var r := AllTripped(ds);
    forall i, j | 0 <= i < j < |r| ensures KeyBelow(r[i], r[j]) {
      assert KeyBelow(ds[i], ds[j]) && SameKey(ds[i], r[i]) && SameKey(ds[j], r[j]);
    }
  }

  /** Decompiling a compiled list and compiling the result is parsing and serializing every descriptor on its own,
      in place: no index, count, base or order changes, whatever the octets do, and nothing gets longer. */
  lemma RecompileIsPointwise(ds: seq<FlatDescriptor>, e: Entity, ds': seq<FlatDescriptor>)
    requires Compiles(e) && IsFlat(ds, e) && IsFlat(ds', NormalEntity(e))
    ensures ds' == AllTripped(ds)
    ensures forall i :: 0 <= i < |ds| ==> SameKey(ds'[i], ds[i]) && |ds'[i].data| <= |ds[i].data|
  {
    hide WfEntity, NumbersFit, Written, NormalEntity, Emitted, StrictlySorted, Tripped;
    var r := AllTripped(ds);
    forall i | 0 <= i < |ds| ensures Emitted(NormalEntity(e), r[i]) && |r[i].data| <= |ds[i].data| {
      assert ds[i] in ds;
      WellHeaded(e);
      TrippedEmitted(e, ds[i]);
    }
    TrippedIsSorted(ds);
    forall y ensures y in r <==> y in ds' {
      if y in ds' {
        var d := EmittedTripped(e, y);
        WellHeaded(e);
        assert d in ds;
        var i :| 0 <= i < |ds| && ds[i] == d;
        assert r[i] == y;
      }
    }
    SortedListUnique(r, ds');
    assert forall i :: 0 <= i < |ds| ==> SameKey(ds[i], Tripped(ds[i]));
  }

  lemma WellHeaded(e: Entity)
    requires WfEntity(e)
    ensures |e.head| == 304
  {
  }

  // ---- the second trip ----

  /** Nothing more changes: the settled tree of the normal form holds the bodies the settled tree held. */
  lemma StillHolds(ds: seq<FlatDescriptor>, e: Entity, i: nat)
    requires Compiles(e) && IsFlat(ds, e) && i < |e.configurations| && AllSurvive(NormalEntity(e))
    ensures var n := NormalEntity(e);
            WfConfiguration(n.configurations[i])
            && Holds(Parsed(Grouped(ds, i)), AddConfiguration(SettleConfiguration(n.configurations[i])))
  {
    hide AddConfiguration, NormalEntity, WfConfiguration, NumbersFit, Written, IsFlat, Settled, SettleConfiguration, Parsed, Grouped, LongEnough,
      BodySurvives, Encodable, TailWritten, Clean;
    var n, T := NormalEntity(e), Parsed(Grouped(ds, i));
    var c, m := e.configurations[i], n.configurations[i];
    NormalEntityCompiles(e);
    assert c in e.configurations && m in n.configurations;
    CompiledIsLongEnough(ds, e, i);
    SettlingAllocatesTheSame(c);
    SettlingAllocatesTheSame(m);
    var P, P', Q, Q' := AddConfiguration(c), AddConfiguration(SettleConfiguration(c)), AddConfiguration(m), AddConfiguration(SettleConfiguration(m));
    forall t: nat | t >= 2
      ensures Size(P', t) == Size(Q', t) && forall j :: 0 <= j < Size(P', t) ==> At(Q', t)[j].body == At(P', t)[j].body
    {
      TripPools(e, i, t);
      assert SettlesAt(P, P', t) && SettlesAt(Q, Q', t);
      forall j | 0 <= j < Size(P', t) ensures At(Q', t)[j].body == At(P', t)[j].body {
        PoolBody(n, i, t, j);
        assert BodySurvives(t, At(Q, t)[j].body);
        BodiesKept(t, At(Q, t)[j].body);
      }
    }
  }

  /** A second trip changes nothing exactly when everything the first one left survives. */
  lemma NormalFormIsFixed(ds: seq<FlatDescriptor>, e: Entity, ds': seq<FlatDescriptor>)
    requires Compiles(e) && IsFlat(ds, e) && IsFlat(ds', NormalEntity(e))
    ensures Compiles(NormalEntity(e))
    ensures NormalEntity(NormalEntity(e)) == NormalEntity(e) <==> AllSurvive(NormalEntity(e))
  {
    hide WfEntity, NumbersFit, Written, IsFlat, AllSurvive, NormalEntity;
    NormalEntityCompiles(e);
    if AllSurvive(NormalEntity(e)) {
      FixedWhenAllSurvive(ds, e);
    }
    if NormalEntity(NormalEntity(e)) == NormalEntity(e) {
      SurviveWhenSame(ds', NormalEntity(e));
    }
  }

  lemma FixedWhenAllSurvive(ds: seq<FlatDescriptor>, e: Entity)
    requires Compiles(e) && IsFlat(ds, e) && Compiles(NormalEntity(e)) && AllSurvive(NormalEntity(e))
    ensures NormalEntity(NormalEntity(e)) == NormalEntity(e)
  {
    hide AddConfiguration, WfConfiguration, NumbersFit, Written, IsFlat, Settled, SettleConfiguration, Parsed, Grouped, Holds, Rebuild,
      NormalOfSettled, KeptHead, FinalEntityWire, ConfigurationSurvives, Clean, HeadPieces;
    var n := NormalEntity(e);
    var n' := NormalEntity(n);
    TripEntityWire(e);
    TripEntityWire(n);
    forall i | 0 <= i < |n.configurations| ensures n'.configurations[i] == n.configurations[i] {
      SameConfiguration(ds, e, i);
    }
    EntityExtent();
    assert n'.head == n.head by { HeadStays(e); }
  }

  lemma HeadStays(e: Entity)
    requires Compiles(e) && Compiles(NormalEntity(e)) && AllSurvive(NormalEntity(e))
    ensures NormalEntity(NormalEntity(e)).head == NormalEntity(e).head
  {
    hide AddConfiguration, WfConfiguration, NumbersFit, Written, NormalOfSettled, KeptHead, FinalEntityWire, ConfigurationSurvives, Clean, HeadPieces;
    TripEntityWire(e);
    TripEntityWire(NormalEntity(e));
  }

  lemma SameConfiguration(ds: seq<FlatDescriptor>, e: Entity, i: nat)
    requires Compiles(e) && IsFlat(ds, e) && Compiles(NormalEntity(e)) && AllSurvive(NormalEntity(e)) && i < |e.configurations|
    ensures NormalEntity(NormalEntity(e)).configurations[i] == NormalEntity(e).configurations[i]
  {
    hide AddConfiguration, WfConfiguration, NumbersFit, Written, IsFlat, Settled, SettleConfiguration, Parsed, Grouped, Holds, Rebuild,
      NormalOfSettled, KeptHead, FinalEntityWire, Clean, HeadPieces, BodySurvives, Place;
    var n, T := NormalEntity(e), Parsed(Grouped(ds, i));
    var c, m := e.configurations[i], n.configurations[i];
    assert c in e.configurations && m in n.configurations;
    CompiledIsLongEnough(ds, e, i);
    StillHolds(ds, e, i);
    RebuildsNormal(T, c);
    RebuildsNormal(T, m);
    NormalHead(e, i);
    NamedExtent(CONFIGURATION);
    KeptLengths(CONFIGURATION, c.head, []);
    HeadsKept(CONFIGURATION, m.head);
  }

  // ---- trips come to rest ----

  /** The entity after n times compiling and decompiling. */
  ghost function Trips(e: Entity, n: nat): (r: Entity)
    requires Compiles(e)
    ensures Compiles(r) && |r.configurations| == |e.configurations|
    decreases n
  {
    if n == 0 then e else
      NormalEntityCompiles(e);
      Trips(NormalEntity(e), n - 1)
  }

  lemma {:induction false} PoolTrips(e: Entity, n: nat, config: nat, t: nat)
    requires Compiles(e) && config < |e.configurations|
    ensures var P, Q := AddConfiguration(e.configurations[config]), AddConfiguration(Trips(e, n).configurations[config]);
            Size(Q, t) == Size(P, t)
            && forall i :: 0 <= i < Size(P, t) ==> At(Q, t)[i].body.tail == TailTrips(t, At(P, t)[i].body.tail, n)
    decreases n
  {
    hide WfEntity, NumbersFit, Written, NormalEntity, AddConfiguration, KeptTail, KeptHead;
    if n > 0 {
      NormalEntityCompiles(e);
      TripPools(e, config, t);
      PoolTrips(NormalEntity(e), n - 1, config, t);
    }
  }

  lemma {:induction false} EntityHeadIsClean(e: Entity, n: nat)
    requires Compiles(e) && n > 1
    ensures Clean(HeadPieces(ENTITY), Trips(e, n).head)
    decreases n
  {
    hide NumbersFit, Written, NormalOfSettled, KeptHead, HeadPieces, Clean, Place, FinalEntityWire, WfConfiguration;
    NormalEntityCompiles(e);
    NormalEntityCompiles(NormalEntity(e));
    if n > 2 {
      EntityHeadIsClean(NormalEntity(e), n - 1);
    } else {
      TwiceTripped(e);
      EntityExtent();
      TripEntityWire(e);
      HeadTwiceIsClean(ENTITY, FinalEntityWire(e)[4..308]);
    }
  }

  lemma TwiceTripped(e: Entity)
    requires Compiles(e) && Compiles(NormalEntity(e))
    ensures Trips(e, 2) == NormalEntity(NormalEntity(e))
  {
    hide WfEntity, NumbersFit, Written, NormalEntity;
    assert Trips(e, 2) == Trips(NormalEntity(e), 1);
    NormalEntityCompiles(NormalEntity(e));
    assert Trips(NormalEntity(e), 1) == Trips(NormalEntity(NormalEntity(e)), 0);
  }

  lemma ConfigurationHeadLength(e: Entity, config: nat)
    requires WfEntity(e) && config < |e.configurations|
    ensures |e.configurations[config].head| == 66
  {
    assert e.configurations[config] in e.configurations;
  }

  lemma NormalHeadsAreClean(e: Entity, config: nat)
    requires Compiles(e) && Compiles(NormalEntity(e)) && config < |e.configurations|
    ensures Clean(HeadPieces(CONFIGURATION), NormalEntity(NormalEntity(e)).configurations[config].head)
  {
    hide NumbersFit, Written, NormalEntity, AddConfiguration, KeptHead, HeadPieces, Clean, Place, WfConfiguration;
    NamedExtent(CONFIGURATION);
    ConfigurationHeadLength(e, config);
    NormalHead(e, config);
    NormalHead(NormalEntity(e), config);
    HeadTwiceIsClean(CONFIGURATION, e.configurations[config].head);
  }

  lemma NormalBodyHeadsAreClean(e: Entity, config: nat, t: nat, i: nat)
    requires Compiles(e) && Compiles(NormalEntity(e)) && config < |e.configurations|
    requires i < Size(AddConfiguration(NormalEntity(NormalEntity(e)).configurations[config]), t)
    ensures Clean(HeadPieces(t), At(AddConfiguration(NormalEntity(NormalEntity(e)).configurations[config]), t)[i].body.head)
  {
    hide WfEntity, NumbersFit, Written, NormalEntity, AddConfiguration, KeptTail, KeptHead, HeadPieces, Clean, Place, HeadLength, RangeCount,
      TailWritten;
    TripPools(e, config, t);
    TripPools(NormalEntity(e), config, t);
    PoolBody(e, config, t, i);
    HeadLengths(t);
    HeadTwiceIsClean(t, At(AddConfiguration(e.configurations[config]), t)[i].body.head);
  }

  /** Every string before the ranges is clean after two trips or more. */
  lemma {:induction false} TripHeadsAreClean(e: Entity, n: nat, config: nat)
    requires Compiles(e) && n > 1 && config < |e.configurations|
    ensures var c := Trips(e, n).configurations[config];
            Clean(HeadPieces(CONFIGURATION), c.head)
            && forall t, i :: 0 <= i < Size(AddConfiguration(c), t) ==> Clean(HeadPieces(t), At(AddConfiguration(c), t)[i].body.head)
    decreases n
  {
    hide WfEntity, NumbersFit, Written, NormalEntity, AddConfiguration, HeadPieces, Clean;
    NormalEntityCompiles(e);
    if n > 2 {
      TripHeadsAreClean(NormalEntity(e), n - 1, config);
    } else {
      TwiceTripped(e);
      NormalHeadsAreClean(e, config);
      var c := NormalEntity(NormalEntity(e)).configurations[config];
      forall t, i | 0 <= i < Size(AddConfiguration(c), t) ensures Clean(HeadPieces(t), At(AddConfiguration(c), t)[i].body.head) {
        NormalBodyHeadsAreClean(e, config, t, i);
      }
    }
  }

  /** No descriptor of the entity has n octets or more after its ranges. */
  ghost predicate ShorterThan(e: Entity, n: nat) {
    forall config, t, i :: 0 <= config < |e.configurations| && 0 <= i < Size(AddConfiguration(e.configurations[config]), t)
      ==> |At(AddConfiguration(e.configurations[config]), t)[i].body.tail| < n
  }

  lemma ConfigurationAtRest(e: Entity, n: nat, config: nat)
    requires Compiles(e) && ShorterThan(e, n) && n > 1 && config < |e.configurations|
    ensures ConfigurationSurvives(Trips(e, n).configurations[config])
  {
    hide WfEntity, NumbersFit, Written, AddConfiguration, HeadPieces, Clean, Trips, Survives, TailWritten, Encodable;
    var P, c := AddConfiguration(e.configurations[config]), Trips(e, n).configurations[config];
    TripHeadsAreClean(e, n, config);
    forall t, i | 0 <= i < Size(AddConfiguration(c), t) ensures BodySurvives(t, At(AddConfiguration(c), t)[i].body) {
      PoolTrips(e, n, config, t);
      PoolBody(e, config, t, i);
      TailsComeToRest(t, At(P, t)[i].body.tail, n);
    }
  }

  /** However many payloads are cut, trips come to rest: once there have been two, and more than any descriptor has
      octets after its ranges, compiling and decompiling changes nothing any more. */
  lemma TripsComeToRest(e: Entity, n: nat, ds: seq<FlatDescriptor>, ds': seq<FlatDescriptor>)
    requires Compiles(e) && ShorterThan(e, n) && n > 1
    requires IsFlat(ds, Trips(e, n)) && IsFlat(ds', NormalEntity(Trips(e, n)))
    ensures AllSurvive(Trips(e, n)) && ds' == ds
  {
    hide WfEntity, NumbersFit, Written, NormalEntity, IsFlat, ShorterThan, Trips, ConfigurationSurvives, Clean, HeadPieces;
    var r := Trips(e, n);
    EntityHeadIsClean(e, n);
    forall i | 0 <= i < |r.configurations| ensures ConfigurationSurvives(r.configurations[i]) {
      ConfigurationAtRest(e, n, i);
    }
    RecompileChangesNothing(ds, r, ds');
  }
}
