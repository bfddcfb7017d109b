/** A compiled descriptor list, read octet by octet. */
module CompiledOctets {
  import opened Wire
  import opened AemModel
  import opened Pools
  import opened Counts
  import opened Codec
  import opened Stages
  import opened Flatten
  import opened Recompile
  import opened Compiler
  import opened AemTheorems

  // ---- every descriptor ----

  lemma TypesAreSmall(t: nat)
    requires t in COUNTED_TYPES
    ensures 2 <= t <= 0x42
  {
  }

  lemma PoolTypes(c: Configuration, t: nat)
    requires WfConfiguration(c) && Size(AddConfiguration(c), t) > 0
    ensures t in COUNTED_TYPES && 2 <= t <= 0x42
  {
    hide AddConfiguration, WfConfiguration, Total;
    CountTableIsExact(c, t);
    if t !in COUNTED_TYPES { NothingOutsideTable(c, t); }
    TypesAreSmall(t);
  }

  lemma FirstWords(w: bytes, t: nat, i: nat, rest: bytes)
    requires w == Word(t) + Word(i) + rest && t <= 0xFFFF && i <= 0xFFFF
    ensures |w| >= 4 && U16At(w, 0) == t && U16At(w, 2) == i && w[4..] == rest
  {
    hide Word, U16At;
    assert w[0..2] == Word(t) && w[2..4] == Word(i);
    WordReads(w, 0, t);
    WordReads(w, 2, i);
  }

  lemma EncodedWords(t: nat, i: nat, b: Body)
    requires t <= 0xFFFF && i <= 0xFFFF
    ensures var w := Encode(t, i, b); |w| >= 4 && U16At(w, 0) == t && U16At(w, 2) == i
  {
    hide Word, U16At, RangeOctets;
    assert Encode(t, i, b) == Word(t) + Word(i) + (b.head + RangeOctets(b.ranges) + b.tail);
    FirstWords(Encode(t, i, b), t, i, b.head + RangeOctets(b.ranges) + b.tail);
  }

  /** A descriptor starts with its own type and index; all three parts of its key fit 16 bits. */
  lemma HeaderWords(ds: seq<FlatDescriptor>, e: Entity, d: FlatDescriptor)
    requires WfEntity(e) && NumbersFit(e) && IsFlat(ds, e) && d in ds
    ensures |d.data| >= 4 && U16At(d.data, 0) == d.dtype && U16At(d.data, 2) == d.index
    ensures d.config <= 0xFFFF && d.dtype <= 0x42 && (d.dtype < 2 ==> d.index == d.config)
  {
    hide AddConfiguration, WfConfiguration, Encode, CountTable, Word, U16At, HasIdentify, NumbersFit, StrictlySorted;
    assert Emitted(e, d);
    assert |e.configurations| <= 0xFFFF by { FewConfigurations(e); }
    if d == Flat(0, ENTITY, 0, FinalEntityWire(e)) {
      EntityParts(e);
    } else if d.dtype == CONFIGURATION && d.data == ConfigurationWire(e.configurations[d.config], d.config) && d.index == d.config {
      var c := e.configurations[d.config];
      var table := CountTable(c, COUNTED_TYPES);
      assert d.data == Word(CONFIGURATION) + Word(d.config) + (c.head + Word(|table| / 4) + Word(74) + table);
      FirstWords(d.data, CONFIGURATION, d.config, c.head + Word(|table| / 4) + Word(74) + table);
    } else {
      var c := e.configurations[d.config];
      assert c in e.configurations;
      PoolTypes(c, d.dtype);
      CountsFitPools(e, d.config);
      FitsAt(AddConfiguration(c), d.dtype);
      EncodedWords(d.dtype, d.index, At(AddConfiguration(c), d.dtype)[d.index].body);
    }
  }

  lemma FewConfigurations(e: Entity)
    requires NumbersFit(e)
    ensures |e.configurations| <= 0xFFFF
  {
  }

  /** The list is in the order of its keys, taken as one number. */
  lemma KeysAscend(ds: seq<FlatDescriptor>, e: Entity, i: nat, j: nat)
    requires WfEntity(e) && NumbersFit(e) && IsFlat(ds, e) && i < j < |ds|
    ensures (ds[i].config * 0x1_0000 + ds[i].dtype) * 0x1_0000 + ds[i].index
            < (ds[j].config * 0x1_0000 + ds[j].dtype) * 0x1_0000 + ds[j].index
  {
    hide Emitted, NumbersFit, U16At;
    assert KeyBelow(ds[i], ds[j]);
    HeaderWords(ds, e, ds[i]);
    HeaderWords(ds, e, ds[j]);
  }

  // ---- ENTITY ----

  /** The ENTITY's octets: the author's fields around the capabilities, the number of configurations at 308, and zero. */
  lemma EntityParts(e: Entity)
    requires |e.head| == 304 && |e.configurations| <= 0xFFFF
    ensures var w := FinalEntityWire(e);
            && |w| == 312 && U16At(w, 0) == 0 && U16At(w, 2) == 0 && w[4..20] == e.head[..16] && w[24..308] == e.head[20..]
            && U16At(w, 308) == |e.configurations| && U16At(w, 310) == 0
    ensures var was, now := U32At(e.head, 16), U32At(FinalEntityWire(e), 20);
            && now / 0x8000 == was / 0x8000 && now % 0x4000 == was % 0x4000
            && (now / 0x4000 % 2 == 1 <==> was / 0x4000 % 2 == 1 || HasIdentify(e))
  {
    hide Word, U16At, HasIdentify, WithIdentifyBit;
    var w, v, n := EntityWire(e), FinalEntityWire(e), |e.configurations|;
    assert w == Word(0) + Word(0) + (e.head + Word(n) + Word(0));
    FirstWords(w, 0, 0, e.head + Word(n) + Word(0));
    assert w[4..308] == e.head && w[308..310] == Word(n) && w[310..312] == Word(0);
    assert v[..20] == w[..20] && v[24..] == w[24..];
    Same16(v, w, 0);
    Same16(v, w, 2);
    Same16(v, w, 308);
    Same16(v, w, 310);
    WordReads(w, 308, n);
    WordReads(w, 310, 0);
    assert w[4..20] == e.head[..16] && w[24..308] == e.head[20..];
    assert v[4..20] == w[4..20] && v[24..308] == w[24..308];
    assert U32At(w, 20) == U32At(e.head, 16) by {
      assert w[20..24] == e.head[16..20];
      Same32(w, 20, e.head, 16);
    }
    if HasIdentify(e) {
      var x := WithIdentifyBit(U32At(w, 20));
      assert v[20..24] == U32(x);
      U32Reads(v, 20, x);
    }
  }

  lemma Same16(v: bytes, w: bytes, at: nat)
    requires at + 2 <= |v| == |w| && (at + 2 <= 20 || at >= 24) && |w| >= 24 && v[..20] == w[..20] && v[24..] == w[24..]
    ensures U16At(v, at) == U16At(w, at)
  {
    if at + 2 <= 20 {
      assert v[at] == v[..20][at] && v[at + 1] == v[..20][at + 1] && w[at] == w[..20][at] && w[at + 1] == w[..20][at + 1];
    } else {
      assert v[at] == v[24..][at - 24] && v[at + 1] == v[24..][at - 23] && w[at] == w[24..][at - 24] && w[at + 1] == w[24..][at - 23];
    }
  }

  lemma Same32(v: bytes, i: nat, w: bytes, j: nat)
    requires i + 4 <= |v| && j + 4 <= |w| && v[i..i + 4] == w[j..j + 4]
    ensures U32At(v, i) == U32At(w, j)
  {
    var x, y := v[i..i + 4], w[j..j + 4];
    assert x[0] == v[i] && x[1] == v[i + 1] && x[2] == v[i + 2] && x[3] == v[i + 3];
    assert y[0] == w[j] && y[1] == w[j + 1] && y[2] == w[j + 2] && y[3] == w[j + 3];
  }

  lemma U32Reads(w: bytes, at: nat, v: nat)
    requires at + 4 <= |w| && v < 0x1_0000_0000 && w[at..at + 4] == U32(v)
    ensures U32At(w, at) == v
  {
    var x := w[at..at + 4];
    assert x[0] == w[at] && x[1] == w[at + 1] && x[2] == w[at + 2] && x[3] == w[at + 3];
  }

  /** A control_type of 90-E0-F0-00-00-00-00-01 in a CONTROL of configuration 0. */
  predicate Identifies(d: FlatDescriptor) {
    d.config == 0 && d.dtype == 0x1A && |d.data| >= 90 && d.data[82..90] == [0x90, 0xE0, 0xF0, 0, 0, 0, 0, 1]
  }

  lemma IdentifyListed(ds: seq<FlatDescriptor>, e: Entity)
    requires WfEntity(e) && IsFlat(ds, e)
    ensures HasIdentify(e) <==> exists d :: d in ds && Identifies(d)
  {
    hide AddConfiguration, ConfigurationWire, WfConfiguration, Encode, FinalEntityWire, StrictlySorted;
    if d :| d in ds && Identifies(d) {
      assert Emitted(e, d);
      assert InPools(d, 0, AddConfiguration(e.configurations[0]));
    }
    if HasIdentify(e) {
      var P := AddConfiguration(e.configurations[0]);
      var i :| 0 <= i < Size(P, CONTROL) && IsIdentify(Encode(CONTROL, i, At(P, CONTROL)[i].body));
      var d := Flat(0, CONTROL, i, Encode(CONTROL, i, At(P, CONTROL)[i].body));
      assert InPools(d, 0, P);
      assert d in ds && Identifies(d);
    }
  }

  /** The one ENTITY descriptor of a compiled list: the author's fields, the number of configurations at 308, and in the
      capabilities at 20 the author's bits, with bit 14 set also if configuration 0 lists an identify control. */
  lemma EntityDescriptor(ds: seq<FlatDescriptor>, e: Entity, d: FlatDescriptor)
    requires WfEntity(e) && NumbersFit(e) && IsFlat(ds, e) && d in ds && d.dtype == 0
    ensures d.config == 0 && d.index == 0
    ensures var w := d.data;
            && |w| == 312 && w[4..20] == e.head[..16] && w[24..308] == e.head[20..]
            && U16At(w, 308) == |e.configurations| && U16At(w, 310) == 0
    ensures var was, now := U32At(e.head, 16), U32At(d.data, 20);
            && now / 0x8000 == was / 0x8000 && now % 0x4000 == was % 0x4000
            && (now / 0x4000 % 2 == 1 <==> was / 0x4000 % 2 == 1 || exists x :: x in ds && Identifies(x))
  {
    hide AddConfiguration, ConfigurationWire, WfConfiguration, FinalEntityWire, NumbersFit, StrictlySorted, HasIdentify, U16At;
    assert Emitted(e, d);
    if d.config < |e.configurations| {
      assert e.configurations[d.config] in e.configurations;
      NoHeadTypesInPools(e.configurations[d.config], ENTITY);
    }
    FewConfigurations(e);
    EntityParts(e);
    IdentifyListed(ds, e);
  }

  // ---- CONFIGURATION ----

  /** The k-th entry of the count table: a type, and a number. */
  function EntryType(w: bytes, k: nat): nat
    requires 78 + 4 * k <= |w|
  {
    U16At(w, 74 + 4 * k)
  }

  function EntryCount(w: bytes, k: nat): nat
    requires 78 + 4 * k <= |w|
  {
    U16At(w, 76 + 4 * k)
  }

  /** How many descriptors of a type a list has for a configuration. */
  function HowMany(ds: seq<FlatDescriptor>, config: nat, t: nat): (n: nat) {
    if ds == [] then 0 else
      var d := ds[|ds| - 1];
      HowMany(ds[..|ds| - 1], config, t) + if d.config == config && d.dtype == t then 1 else 0
  }

  /** The types a configuration holds, in the order of ts. */
  ghost function Present(c: Configuration, ts: seq<nat>): (s: seq<nat>)
    ensures |s| <= |ts|
  {
    if ts == [] then [] else
      var t := ts[|ts| - 1];
      Present(c, ts[..|ts| - 1]) + if Total(c, t) > 0 then [t] else []
  }

  ghost predicate Ascending(s: seq<nat>) {
    forall i, j :: 0 <= i < j < |s| ==> s[i] < s[j]
  }

  lemma {:induction false} PresentIff(c: Configuration, ts: seq<nat>, t: nat)
    ensures t in Present(c, ts) <==> t in ts && Total(c, t) > 0
  {
    hide Total;
    if ts != [] {
      PresentIff(c, ts[..|ts| - 1], t);
      assert ts == ts[..|ts| - 1] + [ts[|ts| - 1]];
    }
  }

  lemma {:induction false} PresentAscend(c: Configuration, ts: seq<nat>)
    requires Ascending(ts)
    ensures Ascending(Present(c, ts))
  {
    hide Total;
    if ts != [] {
      var init, t := ts[..|ts| - 1], ts[|ts| - 1];
      PresentAscend(c, init);
      var s := Present(c, init);
      forall i | 0 <= i < |s| ensures s[i] < t {
        PresentIff(c, init, s[i]);
        var j :| 0 <= j < |init| && init[j] == s[i];
        assert ts[j] < ts[|init|];
      }
    }
  }

  /** Entry k of the table is the k-th type that is present, and its number. */
  lemma {:induction false} TableEntries(c: Configuration, ts: seq<nat>, k: nat)
    requires k < |Present(c, ts)|
    ensures |CountTable(c, ts)| == 4 * |Present(c, ts)|
    ensures var t := Present(c, ts)[k];
            CountTable(c, ts)[4 * k..4 * k + 2] == Word(t) && CountTable(c, ts)[4 * k + 2..4 * k + 4] == Word(Total(c, t))
  {
    hide Total, Word;
    var init, t := ts[..|ts| - 1], ts[|ts| - 1];
    var s, table := Present(c, init), CountTable(c, init);
    TableLength(c, init);
    if k < |s| {
      TableEntries(c, init, k);
      Prefix(table, CountTable(c, ts), 4 * k, 4 * k + 2);
      Prefix(table, CountTable(c, ts), 4 * k + 2, 4 * k + 4);
    }
  }

  lemma {:induction false} TableLength(c: Configuration, ts: seq<nat>)
    ensures |CountTable(c, ts)| == 4 * |Present(c, ts)|
  {
    hide Total, Word;
    if ts != [] { TableLength(c, ts[..|ts| - 1]); }
  }

  lemma Prefix(a: bytes, b: bytes, i: nat, j: nat)
    requires a <= b && i <= j <= |a|
    ensures b[i..j] == a[i..j]
  {
  }

  lemma TypesAscend()
    ensures Ascending(COUNTED_TYPES) && |COUNTED_TYPES| == 32
  {
  }

  /** CONFIGURATION's octets: where the table is, how long, and its entries. */
  lemma TableOnTheWire(c: Configuration, index: nat, k: nat)
    requires |c.head| == 66 && index <= 0xFFFF && (forall t <- COUNTED_TYPES :: Total(c, t) <= 0xFFFF)
    ensures var w, s := ConfigurationWire(c, index), Present(c, COUNTED_TYPES);
            && |w| == 74 + 4 * |s| && w[4..70] == c.head && U16At(w, 70) == |s| && U16At(w, 72) == 74
            && (k < |s| ==> EntryType(w, k) == s[k] && EntryCount(w, k) == Total(c, s[k]))
  {
    hide Word, U16At, CountTable, Present, Total;
    var w, s, table := ConfigurationWire(c, index), Present(c, COUNTED_TYPES), CountTable(c, COUNTED_TYPES);
    TypesAscend();
    TableLength(c, COUNTED_TYPES);
    var n := |table| / 4;
    assert w == (Word(CONFIGURATION) + Word(index)) + c.head + Word(n) + Word(74) + table;
    assert w[70..72] == Word(n) && w[72..74] == Word(74) && w[74..] == table && w[4..70] == c.head;
    WordReads(w, 70, n);
    WordReads(w, 72, 74);
    if k < |s| {
      TableEntries(c, COUNTED_TYPES, k);
      PresentIff(c, COUNTED_TYPES, s[k]);
      TypesAreSmall(s[k]);
      Subslice(w, 74, |w|, 4 * k, 4 * k + 2);
      Subslice(w, 74, |w|, 4 * k + 2, 4 * k + 4);
      assert w[74..|w|] == table;
      WordReads(w, 74 + 4 * k, s[k]);
      WordReads(w, 76 + 4 * k, Total(c, s[k]));
    }
  }

  // ---- counting in a list ----

  ghost function IndicesOf(ds: seq<FlatDescriptor>, config: nat, t: nat): (s: set<nat>) {
    set d | d in ds && d.config == config && d.dtype == t :: d.index
  }

  lemma {:induction false} CountIsSet(ds: seq<FlatDescriptor>, config: nat, t: nat)
    requires DistinctKeys(ds)
    ensures HowMany(ds, config, t) == |IndicesOf(ds, config, t)|
  {
    if ds != [] {
      var init, x := ds[..|ds| - 1], ds[|ds| - 1];
      assert ds == init + [x];
      CountIsSet(init, config, t);
      var was := IndicesOf(init, config, t);
      if x.config == config && x.dtype == t {
        assert x.index !in was by {
          if d :| d in init && d.config == config && d.dtype == t && d.index == x.index {
            assert SameKey(d, x);
          }
        }
        assert IndicesOf(ds, config, t) == was + {x.index};
      } else {
        assert IndicesOf(ds, config, t) == was;
      }
    }
  }

  ghost function FirstIndices(n: nat): (s: set<nat>)
    ensures |s| == n && forall i: nat :: i in s <==> i < n
  {
    if n == 0 then {} else FirstIndices(n - 1) + {n - 1}
  }

  /** A configuration's descriptors of a type, counted in the list, are as many as its pool has. */
  lemma ListedAreThePool(ds: seq<FlatDescriptor>, e: Entity, config: nat, t: nat)
    requires WfEntity(e) && IsFlat(ds, e) && config < |e.configurations| && t >= 2
    ensures HowMany(ds, config, t) == Size(AddConfiguration(e.configurations[config]), t)
  {
    hide AddConfiguration, ConfigurationWire, WfConfiguration, Encode, FinalEntityWire, HowMany, StrictlySorted;
    var P := AddConfiguration(e.configurations[config]);
    SortedKeysDistinct(ds);
    CountIsSet(ds, config, t);
    forall i: nat ensures i in IndicesOf(ds, config, t) <==> i < Size(P, t) {
      if i < Size(P, t) {
        var d := Flat(config, t, i, Encode(t, i, At(P, t)[i].body));
        assert InPools(d, config, P);
        assert d in ds;
      }
      if i in IndicesOf(ds, config, t) {
        var d :| d in ds && d.config == config && d.dtype == t && d.index == i;
        assert Emitted(e, d);
      }
    }
    assert IndicesOf(ds, config, t) == FirstIndices(Size(P, t));
  }

  /** The count table of every configuration of a compiled list, read from its octets: the offset, the length, the types
      in ascending order, each with the number of descriptors of that type the list has for the configuration, and no
      type missing. */
  lemma CountTableOctets(ds: seq<FlatDescriptor>, e: Entity, d: FlatDescriptor)
    requires WfEntity(e) && NumbersFit(e) && IsFlat(ds, e) && d in ds && d.dtype == 1
    ensures var w := d.data;
            && |w| >= 74 && U16At(w, 72) == 74 && |w| == 74 + 4 * U16At(w, 70)
            && (forall k, l :: 0 <= k < l < U16At(w, 70) ==> EntryType(w, k) < EntryType(w, l))
            && (forall k :: 0 <= k < U16At(w, 70) ==> EntryCount(w, k) == HowMany(ds, d.config, EntryType(w, k)) > 0)
            && (forall x <- ds :: x.config == d.config && x.dtype >= 2 ==> exists k :: 0 <= k < U16At(w, 70) && EntryType(w, k) == x.dtype)
  {
    hide AddConfiguration, ConfigurationWire, WfConfiguration, Encode, FinalEntityWire, HowMany, StrictlySorted, Total, U16At, EntryType,
      EntryCount, Present, HandNumbersFitIn;
    assert Emitted(e, d);
    var c := e.configurations[d.config];
    assert c in e.configurations;
    NoHeadTypesInPools(c, CONFIGURATION);
    var w, s := d.data, Present(c, COUNTED_TYPES);
    assert |c.head| == 66 by { HeadIs66(c); }
    TableOnTheWire(c, d.config, 0);
    TypesAscend();
    PresentAscend(c, COUNTED_TYPES);
    forall k | 0 <= k < |s|
      ensures EntryType(w, k) == s[k] && EntryCount(w, k) == HowMany(ds, d.config, s[k]) > 0
    {
      TableOnTheWire(c, d.config, k);
      PresentIff(c, COUNTED_TYPES, s[k]);
      TypesAreSmall(s[k]);
      CountTableIsExact(c, s[k]);
      ListedAreThePool(ds, e, d.config, s[k]);
    }
    forall x | x in ds && x.config == d.config && x.dtype >= 2 ensures exists k :: 0 <= k < |s| && EntryType(w, k) == x.dtype {
      assert Emitted(e, x);
      CountTableIsExact(c, x.dtype);
      PoolTypes(c, x.dtype);
      PresentIff(c, COUNTED_TYPES, x.dtype);
      var k :| 0 <= k < |s| && s[k] == x.dtype;
      assert EntryType(w, k) == x.dtype;
    }
  }

  lemma HeadIs66(c: Configuration)
    requires WfConfiguration(c)
    ensures |c.head| == 66
  {
  }
}
