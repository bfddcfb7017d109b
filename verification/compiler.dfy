/** Compiling a whole entity: the ENTITY and CONFIGURATION descriptors, the sort, the symbol check
    and the derived identify capability. */
module Compiler {
  import opened Wire
  import opened AemModel
  import opened Pools
  import opened Counts
  import opened Codec
  import opened Recompile
  import opened Flatten

  // ---- ENTITY ----

  const CONTROL_TYPE_IDENTIFY: bytes := [0x90, 0xE0, 0xF0, 0x00, 0x00, 0x00, 0x00, 0x01]

  /** A CONTROL whose control_type, at octet 82, is IDENTIFY. */
  predicate IsIdentify(w: bytes) {
    |w| >= 90 && w[82..90] == CONTROL_TYPE_IDENTIFY
  }

  /** A 32-bit word with bit 14, AEM_IDENTIFY_CONTROL_INDEX_VALID, set. */
  function WithIdentifyBit(caps: nat): (r: nat)
    requires caps < 0x1_0000_0000
    ensures r < 0x1_0000_0000 && r / 0x4000 % 2 == 1
    ensures caps / 0x4000 % 2 == 1 ==> r == caps
    ensures r % 0x4000 == caps % 0x4000 && r / 0x8000 == caps / 0x8000
  {
    if caps / 0x4000 % 2 == 1 then caps else caps + 0x4000
  }

  /** The ENTITY descriptor's octets with the bit set in entity_capabilities, at octet 20. */
  function PatchCapabilities(w: bytes): (r: bytes)
    requires |w| >= 24
    ensures |r| == |w| && r[..20] == w[..20] && r[24..] == w[24..]
  {
    w[..20] + U32(WithIdentifyBit(U32At(w, 20))) + w[24..]
  }

  function EntityWire(e: Entity): (w: bytes)
    ensures |w| == 8 + |e.head|
  {
    Word(ENTITY) + Word(0) + e.head + Word(|e.configurations|) + Word(0)
  }

  /** Configuration 0 holds an identify control, wherever it is nested. */
  ghost predicate HasIdentify(e: Entity) {
    e.configurations != [] &&
    exists i :: 0 <= i < Size(AddConfiguration(e.configurations[0]), CONTROL)
                && IsIdentify(Encode(CONTROL, i, At(AddConfiguration(e.configurations[0]), CONTROL)[i].body))
  }

  ghost function FinalEntityWire(e: Entity): (w: bytes)
    requires |e.head| == 304
    ensures |w| == 312
  {
    if HasIdentify(e) then PatchCapabilities(EntityWire(e)) else EntityWire(e)
  }

  // ---- CONFIGURATION ----

  /** The table of (type, count) pairs, ascending by type, without the zero counts. */
  function CountTable(c: Configuration, ts: seq<nat>): (r: bytes) {
    if ts == [] then [] else
      var t := ts[|ts| - 1];
      CountTable(c, ts[..|ts| - 1]) + if Total(c, t) > 0 then Word(t) + Word(Total(c, t)) else []
  }

  function ConfigurationWire(c: Configuration, index: nat): (w: bytes) {
    var table := CountTable(c, COUNTED_TYPES);
    Word(CONFIGURATION) + Word(index) + c.head + Word(|table| / 4) + Word(74) + table
  }

  // ---- the whole list ----

  /** Descriptor d belongs to the compiled entity. */
  ghost predicate Emitted(e: Entity, d: FlatDescriptor)
    requires |e.head| == 304
  {
    || d == Flat(0, ENTITY, 0, FinalEntityWire(e))
    || (d.config < |e.configurations| && d.dtype == CONFIGURATION && d.index == d.config
        && d.data == ConfigurationWire(e.configurations[d.config], d.config))
    || (d.config < |e.configurations| && InPools(d, d.config, AddConfiguration(e.configurations[d.config])))
  }

  ghost predicate Symbolised(e: Entity, s: FlatSymbol) {
    s.config < |e.configurations|
    && ((s.dtype == CONFIGURATION && s.index == s.config && e.configurations[s.config].symbol == Some(s.data))
        || NamedInPools(s, s.config, AddConfiguration(e.configurations[s.config])))
  }

  /** ds is the compiled entity: strictly sorted by (configuration, type, index), nothing missing,
      nothing extra. */
  ghost predicate IsFlat(ds: seq<FlatDescriptor>, e: Entity)
    requires |e.head| == 304
  {
    StrictlySorted(ds) && forall d :: d in ds <==> Emitted(e, d)
  }

  ghost predicate IsSymbolTable(ss: seq<FlatSymbol>, e: Entity) {
    StrictlySorted(ss) && forall s :: s in ss <==> Symbolised(e, s)
  }

  /** No 16-bit word overflows: counts, and the numbers the author wrote by hand. */
  ghost predicate NumbersFit(e: Entity) {
    && |e.configurations| <= 0xFFFF
    && forall c <- e.configurations :: HandNumbersFitIn(c) && forall t <- COUNTED_TYPES :: Total(c, t) <= 0xFFFF
  }

  /** No two descriptors carry the same symbol code. */
  ghost predicate CodesDistinct(e: Entity) {
    forall s, s' :: Symbolised(e, s) && Symbolised(e, s') && s.data == s'.data ==> s == s'
  }

  // ---- the parts ----

  /** _count_all_controls: a summing loop over every level. */
  method CountAllControls(c: Configuration) returns (n: nat)
    requires WfConfiguration(c)
    ensures n == Total(c, CONTROL)
  {
    n := |c.controls|;
    FlatCountOther(c, FLAT_TYPES, CONTROL);
    GroupsCountOther(LOCALE, STRINGS, c.locales, CONTROL);
    GroupsCountOther(PTP_INSTANCE, PTP_PORT, c.ptpInstances, CONTROL);
    var a := CountOwnerControls(AVB_INTERFACE, c.interfaces);
    var b := CountOwnerControls(CONTROL_BLOCK, c.blocks);
    var audio := CountUnitControls(Audio, c.audioUnits);
    var video := CountUnitControls(Video, c.videoUnits);
    var sensor := CountUnitControls(Sensor, c.sensorUnits);
    n := n + a + b + audio + video + sensor;
  }

  method CountOwnerControls(t: nat, os: seq<Owner>) returns (n: nat)
    requires t != CONTROL
    ensures n == OwnersCount(t, os, CONTROL)
  {
    n := 0;
    for i := 0 to |os|
      invariant n == OwnersCount(t, os[..i], CONTROL)
    {
      n := n + |os[i].controls|;
      assert os[..i + 1][..i] == os[..i];
    }
    assert os[..|os|] == os;
  }

  method CountUnitControls(k: Kind, us: seq<Unit>) returns (n: nat)
    requires forall u <- us :: WfUnit(u)
    ensures n == UnitsCount(k, us, CONTROL)
  {
    n := 0;
    for i := 0 to |us|
      invariant n == UnitsCount(k, us[..i], CONTROL)
    {
      assert us[i] in us;
      var ports := CountPortControls(k, us[i].ports);
      n := n + |us[i].controls| + ports;
      assert us[..i + 1][..i] == us[..i];
    }
    assert us[..|us|] == us;
  }

  method CountPortControls(k: Kind, lists: seq<seq<Port>>) returns (n: nat)
    requires |lists| <= 6
    ensures n == PortListsCount(k, lists, CONTROL)
  {
    n := 0;
    for j := 0 to |lists|
      invariant n == PortListsCount(k, lists[..j], CONTROL)
    {
      var m := 0;
      for i := 0 to |lists[j]|
        invariant m == PortsCount(k, j, lists[j][..i], CONTROL)
      {
        m := m + |lists[j][i].controls|;
        assert lists[j][..i + 1][..i] == lists[j][..i];
      }
      assert lists[j][..|lists[j]|] == lists[j];
      n := n + m;
      assert lists[..j + 1][..j] == lists[..j];
    }
    assert lists[..|lists|] == lists;
  }

  /** _check_duplicate_symbols, with the table of codes seen so far. */
  method HasDuplicateCode(ss: seq<FlatSymbol>) returns (duplicate: bool)
    ensures duplicate <==> exists i, j :: 0 <= i < j < |ss| && ss[i].data == ss[j].data
  {
    var seen: map<nat, FlatSymbol> := map[];
    for i := 0 to |ss|
      invariant forall code :: code in seen <==> exists j :: 0 <= j < i && ss[j].data == code
      invariant forall j, k :: 0 <= j < k < i ==> ss[j].data != ss[k].data
    {
      if ss[i].data in seen {
        return true;
      }
      seen := seen[ss[i].data := ss[i]];
    }
    return false;
  }

  function FirstEntity(ds: seq<FlatDescriptor>): (i: nat)
    ensures i <= |ds| && (i < |ds| ==> ds[i].dtype == ENTITY) && forall j :: 0 <= j < i ==> ds[j].dtype != ENTITY
  {
    if ds == [] || ds[0].dtype == ENTITY then 0 else 1 + FirstEntity(ds[1..])
  }

  ghost predicate ListsIdentify(ds: seq<FlatDescriptor>) {
    exists i :: 0 <= i < |ds| && ds[i].dtype == CONTROL && ds[i].config == 0 && IsIdentify(ds[i].data)
  }

  /** _derive_identify_capability: the first ENTITY entry is overwritten if configuration 0 lists an
      identify control. */
  method DeriveIdentify(ds: seq<FlatDescriptor>) returns (r: seq<FlatDescriptor>)
    requires forall d <- ds :: d.dtype == ENTITY ==> |d.data| >= 24
    ensures r == var i := FirstEntity(ds);
                 if ListsIdentify(ds) && i < |ds| then ds[i := ds[i].(data := PatchCapabilities(ds[i].data))] else ds
  {
    var found := false;
    for i := 0 to |ds|
      invariant found <==> ListsIdentify(ds[..i])
    {
      assert forall j :: 0 <= j < i ==> ds[..i + 1][j] == ds[..i][j];
      if ds[i].dtype == CONTROL && ds[i].config == 0 && IsIdentify(ds[i].data) {
        assert ds[..i + 1][i] == ds[i];
        found := true;
      }
    }
    assert ds[..|ds|] == ds;
    r := ds;
    if !found {
      return;
    }
    for i := 0 to |ds|
      invariant r == ds && forall j :: 0 <= j < i ==> ds[j].dtype != ENTITY
    {
      if ds[i].dtype == ENTITY {
        assert ds[i] in ds && FirstEntity(ds) == i;
        r := ds[i := ds[i].(data := PatchCapabilities(ds[i].data))];
        return;
      }
    }
  }

  // ---- putting it together ----

  /** The list before sorting, after n configurations. */
  ghost predicate EmittedSoFar(e: Entity, n: nat, d: FlatDescriptor)
    requires n <= |e.configurations|
  {
    || d == Flat(0, ENTITY, 0, EntityWire(e))
    || (d.config < n && d.dtype == CONFIGURATION && d.index == d.config
        && d.data == ConfigurationWire(e.configurations[d.config], d.config))
    || (d.config < n && InPools(d, d.config, AddConfiguration(e.configurations[d.config])))
  }

  ghost predicate SymbolisedSoFar(e: Entity, n: nat, s: FlatSymbol)
    requires n <= |e.configurations|
  {
    s.config < n && Symbolised(e, s)
  }

  ghost predicate ListSoFar(ds: seq<FlatDescriptor>, e: Entity, n: nat)
    requires n <= |e.configurations|
  {
    DistinctKeys(ds) && forall d :: d in ds <==> EmittedSoFar(e, n, d)
  }

  ghost predicate SymbolsSoFar(ss: seq<FlatSymbol>, e: Entity, n: nat)
    requires n <= |e.configurations|
  {
    DistinctKeys(ss) && forall s :: s in ss <==> SymbolisedSoFar(e, n, s)
  }

  lemma HeadTypesUncounted(t: nat)
    requires t < 2
    ensures t !in COUNTED_TYPES
  {
    assert forall x <- COUNTED_TYPES :: x >= 2;
  }

  lemma NoHeadTypesInPools(c: Configuration, t: nat)
    requires WfConfiguration(c) && t < 2
    ensures Size(AddConfiguration(c), t) == 0
  {
    hide AddConfiguration, WfConfiguration, Total;
    HeadTypesUncounted(t);
    CountTableIsExact(c, t);
    NothingOutsideTable(c, t);
  }

  lemma ListGrows(ds: seq<FlatDescriptor>, e: Entity, n: nat, more: seq<FlatDescriptor>)
    requires WfEntity(e) && n < |e.configurations| && ListSoFar(ds, e, n)
    requires Lists(more, n, AddConfiguration(e.configurations[n]))
    ensures ListSoFar(ds + [Flat(n, CONFIGURATION, n, ConfigurationWire(e.configurations[n], n))] + more, e, n + 1)
  {
    hide AddConfiguration, ConfigurationWire, WfConfiguration, Encode, EntityWire;
    var c := e.configurations[n];
    assert c in e.configurations;
    NoHeadTypesInPools(c, ENTITY);
    NoHeadTypesInPools(c, CONFIGURATION);
    var x := Flat(n, CONFIGURATION, n, ConfigurationWire(c, n));
    var all := ds + [x] + more;
    forall d ensures d in all <==> EmittedSoFar(e, n + 1, d) {
      assert d in ds <==> EmittedSoFar(e, n, d);
      assert d in more <==> InPools(d, n, AddConfiguration(c));
    }
    forall i, j | 0 <= i < j < |all| ensures !SameKey(all[i], all[j]) {
      assert i < |ds| ==> all[i] == ds[i] && all[i] in ds;
      assert j > |ds| ==> all[j] == more[j - |ds| - 1] && all[j] in more;
      assert i > |ds| ==> all[i] == more[i - |ds| - 1] && all[i] in more;
    }
  }

  lemma SymbolsGrow(ss: seq<FlatSymbol>, e: Entity, n: nat, more: seq<FlatSymbol>)
    requires WfEntity(e) && n < |e.configurations| && SymbolsSoFar(ss, e, n)
    requires Names(more, n, AddConfiguration(e.configurations[n]))
    ensures var own := if e.configurations[n].symbol.Some? then [Flat(n, CONFIGURATION, n, e.configurations[n].symbol.value)] else [];
            SymbolsSoFar(ss + own + more, e, n + 1)
  {
    hide AddConfiguration, WfConfiguration;
    var c := e.configurations[n];
    assert c in e.configurations;
    NoHeadTypesInPools(c, CONFIGURATION);
    var own := if c.symbol.Some? then [Flat(n, CONFIGURATION, n, c.symbol.value)] else [];
    var all := ss + own + more;
    forall s ensures s in all <==> SymbolisedSoFar(e, n + 1, s) {
      assert s in ss <==> SymbolisedSoFar(e, n, s);
      assert s in more <==> NamedInPools(s, n, AddConfiguration(c));
    }
    forall i, j | 0 <= i < j < |all| ensures !SameKey(all[i], all[j]) {
      var m := |ss| + |own|;
      assert i < |ss| ==> all[i] == ss[i] && all[i] in ss;
      assert j < |ss| ==> all[j] == ss[j] && all[j] in ss;
      assert i >= m ==> all[i] == more[i - m] && all[i] in more;
      assert j >= m ==> all[j] == more[j - m] && all[j] in more;
    }
  }

  lemma SameMembers<X>(a: seq<X>, b: seq<X>, x: X)
    requires multiset(a) == multiset(b)
    ensures x in a <==> x in b
  {
    assert x in a <==> x in multiset(a);
  }

  /** Sorting and patching the finished list gives the compiled entity. */
  lemma PatchedListIsFlat(ds: seq<FlatDescriptor>, e: Entity, r: seq<FlatDescriptor>)
    requires WfEntity(e) && StrictlySorted(ds) && (forall d :: d in ds <==> EmittedSoFar(e, |e.configurations|, d))
    requires forall d <- ds :: d.dtype == ENTITY ==> |d.data| >= 24
    requires r == var i := FirstEntity(ds);
                  if ListsIdentify(ds) && i < |ds| then ds[i := ds[i].(data := PatchCapabilities(ds[i].data))] else ds
    ensures IsFlat(r, e)
  {
    hide AddConfiguration, ConfigurationWire, WfConfiguration, Encode, EntityWire, PatchCapabilities, IsIdentify,
      ListsIdentify, FirstEntity, StrictlySorted, InPools, HasIdentify;
    var x := Flat(0, ENTITY, 0, EntityWire(e));
    assert x in ds;
    var i :| 0 <= i < |ds| && ds[i] == x;
    OnlyEntity(ds, e, i);
    IdentifyAgrees(ds, e);
    PatchMembers(ds, i, r, x);
    forall d ensures d in r <==> Emitted(e, d) {
      assert d in ds <==> EmittedSoFar(e, |e.configurations|, d);
      PatchMembers(ds, i, r, d);
    }
  }

  lemma PatchMembers(ds: seq<FlatDescriptor>, i: nat, r: seq<FlatDescriptor>, d: FlatDescriptor)
    requires i < |ds| && |r| == |ds| && r == ds[i := r[i]] && StrictlySorted(ds) && SameKey(r[i], ds[i])
    ensures StrictlySorted(r)
    ensures d in r <==> d == r[i] || (d in ds && d != ds[i])
  {
    if d in ds && d != ds[i] {
      var j :| 0 <= j < |ds| && ds[j] == d;
      assert r[j] == d;
    }
    if d in r && d != r[i] {
      var j :| 0 <= j < |r| && r[j] == d;
      assert ds[j] == d && j != i;
    }
    assert r[i] in r;
  }

  lemma OnlyEntity(ds: seq<FlatDescriptor>, e: Entity, i: nat)
    requires WfEntity(e) && (forall d :: d in ds <==> EmittedSoFar(e, |e.configurations|, d)) && StrictlySorted(ds)
    requires i < |ds| && ds[i] == Flat(0, ENTITY, 0, EntityWire(e))
    ensures FirstEntity(ds) == i
    ensures forall c, d :: 0 <= c < |e.configurations| && d == Flat(0, ENTITY, 0, EntityWire(e)) ==> !InPools(d, c, AddConfiguration(e.configurations[c]))
  {
    hide AddConfiguration, ConfigurationWire, WfConfiguration, Encode, EntityWire;
    forall c | 0 <= c < |e.configurations| ensures Size(AddConfiguration(e.configurations[c]), ENTITY) == 0 {
      assert e.configurations[c] in e.configurations;
      NoHeadTypesInPools(e.configurations[c], ENTITY);
    }
    forall j | 0 <= j < |ds| && ds[j].dtype == ENTITY ensures j == i {
      assert ds[j] in ds;
      assert ds[j] == ds[i];
    }
  }

  lemma IdentifyAgrees(ds: seq<FlatDescriptor>, e: Entity)
    requires WfEntity(e) && forall d :: d in ds <==> EmittedSoFar(e, |e.configurations|, d)
    ensures ListsIdentify(ds) <==> HasIdentify(e)
  {
    hide AddConfiguration, ConfigurationWire, WfConfiguration, Encode, EntityWire, IsIdentify;
    if ListsIdentify(ds) {
      var i :| 0 <= i < |ds| && ds[i].dtype == CONTROL && ds[i].config == 0 && IsIdentify(ds[i].data);
      assert ds[i] in ds;
      assert InPools(ds[i], 0, AddConfiguration(e.configurations[0]));
    }
    if HasIdentify(e) {
      var P := AddConfiguration(e.configurations[0]);
      var i :| 0 <= i < Size(P, CONTROL) && IsIdentify(Encode(CONTROL, i, At(P, CONTROL)[i].body));
      var d := Flat(0, CONTROL, i, Encode(CONTROL, i, At(P, CONTROL)[i].body));
      assert InPools(d, 0, P);
      assert d in ds;
    }
  }

  /** Compiling succeeds exactly when every number fits its word and no symbol code repeats, and
      then yields the entity's descriptors and symbols in strict key order. */
  method FlattenEntity(e: Entity) returns (r: Option<(seq<FlatDescriptor>, seq<FlatSymbol>)>)
    requires WfEntity(e)
    ensures r.Some? <==> NumbersFit(e) && CodesDistinct(e)
    ensures r.Some? ==> IsFlat(r.value.0, e) && IsSymbolTable(r.value.1, e)
  {
    hide AddConfiguration, ConfigurationWire, WfConfiguration, EntityWire, Lists, Names, HandNumbersFitIn, Total, InPools, NamedInPools;
    if |e.configurations| > 0xFFFF {
      return None;
    }
    var ds: seq<FlatDescriptor> := [Flat(0, ENTITY, 0, EntityWire(e))];
    var ss: seq<FlatSymbol> := [];
    for i := 0 to |e.configurations|
      invariant ListSoFar(ds, e, i) && SymbolsSoFar(ss, e, i)
      invariant forall j :: 0 <= j < i ==> CountsFit(e.configurations[j]) && HandNumbersFitIn(e.configurations[j])
    {
      var c := e.configurations[i];
      assert c in e.configurations;
      var fits := CheckCounts(c);
      if !fits || !HandNumbersFitIn(c) {
        return None;
      }
      var w := new Walker(i);
      w.Walk(c);
      ListGrows(ds, e, i, w.descriptors);
      SymbolsGrow(ss, e, i, w.symbols);
      ds := ds + [Flat(i, CONFIGURATION, i, ConfigurationWire(c, i))] + w.descriptors;
      ss := ss + (if c.symbol.Some? then [Flat(i, CONFIGURATION, i, c.symbol.value)] else []) + w.symbols;
    }
    r := Finish(e, ds, ss);
  }

  ghost predicate CountsFit(c: Configuration) {
    forall t <- COUNTED_TYPES :: Total(c, t) <= 0xFFFF
  }

  /** The count table is packed before the walk starts: a count over 16 bits stops the compile. */
  method CheckCounts(c: Configuration) returns (fits: bool)
    requires WfConfiguration(c)
    ensures fits <==> CountsFit(c)
  {
    var controls := CountAllControls(c);
    for i := 0 to |COUNTED_TYPES|
      invariant forall j :: 0 <= j < i ==> Total(c, COUNTED_TYPES[j]) <= 0xFFFF
    {
      var n := if COUNTED_TYPES[i] == CONTROL then controls else Total(c, COUNTED_TYPES[i]);
      if n > 0xFFFF {
        assert COUNTED_TYPES[i] in COUNTED_TYPES;
        return false;
      }
    }
    return true;
  }

  method Finish(e: Entity, ds: seq<FlatDescriptor>, ss: seq<FlatSymbol>)
    returns (r: Option<(seq<FlatDescriptor>, seq<FlatSymbol>)>)
    requires WfEntity(e) && ListSoFar(ds, e, |e.configurations|) && SymbolsSoFar(ss, e, |e.configurations|)
    ensures r.Some? <==> CodesDistinct(e)
    ensures r.Some? ==> IsFlat(r.value.0, e) && IsSymbolTable(r.value.1, e)
  {
    hide AddConfiguration, ConfigurationWire, WfConfiguration, InPools, NamedInPools, PatchCapabilities, HasIdentify, FinalEntityWire;
    var ds', ss' := SortByKey(ds), SortByKey(ss);
    forall d ensures d in ds' <==> EmittedSoFar(e, |e.configurations|, d) {
      SameMembers(ds, ds', d);
    }
    forall s ensures s in ss' <==> Symbolised(e, s) {
      SameMembers(ss, ss', s);
    }
    var duplicate := HasDuplicateCode(ss');
    DuplicateMeansEqualCodes(ss', e);
    if duplicate {
      return None;
    }
    EntityIsLong(ds', e);
    var patched := DeriveIdentify(ds');
    PatchedListIsFlat(ds', e, patched);
    return Some((patched, ss'));
  }

  lemma EntityIsLong(ds: seq<FlatDescriptor>, e: Entity)
    requires WfEntity(e) && forall d :: d in ds <==> EmittedSoFar(e, |e.configurations|, d)
    ensures forall d <- ds :: d.dtype == ENTITY ==> |d.data| >= 24
  {
    hide AddConfiguration, ConfigurationWire, WfConfiguration, Encode;
    forall d | d in ds && d.dtype == ENTITY ensures |d.data| >= 24 {
      assert EmittedSoFar(e, |e.configurations|, d);
      if d.config < |e.configurations| {
        assert e.configurations[d.config] in e.configurations;
        NoHeadTypesInPools(e.configurations[d.config], ENTITY);
      }
    }
  }

  lemma DuplicateMeansEqualCodes(ss: seq<FlatSymbol>, e: Entity)
    requires StrictlySorted(ss) && forall s :: s in ss <==> Symbolised(e, s)
    ensures (exists i, j :: 0 <= i < j < |ss| && ss[i].data == ss[j].data) <==> !CodesDistinct(e)
  {
    hide Symbolised;
    if i, j :| 0 <= i < j < |ss| && ss[i].data == ss[j].data {
      assert ss[i] in ss && ss[j] in ss && KeyBelow(ss[i], ss[j]);
      assert Symbolised(e, ss[i]) && Symbolised(e, ss[j]);
    }
    if s, s' :| Symbolised(e, s) && Symbolised(e, s') && s.data == s'.data && s != s' {
      assert s in ss && s' in ss;
      var i :| 0 <= i < |ss| && ss[i] == s;
      var j :| 0 <= j < |ss| && ss[j] == s';
      assert i < j || j < i;
    }
  }
}
