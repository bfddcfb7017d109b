/** The nesting of a compiled list, read from its octets: which descriptor each number/base pair points at. */
module NestingOctets {
  import opened Wire
  import opened AemModel
  import opened Pools
  import opened Counts
  import opened Codec
  import opened Stages
  import opened Unflatten
  import opened Coverage
  import opened Flatten
  import opened Compiler
  import opened AemTheorems
  import opened CompiledOctets

  /** Where a descriptor of type t has the number of its children of type ch; their base is in the next two octets. */
  function PairAt(t: nat, ch: nat): (at: Option<nat>) {
    match t
    case 0x02 | 0x03 | 0x04 => if ch == 0x1A then Some(96) else if 0x0E <= ch <= 0x13 then Some(72 + 4 * (ch - 0x0E)) else None
    case 0x0E | 0x0F =>
      if ch == 0x1A then Some(8) else if 0x14 <= ch <= 0x16 then Some(12) else if 0x17 <= ch <= 0x19 then Some(16) else None
    case 0x10 | 0x11 | 0x12 | 0x13 => if ch == 0x1A then Some(8) else None
    case 0x09 => if ch == 0x1A then Some(98) else None
    case 0x25 => if ch == 0x1A then Some(70) else None
    case 0x0C => if ch == 0x0D then Some(68) else None
    case 0x41 => if ch == 0x42 then Some(86) else None
    case _ => None
  }

  /** Index x of type ch lies in p's range of such children. */
  predicate Reaches(p: FlatDescriptor, ch: nat, x: nat) {
    var at := PairAt(p.dtype, ch);
    && at.Some? && |p.data| >= at.value + 4
    && U16At(p.data, at.value + 2) <= x < U16At(p.data, at.value + 2) + U16At(p.data, at.value)
  }

  /** p owns child x of type ch. The clusters and maps of a stream port are of the kind of the unit that owns the port. */
  ghost predicate Parent(ds: seq<FlatDescriptor>, p: FlatDescriptor, ch: nat, x: nat) {
    && p in ds && Reaches(p, ch, x)
    && (0x14 <= ch <= 0x19 ==> InUnit(ds, 2 + (ch - 0x14) % 3, p))
  }

  ghost predicate InUnit(ds: seq<FlatDescriptor>, t: nat, p: FlatDescriptor) {
    exists u :: UnitOf(ds, u, t, p)
  }

  ghost predicate UnitOf(ds: seq<FlatDescriptor>, u: FlatDescriptor, t: nat, p: FlatDescriptor) {
    u in ds && u.config == p.config && u.dtype == t && Reaches(u, p.dtype, p.index)
  }

  // ---- pairs in octets ----

  lemma {:induction false} ReadRangesAt(w: bytes, at: nat, n: nat, k: nat)
    requires at + 4 * n <= |w| && k < n
    ensures ReadRanges(w, at, n)[k] == Range(U16At(w, at + 4 * k), U16At(w, at + 4 * k + 2))
  {
    hide U16At;
    if k < n - 1 { ReadRangesAt(w, at, n - 1, k); }
  }

  lemma PairPlace(t: nat, ch: nat)
    ensures PairAt(t, ch).Some? <==> OwnIndex(ch, t).Some?
    ensures PairAt(t, ch).Some? ==>
              OwnIndex(ch, t).value < RangeCount(t) && PairAt(t, ch).value == 4 + HeadLength(t) + 4 * OwnIndex(ch, t).value
  {
  }

  /** A descriptor's octets reach exactly the indices of its range. */
  lemma ReachesRange(config: nat, t: nat, i: nat, b: Body, ch: nat, x: nat)
    requires Encodable(t, b)
    ensures Reaches(Flat(config, t, i, Encode(t, i, b)), ch, x) <==> x in Indices(OwnRange(ch, t, b))
  {
    hide Encode, OwnIndex, PairAt, U16At, HeadLength, RangeCount, ReadRanges, Indices;
    var w := Encode(t, i, b);
    PairPlace(t, ch);
    DecodeEncode(t, i, b);
    if PairAt(t, ch).Some? {
      var k := OwnIndex(ch, t).value;
      ReadRangesAt(w, 4 + HeadLength(t), RangeCount(t), k);
      assert b.ranges[k] == Range(U16At(w, PairAt(t, ch).value), U16At(w, PairAt(t, ch).value + 2));
    }
  }

  /** Owners are never ENTITY or CONFIGURATION. */
  lemma OwnersArePooled(p: FlatDescriptor, ch: nat, x: nat)
    requires Reaches(p, ch, x)
    ensures p.dtype >= 2
  {
  }

  // ---- from the list to the pools ----

  /** What reaches an index in the list is what claims it in the pools. */
  lemma ReachersClaim(ds: seq<FlatDescriptor>, e: Entity, p: FlatDescriptor, ch: nat, x: nat)
    requires WfEntity(e) && NumbersFit(e) && IsFlat(ds, e) && p in ds && Reaches(p, ch, x)
    ensures p.config < |e.configurations| && Claims(AddConfiguration(e.configurations[p.config]), EMPTY, ch, p.dtype, p.index, x)
  {
    hide AddConfiguration, ConfigurationWire, WfConfiguration, Encode, FinalEntityWire, StrictlySorted, NumbersFit, Reaches, Encodable,
      Indices, OwnRange;
    OwnersArePooled(p, ch, x);
    assert Emitted(e, p);
    var c := e.configurations[p.config];
    assert c in e.configurations;
    CountsFitPools(e, p.config);
    ConfigurationEncodable(c);
    var b := At(AddConfiguration(c), p.dtype)[p.index].body;
    assert Encodable(p.dtype, b);
    ReachesRange(p.config, p.dtype, p.index, b, ch, x);
    EmptySizes(p.dtype);
    assert p == Flat(p.config, p.dtype, p.index, Encode(p.dtype, p.index, b));
  }

  lemma ClaimersReach(ds: seq<FlatDescriptor>, e: Entity, config: nat, t: nat, i: nat, ch: nat, x: nat) returns (p: FlatDescriptor)
    requires WfEntity(e) && NumbersFit(e) && IsFlat(ds, e) && config < |e.configurations|
    requires Claims(AddConfiguration(e.configurations[config]), EMPTY, ch, t, i, x)
    ensures p in ds && p.config == config && p.dtype == t && p.index == i && Reaches(p, ch, x)
  {
    hide AddConfiguration, ConfigurationWire, WfConfiguration, Encode, FinalEntityWire, StrictlySorted, NumbersFit, Reaches, Encodable,
      Indices, OwnRange;
    var c := e.configurations[config];
    assert c in e.configurations;
    CountsFitPools(e, config);
    ConfigurationEncodable(c);
    var b := At(AddConfiguration(c), t)[i].body;
    assert Encodable(t, b);
    ReachesRange(config, t, i, b, ch, x);
    p := Flat(config, t, i, Encode(t, i, b));
    assert InPools(p, config, AddConfiguration(c));
    assert p in ds;
  }

  /** The list has descriptor x of type ch if and only if the pool does. */
  lemma ListedIff(ds: seq<FlatDescriptor>, e: Entity, config: nat, ch: nat, x: nat)
    requires WfEntity(e) && IsFlat(ds, e) && config < |e.configurations| && ch >= 2
    ensures (exists q :: Is(ds, q, config, ch, x)) <==> x < Size(AddConfiguration(e.configurations[config]), ch)
  {
    hide AddConfiguration, ConfigurationWire, WfConfiguration, Encode, FinalEntityWire, StrictlySorted;
    var P := AddConfiguration(e.configurations[config]);
    if x < Size(P, ch) {
      var d := Flat(config, ch, x, Encode(ch, x, At(P, ch)[x].body));
      assert InPools(d, config, P);
      assert d in ds && Is(ds, d, config, ch, x);
    }
    if q :| Is(ds, q, config, ch, x) {
      assert Emitted(e, q);
    }
  }

  predicate Is(ds: seq<FlatDescriptor>, q: FlatDescriptor, config: nat, ch: nat, x: nat) {
    q in ds && q.config == config && q.dtype == ch && q.index == x
  }

  lemma SameKeySame(ds: seq<FlatDescriptor>, p: FlatDescriptor, q: FlatDescriptor)
    requires StrictlySorted(ds) && p in ds && q in ds && SameKey(p, q)
    ensures p == q
  {
    var i :| 0 <= i < |ds| && ds[i] == p;
    var j :| 0 <= j < |ds| && ds[j] == q;
  }

  // ---- ports, STRINGS and PTP ports ----

  /** Types every descriptor of which has an owner, and the stages their owners come from. */
  predicate Wholly(ch: nat, i: nat, n: nat) {
    || (ch == STRINGS && i == 3 && n == 4) || (ch == PTP_PORT && i == 5 && n == 6)
    || (PortType(0) <= ch < PortType(6) && i == 6 && n == 9)
  }

  lemma OwnersFromStages(c: Configuration, ch: nat, t: nat, i: nat, n: nat)
    requires WfConfiguration(c) && Wholly(ch, i, n) && OwnIndex(ch, t).Some?
    ensures At(Stage(c, i), t) == [] && At(Stage(c, n), t) == At(AddConfiguration(c), t)
  {
    hide Stage, AddConfiguration, WfConfiguration;
    StagesSkip(c, 0, i, t);
    StartsEmpty(c, t);
    StagesSkip(c, n, 9, t);
    StagesAreTheWalk(c);
  }

  /** Their owners, taken from the whole configuration, claim each of them once. */
  lemma CoveredWhole(c: Configuration, ch: nat, i: nat, n: nat)
    requires WfConfiguration(c) && Wholly(ch, i, n)
    ensures Cover(AddConfiguration(c), EMPTY, ch, All(AddConfiguration(c), ch))
  {
    hide Stage, AddConfiguration, WfConfiguration, Indices, All, OwnIndex, Cover;
    var F, P, L := AddConfiguration(c), Stage(c, n), Stage(c, i);
    if ch == STRINGS || ch == PTP_PORT { MembersPartitioned(c); } else { PortsPartitioned(c, ch - PortType(0)); }
    forall t: nat, k: nat, x: nat ensures Claims(F, EMPTY, ch, t, k, x) <==> Claims(P, L, ch, t, k, x) {
      EmptySizes(t);
      if OwnIndex(ch, t).Some? {
        OwnersFromStages(c, ch, t, i, n);
      } else {
        NothingIndexed();
      }
    }
    CoverBoth(F, EMPTY, P, L, ch, All(F, ch));
  }

  lemma NothingIndexed()
    ensures Indices(Range(0, 0)) == {}
  {
  }

  lemma CoverBoth(F: Pools, E: Pools, P: Pools, L: Pools, ch: nat, S: set<nat>)
    requires Cover(P, L, ch, S) && forall t, i, x :: Claims(F, E, ch, t, i, x) <==> Claims(P, L, ch, t, i, x)
    ensures Cover(F, E, ch, S)
  {
    hide Claims;
    forall x | x in S ensures exists t, i :: Claims(F, E, ch, t, i, x) {
      var t, i :| Claims(P, L, ch, t, i, x);
      assert Claims(F, E, ch, t, i, x);
    }
  }

  /** Every port, STRINGS and PTP_PORT descriptor of a compiled list has exactly one parent, and no parent points at one
      that is not listed. */
  lemma OneParent(ds: seq<FlatDescriptor>, e: Entity, config: nat, ch: nat, x: nat)
    requires WfEntity(e) && NumbersFit(e) && IsFlat(ds, e) && config < |e.configurations|
    requires 0x0E <= ch <= 0x13 || ch == 0x0D || ch == 0x42
    ensures (exists q :: Is(ds, q, config, ch, x)) <==> (exists p :: Parent(ds, p, ch, x) && p.config == config)
    ensures forall p, p' :: Parent(ds, p, ch, x) && Parent(ds, p', ch, x) && p.config == p'.config == config ==> p == p'
  {
    hide AddConfiguration, WfConfiguration, NumbersFit, Emitted, StrictlySorted, Reaches, Claims, Indices;
    var c := e.configurations[config];
    assert c in e.configurations;
    CoveredWhole(c, ch, if ch == STRINGS then 3 else if ch == PTP_PORT then 5 else 6, if ch == STRINGS then 4 else if ch == PTP_PORT then 6 else 9);
    ListedIff(ds, e, config, ch, x);
    CoverMeansParents(ds, e, config, ch, x, All(AddConfiguration(c), ch));
  }

  lemma CoverMeansParents(ds: seq<FlatDescriptor>, e: Entity, config: nat, ch: nat, x: nat, S: set<nat>)
    requires WfEntity(e) && NumbersFit(e) && IsFlat(ds, e) && config < |e.configurations| && !(0x14 <= ch <= 0x19)
    requires Cover(AddConfiguration(e.configurations[config]), EMPTY, ch, S)
    ensures x in S <==> exists p :: Parent(ds, p, ch, x) && p.config == config
    ensures forall p, p' :: Parent(ds, p, ch, x) && Parent(ds, p', ch, x) && p.config == p'.config == config ==> p == p'
  {
    hide AddConfiguration, WfConfiguration, NumbersFit, Emitted, StrictlySorted, Reaches, Claims;
    var F := AddConfiguration(e.configurations[config]);
    forall p | Parent(ds, p, ch, x) && p.config == config ensures Claims(F, EMPTY, ch, p.dtype, p.index, x) {
      ReachersClaim(ds, e, p, ch, x);
    }
    if x in S {
      var t, i :| Claims(F, EMPTY, ch, t, i, x);
      var p := ClaimersReach(ds, e, config, t, i, ch, x);
      assert Parent(ds, p, ch, x);
    }
    forall p, p' | Parent(ds, p, ch, x) && Parent(ds, p', ch, x) && p.config == p'.config == config ensures p == p' {
      SameKeySame(ds, p, p');
    }
  }

  /** With no counts written by hand, the controls of a configuration: the first ones are its own and have no parent, and
      every other one has exactly one. */
  lemma ControlParents(ds: seq<FlatDescriptor>, e: Entity, config: nat, x: nat)
    requires WfEntity(e) && NumbersFit(e) && IsFlat(ds, e) && config < |e.configurations|
    requires NoHandNumbers(e.configurations[config].interfaces) && NoHandNumbers(e.configurations[config].blocks)
    ensures (exists q :: Is(ds, q, config, 0x1A, x)) && x >= |e.configurations[config].controls|
            <==> exists p :: Parent(ds, p, 0x1A, x) && p.config == config
    ensures forall p, p' :: Parent(ds, p, 0x1A, x) && Parent(ds, p', 0x1A, x) && p.config == p'.config == config ==> p == p'
  {
    hide AddConfiguration, WfConfiguration, NumbersFit, Emitted, StrictlySorted, Reaches, Claims, NoHandNumbers, Cover;
    var c := e.configurations[config];
    assert c in e.configurations;
    ControlsPartitioned(c);
    ListedIff(ds, e, config, CONTROL, x);
    CoverMeansParents(ds, e, config, CONTROL, x, Indices(Range(Size(AddConfiguration(c), CONTROL) - |c.controls|, |c.controls|)));
  }

  // ---- clusters and maps ----

  /** The ports emitted with the units of a kind are those the units of that kind reach. */
  lemma PortsOfKind(ds: seq<FlatDescriptor>, e: Entity, config: nat, n: nat, p: FlatDescriptor)
    requires WfEntity(e) && NumbersFit(e) && IsFlat(ds, e) && p in ds && p.config == config < |e.configurations|
    requires 6 <= n < 9 && PortType(0) <= p.dtype < PortType(6)
    ensures var c := e.configurations[config];
            InUnit(ds, UnitType(KindOf(n)), p) <==> Size(Stage(c, n), p.dtype) <= p.index < Size(Stage(c, n + 1), p.dtype)
  {
    hide AddConfiguration, WfConfiguration, NumbersFit, Emitted, StrictlySorted, Reaches, Stage, Indices, OwnRange, Cover, Gained;
    var c := e.configurations[config];
    assert c in e.configurations;
    var F, P, L, U := AddConfiguration(c), Stage(c, n + 1), Stage(c, n), UnitType(KindOf(n));
    UnitsCoverPorts(c, n, p.dtype);
    StagesGrow(c, n, n + 1);
    ExtendsAt(L, P, p.dtype);
    GainedIs(L, P, p.dtype);
    OneStage(c, n, U);
    EmptySizes(U);
    if u :| UnitOf(ds, u, U, p) {
      ReachersClaim(ds, e, u, p.dtype, p.index);
      ClaimedIn(P, L, p.dtype, Gained(L, P, p.dtype), U, u.index, p.index);
    }
    if Size(L, p.dtype) <= p.index < Size(P, p.dtype) {
      var t, i := Claimer(P, L, p.dtype, Gained(L, P, p.dtype), p.index);
      OnlyUnitsClaimPorts(c, n, p.dtype, t, i, p.index);
      var u := ClaimersReach(ds, e, config, U, i, p.dtype, p.index);
      assert UnitOf(ds, u, U, p);
    }
  }

  /** Ports are numbered unit kind by unit kind: those of audio units first, then video, then sensor. */
  lemma KindsInOrder(ds: seq<FlatDescriptor>, e: Entity, t: nat, p: FlatDescriptor, t': nat, p': FlatDescriptor)
    requires WfEntity(e) && NumbersFit(e) && IsFlat(ds, e) && p in ds && p' in ds && p.config == p'.config < |e.configurations|
    requires 0x0E <= p.dtype == p'.dtype <= 0x13 && 2 <= t < t' <= 4 && InUnit(ds, t, p) && InUnit(ds, t', p')
    ensures p.index < p'.index
  {
    hide AddConfiguration, WfConfiguration, NumbersFit, Emitted, StrictlySorted, InUnit, Stage, At;
    var c := e.configurations[p.config];
    PortsOfKind(ds, e, p.config, t + 4, p);
    PortsOfKind(ds, e, p.config, t' + 4, p');
    StagesGrow(c, t + 5, t' + 4);
    ExtendsAt(Stage(c, t + 5), Stage(c, t' + 4), p.dtype);
  }

  lemma Claimer(P: Pools, L: Pools, ch: nat, S: set<nat>, x: nat) returns (t: nat, i: nat)
    requires Cover(P, L, ch, S) && x in S
    ensures Claims(P, L, ch, t, i, x)
  {
    hide Claims;
    t, i :| Claims(P, L, ch, t, i, x);
  }

  lemma ClaimedIn(P: Pools, L: Pools, ch: nat, S: set<nat>, t: nat, i: nat, x: nat)
    requires Cover(P, L, ch, S) && Claims(P, L, ch, t, i, x)
    ensures x in S
  {
  }

  lemma GainedIs(P: Pools, Q: Pools, ch: nat)
    requires Size(P, ch) <= Size(Q, ch)
    ensures forall x: nat :: x in Gained(P, Q, ch) <==> Size(P, ch) <= x < Size(Q, ch)
  {
  }

  lemma UnitsCoverPorts(c: Configuration, n: nat, ch: nat)
    requires WfConfiguration(c) && 6 <= n < 9 && PortType(0) <= ch < PortType(6)
    ensures Cover(Stage(c, n + 1), Stage(c, n), ch, Gained(Stage(c, n), Stage(c, n + 1), ch))
  {
    hide Stage, WfConfiguration, Cover;
    StagesCover(c, n, n + 1, ch);
  }

  lemma OnlyUnitsClaimPorts(c: Configuration, n: nat, ch: nat, t: nat, i: nat, x: nat)
    requires WfConfiguration(c) && 6 <= n < 9 && PortType(0) <= ch < PortType(6) && Claims(Stage(c, n + 1), Stage(c, n), ch, t, i, x)
    ensures t == UnitType(KindOf(n))
  {
    hide Stage, WfConfiguration, Indices;
    NothingIndexed();
    assert AUDIO_UNIT <= t <= SENSOR_UNIT;
    if t != UnitType(KindOf(n)) {
      StageSkips(c, n, t);
    }
  }

  /** Every cluster and map of a compiled list has exactly one parent: a stream port, of a unit of its own kind. */
  lemma OnePort(ds: seq<FlatDescriptor>, e: Entity, config: nat, ch: nat, x: nat)
    requires WfEntity(e) && NumbersFit(e) && IsFlat(ds, e) && config < |e.configurations| && 0x14 <= ch <= 0x19
    ensures (exists q :: Is(ds, q, config, ch, x)) <==> (exists p :: Parent(ds, p, ch, x) && p.config == config)
    ensures forall p, p' :: Parent(ds, p, ch, x) && Parent(ds, p', ch, x) && p.config == p'.config == config ==> p == p'
  {
    hide AddConfiguration, WfConfiguration, NumbersFit, Emitted, StrictlySorted, Reaches, Claims, Stage, Indices, InUnit;
    var c := e.configurations[config];
    assert c in e.configurations;
    var n := 6 + (ch - 0x14) % 3;
    var F, P, L := AddConfiguration(c), Stage(c, n + 1), Stage(c, n);
    ClustersPartitioned(c, n, ch);
    ListedIff(ds, e, config, ch, x);
    assert x in All(F, ch) <==> x < Size(F, ch);
    forall p | Parent(ds, p, ch, x) && p.config == config ensures Claims(P, L, ch, p.dtype, p.index, x) {
      ParentClaims(ds, e, n, p, ch, x);
    }
    if x in All(F, ch) {
      var t, i :| Claims(P, L, ch, t, i, x);
      var p := ClaimersAreParents(ds, e, config, n, t, i, ch, x);
    }
    forall p, p' | Parent(ds, p, ch, x) && Parent(ds, p', ch, x) && p.config == p'.config == config ensures p == p' {
      SameKeySame(ds, p, p');
    }
  }

  lemma StreamPortsOwnClusters(t: nat, ch: nat, b: Body, x: nat)
    requires 0x14 <= ch <= 0x19 && x in Indices(OwnRange(ch, t, b))
    ensures PortType(0) <= t < PortType(2)
  {
    NothingIndexed();
  }

  lemma ParentClaims(ds: seq<FlatDescriptor>, e: Entity, n: nat, p: FlatDescriptor, ch: nat, x: nat)
    requires WfEntity(e) && NumbersFit(e) && IsFlat(ds, e) && p.config < |e.configurations|
    requires 0x14 <= ch <= 0x19 && n == 6 + (ch - 0x14) % 3 && Parent(ds, p, ch, x)
    ensures Claims(Stage(e.configurations[p.config], n + 1), Stage(e.configurations[p.config], n), ch, p.dtype, p.index, x)
  {
    hide AddConfiguration, WfConfiguration, NumbersFit, Emitted, StrictlySorted, Reaches, Stage, Indices, InUnit, OwnRange;
    var c := e.configurations[p.config];
    assert UnitType(KindOf(n)) == 2 + (ch - 0x14) % 3;
    ReachersClaim(ds, e, p, ch, x);
    StreamPortsOwnClusters(p.dtype, ch, At(AddConfiguration(c), p.dtype)[p.index].body, x);
    PortsOfKind(ds, e, p.config, n, p);
    LaterStages(c, n + 1, p.dtype);
  }

  lemma LaterStages(c: Configuration, n: nat, t: nat)
    requires n <= 9
    ensures At(Stage(c, n), t) <= At(AddConfiguration(c), t)
  {
    hide Stage, AddConfiguration;
    StagesGrow(c, n, 9);
    ExtendsAt(Stage(c, n), Stage(c, 9), t);
    StagesAreTheWalk(c);
  }

  lemma ClaimersAreParents(ds: seq<FlatDescriptor>, e: Entity, config: nat, n: nat, t: nat, i: nat, ch: nat, x: nat)
    returns (p: FlatDescriptor)
    requires WfEntity(e) && NumbersFit(e) && IsFlat(ds, e) && config < |e.configurations|
    requires 0x14 <= ch <= 0x19 && n == 6 + (ch - 0x14) % 3
    requires Claims(Stage(e.configurations[config], n + 1), Stage(e.configurations[config], n), ch, t, i, x)
    ensures p.config == config && Parent(ds, p, ch, x)
  {
    hide AddConfiguration, WfConfiguration, NumbersFit, Emitted, StrictlySorted, Reaches, Stage, Indices, InUnit, OwnRange;
    var c := e.configurations[config];
    LaterStages(c, n + 1, t);
    EmptySizes(t);
    StreamPortsOwnClusters(t, ch, At(Stage(c, n + 1), t)[i].body, x);
    p := ClaimersReach(ds, e, config, t, i, ch, x);
    PortsOfKind(ds, e, config, n, p);
  }

  // ---- the pairs of each node ----

  /** At octet `at`: how many there are, and the index the first of them gets, or 0 if there are none. */
  predicate PairIs(w: bytes, at: nat, count: nat, first: nat) {
    |w| >= at + 4 && U16At(w, at) == count && U16At(w, at + 2) == if count == 0 then 0 else first
  }

  lemma PairReads(t: nat, i: nat, b: Body, k: nat)
    requires Encodable(t, b) && k < RangeCount(t)
    ensures var w, at := Encode(t, i, b), 4 + HeadLength(t) + 4 * k;
            |w| >= at + 4 && U16At(w, at) == b.ranges[k].count && U16At(w, at + 2) == b.ranges[k].base
  {
    hide Encode, U16At, HeadLength, RangeCount, ReadRanges;
    DecodeEncode(t, i, b);
    ReadRangesAt(Encode(t, i, b), 4 + HeadLength(t), RangeCount(t), k);
  }

  /** A port: controls at 8, and for a stream port clusters at 12 and maps at 16. */
  lemma PortPairs(P: Pools, k: Kind, j: nat, p: Port, i: nat)
    requires j < 6 && WfPort(j, p) && Fits(AddPort(P, k, j, p))
    ensures var w := Encode(PortType(j), i, PortBody(P, k, j, p));
            && PairIs(w, 8, |p.controls|, Size(P, CONTROL))
            && (j < 2 ==> PairIs(w, 12, |p.clusters|, Size(P, ClusterType(k))) && PairIs(w, 16, |p.maps|, Size(P, MapType(k))))
  {
    hide Encode, U16At, Fits, AddPort, Encodable;
    var t, b := PortType(j), PortBody(P, k, j, p);
    PortBodyEncodable(P, k, j, p);
    PairReads(t, i, b, 0);
    if j < 2 {
      PairReads(t, i, b, 1);
      PairReads(t, i, b, 2);
    }
  }

  /** A unit: its six lists of ports from 72 on, and its controls at 96. */
  lemma UnitPairs(P: Pools, k: Kind, u: Unit, i: nat, j: nat)
    requires WfUnit(u) && Fits(P) && |u.controls| <= 0xFFFF && (forall l :: 0 <= l < 6 ==> |u.ports[l]| <= 0xFFFF) && j < 6
    ensures var w := Encode(UnitType(k), i, UnitBody(P, u));
            PairIs(w, 72 + 4 * j, |u.ports[j]|, Size(P, PortType(j))) && PairIs(w, 96, |u.controls|, Size(P, CONTROL))
  {
    hide Encode, U16At, Fits, Encodable;
    var t, b := UnitType(k), UnitBody(P, u);
    UnitBodyEncodable(P, k, u);
    PairReads(t, i, b, j);
    PairReads(t, i, b, 6);
  }

  /** An AVB_INTERFACE at 98 or a CONTROL_BLOCK at 70: its inline controls, or else what the author wrote by hand, as 16
      bits; the base of nothing is 0. */
  lemma OwnerPairs(P: Pools, t: nat, o: Owner, i: nat)
    requires t in {AVB_INTERFACE, CONTROL_BLOCK} && WfOwner(t, o) && Fits(AddOwner(P, t, o))
    ensures var w, at := Encode(t, i, OwnerBody(P, o)), if t == AVB_INTERFACE then 98 else 70;
            && (o.controls != [] ==> PairIs(w, at, |o.controls|, Size(P, CONTROL)))
            && (o.controls == [] && o.number != 0 ==>
                  |w| >= at + 4 && U16At(w, at) == o.number % 0x1_0000 && U16At(w, at + 2) == o.base % 0x1_0000)
            && (o.controls == [] && o.number == 0 ==> PairIs(w, at, 0, 0))
  {
    hide Encode, U16At, Fits;
    var b := OwnerBody(P, o);
    assert Size(AddOwner(P, t, o), CONTROL) == Size(P, CONTROL) + |o.controls|;
    FitsAt(AddOwner(P, t, o), CONTROL);
    assert Encodable(t, b);
    PairReads(t, i, b, 0);
  }

  /** A LOCALE at 68 or a PTP_INSTANCE at 86: its members, and the index the first one gets or would get. */
  lemma GroupPairs(P: Pools, t: nat, m: nat, g: Group, i: nat)
    requires IsGroup(t, m) && WfGroup(t, g) && Fits(AddGroup(P, t, m, g))
    ensures var w, at := Encode(t, i, GroupBody(P, m, g)), if t == LOCALE then 68 else 86;
            |w| >= at + 4 && U16At(w, at) == |g.members| && U16At(w, at + 2) == Size(P, m)
  {
    hide Encode, U16At, Fits;
    assert Size(AddGroup(P, t, m, g), m) == Size(P, m) + |g.members|;
    FitsAt(AddGroup(P, t, m, g), m);
    assert Encodable(t, GroupBody(P, m, g));
    PairReads(t, i, GroupBody(P, m, g), 0);
  }
}
