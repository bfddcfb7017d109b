/** The octets of a descriptor: type and index words, its own fields, its ranges. */
module Codec {
  import opened Wire
  import opened AemModel
  import opened Pools
  import opened Counts

  /** A value the compiler writes as a 16-bit word; it has checked that the value fits. */
  function Word(v: nat): (r: bytes)
    ensures |r| == 2
  {
    U16(v % 0x1_0000)
  }

  function RangeOctets(ranges: seq<Range>): (r: bytes)
    ensures |r| == 4 * |ranges|
  {
    if ranges == [] then [] else
      RangeOctets(ranges[..|ranges| - 1]) + Word(ranges[|ranges| - 1].count) + Word(ranges[|ranges| - 1].base)
  }

  function Encode(t: nat, i: nat, b: Body): (w: bytes)
    ensures |w| == 4 + |b.head| + 4 * |b.ranges| + |b.tail|
  {
    Word(t) + Word(i) + b.head + RangeOctets(b.ranges) + b.tail
  }

  /** Octets of a descriptor's own fields before its ranges, and how many ranges it has. */
  function HeadLength(t: nat): (n: nat) {
    if AUDIO_UNIT <= t <= SENSOR_UNIT then 68
    else if STREAM_PORT_INPUT <= t <= INTERNAL_PORT_OUTPUT then 4
    else if t == AVB_INTERFACE then 94
    else if t == CONTROL_BLOCK then 66
    else if t == LOCALE || t == PTP_INSTANCE then GroupHead(t)
    else 0
  }

  function RangeCount(t: nat): (n: nat) {
    if AUDIO_UNIT <= t <= SENSOR_UNIT then 7
    else if STREAM_PORT_INPUT <= t <= STREAM_PORT_OUTPUT then 3
    else if EXTERNAL_PORT_INPUT <= t <= INTERNAL_PORT_OUTPUT || t in {AVB_INTERFACE, CONTROL_BLOCK, LOCALE, PTP_INSTANCE} then 1
    else 0
  }

  function MinLength(t: nat): (n: nat) {
    4 + HeadLength(t) + 4 * RangeCount(t)
  }

  function ReadRanges(w: bytes, at: nat, n: nat): (r: seq<Range>)
    requires at + 4 * n <= |w|
    ensures |r| == n
  {
    if n == 0 then [] else ReadRanges(w, at, n - 1) + [Range(U16At(w, at + 4 * n - 4), U16At(w, at + 4 * n - 2))]
  }

  /** The per-descriptor parsers, as far as the nesting is concerned. */
  function Decode(t: nat, w: bytes): (b: Body)
    requires |w| >= MinLength(t)
  {
    var at := 4 + HeadLength(t);
    Body(w[4..at], ReadRanges(w, at, RangeCount(t)), w[at + 4 * RangeCount(t)..])
  }

  predicate Encodable(t: nat, b: Body) {
    && |b.head| == HeadLength(t) && |b.ranges| == RangeCount(t)
    && forall r <- b.ranges :: r.count <= 0xFFFF && r.base <= 0xFFFF
  }

  lemma WordReads(w: bytes, at: nat, v: nat)
    requires at + 2 <= |w| && w[at..at + 2] == Word(v) && v <= 0xFFFF
    ensures U16At(w, at) == v
  {
    assert w[at] == w[at..at + 2][0] && w[at + 1] == w[at..at + 2][1];
  }

  lemma Subslice<X>(w: seq<X>, a: nat, b: nat, i: nat, j: nat)
    requires a <= b <= |w| && i <= j <= b - a
    ensures w[a..b][i..j] == w[a + i..a + j]
  {
    var l, r := w[a..b][i..j], w[a + i..a + j];
    assert |l| == |r| && forall x :: 0 <= x < |l| ==> l[x] == r[x];
  }

  lemma {:induction false} RangesReadBack(w: bytes, at: nat, ranges: seq<Range>)
    requires at + 4 * |ranges| <= |w| && w[at..at + 4 * |ranges|] == RangeOctets(ranges)
    requires forall r <- ranges :: r.count <= 0xFFFF && r.base <= 0xFFFF
    ensures ReadRanges(w, at, |ranges|) == ranges
  {
    hide Word, U16At, RangeOctets;
    if ranges != [] {
      var init, r := ranges[..|ranges| - 1], ranges[|ranges| - 1];
      var a, b, c := RangeOctets(init), Word(r.count), Word(r.base);
      assert r in ranges;
      RangeOctetsSnoc(ranges);
      ThreeInPlace(w, at, a, b, c);
      RangesReadBack(w, at, init);
      WordReads(w, at + |a|, r.count);
      WordReads(w, at + |a| + 2, r.base);
    }
  }

  lemma ThreeInPlace(w: bytes, at: nat, a: bytes, b: bytes, c: bytes)
    requires at + |a| + |b| + |c| <= |w| && w[at..at + |a| + |b| + |c|] == a + b + c
    ensures w[at..at + |a|] == a && w[at + |a|..at + |a| + |b|] == b
    ensures w[at + |a| + |b|..at + |a| + |b| + |c|] == c
  {
    TwoInPlace(w, at, a + b, c);
    TwoInPlace(w, at, a, b);
  }

  /** Two stretches one after the other, each in its place. */
  lemma TwoInPlace(w: bytes, at: nat, x: bytes, y: bytes)
    requires at + |x| + |y| <= |w| && w[at..at + |x| + |y|] == x + y
    ensures w[at..at + |x|] == x && w[at + |x|..at + |x| + |y|] == y
  {
    var n := |x| + |y|;
    Subslice(w, at, at + n, 0, |x|);
    Subslice(w, at, at + n, |x|, n);
    assert (x + y)[0..|x|] == x && (x + y)[|x|..n] == y;
  }

  lemma RangeOctetsSnoc(ranges: seq<Range>)
    requires ranges != []
    ensures var r := ranges[|ranges| - 1]; RangeOctets(ranges) == RangeOctets(ranges[..|ranges| - 1]) + Word(r.count) + Word(r.base)
  {
  }

  /** Parsing inverts serializing for every descriptor whose numbers fit their words. */
  lemma DecodeEncode(t: nat, i: nat, b: Body)
    requires Encodable(t, b)
    ensures |Encode(t, i, b)| >= MinLength(t) && Decode(t, Encode(t, i, b)) == b
  {
    var w := Encode(t, i, b);
    var at, n := 4 + HeadLength(t), RangeCount(t);
    assert w == (Word(t) + Word(i)) + b.head + RangeOctets(b.ranges) + b.tail;
    assert w[4..at] == b.head;
    assert w[at..at + 4 * n] == RangeOctets(b.ranges);
    assert w[at + 4 * n..] == b.tail;
    RangesReadBack(w, at, b.ranges);
  }

  // ---- everything the walk emits can be encoded ----

  ghost predicate AllEncodable(P: Pools) {
    forall t, i :: 0 <= i < Size(P, t) ==> Encodable(t, At(P, t)[i].body)
  }

  /** Every index, count and base fits a 16-bit word. */
  ghost predicate Fits(P: Pools) {
    forall t :: Size(P, t) <= 0xFFFF
  }

  lemma FitsEarlier(P: Pools, Q: Pools)
    requires Extends(P, Q) && Fits(Q)
    ensures Fits(P)
  {
    forall t ensures Size(P, t) <= 0xFFFF {
      assert At(P, t) <= At(Q, t) && Size(Q, t) <= 0xFFFF;
    }
  }

  lemma PutEncodable(P: Pools, t: nat, b: Body, symbol: Symbol)
    requires AllEncodable(P) && Encodable(t, b)
    ensures AllEncodable(Put(P, t, b, symbol))
  {
    var Q := Put(P, t, b, symbol);
    forall t', i | 0 <= i < Size(Q, t') ensures Encodable(t', At(Q, t')[i].body) {
      if t' != t || i < Size(P, t') {
        assert At(Q, t')[i] == At(P, t')[i];
      }
    }
  }

  lemma PutAllEncodable(P: Pools, t: nat, leaves: seq<Leaf>)
    requires AllEncodable(P) && MinLength(t) == 4
    ensures AllEncodable(PutAll(P, t, leaves))
  {
    var Q := PutAll(P, t, leaves);
    forall t', i | 0 <= i < Size(Q, t') ensures Encodable(t', At(Q, t')[i].body) {
      if t' != t || i < Size(P, t') {
        assert At(Q, t')[i] == At(P, t')[i];
      } else {
        assert At(Q, t')[i] == LeafItems(leaves)[i - Size(P, t)];
      }
    }
  }

  lemma PortBodyEncodable(P: Pools, k: Kind, j: nat, p: Port)
    requires j < 6 && WfPort(j, p) && Fits(AddPort(P, k, j, p))
    ensures Encodable(PortType(j), PortBody(P, k, j, p))
  {
    hide AddPort, Fits;
    var Q := AddPort(P, k, j, p);
    PortPools(P, k, j, p);
    FitsAt(Q, CONTROL);
    FitsAt(Q, ClusterType(k));
    FitsAt(Q, MapType(k));
  }

  lemma FitsAt(P: Pools, t: nat)
    requires Fits(P)
    ensures Size(P, t) <= 0xFFFF
  {
  }

  lemma PortEncodable(P: Pools, k: Kind, j: nat, p: Port)
    requires AllEncodable(P) && j < 6 && WfPort(j, p) && Fits(AddPort(P, k, j, p))
    ensures AllEncodable(AddPort(P, k, j, p))
  {
    hide AllEncodable, PutAll, Put, Fits, Encodable, PortBody;
    PortBodyEncodable(P, k, j, p);
    PutAllEncodable(P, CONTROL, p.controls);
    PutAllEncodable(PutAll(P, CONTROL, p.controls), ClusterType(k), p.clusters);
    PutAllEncodable(PutAll(PutAll(P, CONTROL, p.controls), ClusterType(k), p.clusters), MapType(k), p.maps);
    PutEncodable(AddPortChildren(P, k, p), PortType(j), PortBody(P, k, j, p), p.symbol);
  }

  lemma {:induction false} PortsEncodable(P: Pools, k: Kind, j: nat, ps: seq<Port>)
    requires AllEncodable(P) && j < 6 && (forall p <- ps :: WfPort(j, p)) && Fits(AddPorts(P, k, j, ps))
    ensures AllEncodable(AddPorts(P, k, j, ps))
  {
    hide AllEncodable, Fits, AddPort, WfPort;
    if ps != [] {
      var Q, p := AddPorts(P, k, j, ps[..|ps| - 1]), ps[|ps| - 1];
      PortGrows(Q, k, j, p);
      FitsEarlier(Q, AddPort(Q, k, j, p));
      PortsEncodable(P, k, j, ps[..|ps| - 1]);
      assert p in ps;
      PortEncodable(Q, k, j, p);
    }
  }

  lemma {:induction false} PortListsEncodable(P: Pools, k: Kind, lists: seq<seq<Port>>)
    requires AllEncodable(P) && |lists| <= 6 && Fits(AddPortLists(P, k, lists))
    requires forall j :: 0 <= j < |lists| ==> forall p <- lists[j] :: WfPort(j, p)
    ensures AllEncodable(AddPortLists(P, k, lists))
  {
    hide AllEncodable, Fits, AddPorts, WfPort;
    if lists != [] {
      var j := |lists| - 1;
      var Q := AddPortLists(P, k, lists[..j]);
      PortsGrow(Q, k, j, lists[j]);
      FitsEarlier(Q, AddPorts(Q, k, j, lists[j]));
      PortListsEncodable(P, k, lists[..j]);
      PortsEncodable(Q, k, j, lists[j]);
    }
  }

  lemma UnitBodyEncodable(P: Pools, k: Kind, u: Unit)
    requires WfUnit(u) && Fits(P) && |u.controls| <= 0xFFFF && forall j :: 0 <= j < 6 ==> |u.ports[j]| <= 0xFFFF
    ensures Encodable(UnitType(k), UnitBody(P, u))
  {
    var b := UnitBody(P, u);
    forall r <- b.ranges ensures r.count <= 0xFFFF && r.base <= 0xFFFF {
      var j :| 0 <= j < 7 && r == b.ranges[j];
      assert Size(P, PortType(j)) <= 0xFFFF && Size(P, CONTROL) <= 0xFFFF;
    }
  }

  lemma {:induction false} PortsCountOwn(k: Kind, j: nat, ps: seq<Port>)
    ensures PortsCount(k, j, ps, PortType(j)) >= |ps|
  {
    if ps != [] { PortsCountOwn(k, j, ps[..|ps| - 1]); }
  }

  lemma {:induction false} PortListsCountOwn(k: Kind, lists: seq<seq<Port>>, j: nat)
    requires j < |lists| <= 6
    ensures PortListsCount(k, lists, PortType(j)) >= |lists[j]|
  {
    var n := |lists| - 1;
    if j < n { PortListsCountOwn(k, lists[..n], j); } else { PortsCountOwn(k, j, lists[j]); }
  }

  lemma UnitEncodable(P: Pools, k: Kind, u: Unit)
    requires AllEncodable(P) && WfUnit(u) && Fits(AddUnit(P, k, u))
    ensures AllEncodable(AddUnit(P, k, u))
  {
    hide AllEncodable, AddPortLists, UnitBody, Encodable;
    var P1, Q := PutAll(P, CONTROL, u.controls), AddUnitChildren(P, k, u);
    UnitGrows(P, k, u);
    FitsEarlier(P, AddUnit(P, k, u));
    PutGrows(Q, UnitType(k), UnitBody(P, u), u.symbol);
    FitsEarlier(Q, AddUnit(P, k, u));
    PutAllEncodable(P, CONTROL, u.controls);
    PortListsEncodable(P1, k, u.ports);
    forall j | 0 <= j < 6 ensures |u.ports[j]| <= 0xFFFF {
      PortListsCounted(P1, k, u.ports, PortType(j));
      PortListsCountOwn(k, u.ports, j);
      assert Size(Q, PortType(j)) <= 0xFFFF;
    }
    PortListsGrow(P1, k, u.ports);
    FitsEarlier(P1, Q);
    assert Size(P1, CONTROL) == Size(P, CONTROL) + |u.controls|;
    UnitBodyEncodable(P, k, u);
    PutEncodable(Q, UnitType(k), UnitBody(P, u), u.symbol);
  }

  lemma {:induction false} UnitsEncodable(P: Pools, k: Kind, us: seq<Unit>)
    requires AllEncodable(P) && (forall u <- us :: WfUnit(u)) && Fits(AddUnits(P, k, us))
    ensures AllEncodable(AddUnits(P, k, us))
  {
    hide AllEncodable, Fits, AddUnit, WfUnit;
    if us != [] {
      var Q, u := AddUnits(P, k, us[..|us| - 1]), us[|us| - 1];
      assert u in us;
      UnitGrows(Q, k, u);
      FitsEarlier(Q, AddUnit(Q, k, u));
      UnitsEncodable(P, k, us[..|us| - 1]);
      UnitEncodable(Q, k, u);
    }
  }

  lemma OwnerEncodable(P: Pools, t: nat, o: Owner)
    requires AllEncodable(P) && t in {AVB_INTERFACE, CONTROL_BLOCK} && WfOwner(t, o) && Fits(AddOwner(P, t, o))
    ensures AllEncodable(AddOwner(P, t, o))
  {
    hide AllEncodable;
    assert Size(AddOwner(P, t, o), CONTROL) == Size(P, CONTROL) + |o.controls|;
    PutAllEncodable(P, CONTROL, o.controls);
    PutEncodable(PutAll(P, CONTROL, o.controls), t, OwnerBody(P, o), o.symbol);
  }

  lemma {:induction false} OwnersEncodable(P: Pools, t: nat, os: seq<Owner>)
    requires AllEncodable(P) && t in {AVB_INTERFACE, CONTROL_BLOCK}
    requires (forall o <- os :: WfOwner(t, o)) && Fits(AddOwners(P, t, os))
    ensures AllEncodable(AddOwners(P, t, os))
  {
    hide AllEncodable, Fits, WfOwner, AddOwner;
    if os != [] {
      var Q, o := AddOwners(P, t, os[..|os| - 1]), os[|os| - 1];
      assert o in os;
      OwnerGrows(Q, t, o);
      FitsEarlier(Q, AddOwner(Q, t, o));
      OwnersEncodable(P, t, os[..|os| - 1]);
      OwnerEncodable(Q, t, o);
    }
  }

  lemma GroupEncodable(P: Pools, t: nat, m: nat, g: Group)
    requires AllEncodable(P) && (t, m) in {(LOCALE, STRINGS), (PTP_INSTANCE, PTP_PORT)}
    requires WfGroup(t, g) && Fits(AddGroup(P, t, m, g))
    ensures AllEncodable(AddGroup(P, t, m, g))
  {
    hide AllEncodable;
    assert Size(AddGroup(P, t, m, g), m) == Size(P, m) + |g.members|;
    PutEncodable(P, t, GroupBody(P, m, g), g.symbol);
    PutAllEncodable(Put(P, t, GroupBody(P, m, g), g.symbol), m, g.members);
  }

  lemma {:induction false} GroupsEncodable(P: Pools, t: nat, m: nat, gs: seq<Group>)
    requires AllEncodable(P) && (t, m) in {(LOCALE, STRINGS), (PTP_INSTANCE, PTP_PORT)}
    requires (forall g <- gs :: WfGroup(t, g)) && Fits(AddGroups(P, t, m, gs))
    ensures AllEncodable(AddGroups(P, t, m, gs))
  {
    hide AllEncodable, Fits, WfGroup, AddGroup;
    if gs != [] {
      var Q, g := AddGroups(P, t, m, gs[..|gs| - 1]), gs[|gs| - 1];
      assert g in gs;
      GroupGrows(Q, t, m, g);
      FitsEarlier(Q, AddGroup(Q, t, m, g));
      GroupsEncodable(P, t, m, gs[..|gs| - 1]);
      GroupEncodable(Q, t, m, g);
    }
  }

  lemma {:induction false} FlatEncodable(P: Pools, c: Configuration, ts: seq<nat>)
    requires AllEncodable(P) && forall t <- ts :: MinLength(t) == 4
    ensures AllEncodable(AddFlat(P, c, ts))
  {
    hide AllEncodable, PutAll;
    if ts != [] {
      var t := ts[|ts| - 1];
      FlatEncodable(P, c, ts[..|ts| - 1]);
      PutAllEncodable(AddFlat(P, c, ts[..|ts| - 1]), t, if t in c.flat then c.flat[t] else []);
    }
  }
}
