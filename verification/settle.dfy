/** A tree whose every descriptor has been parsed and serialized once: it allocates the same descriptors at the
    same indices, each with its octets settled. */
module Settle {
  import opened Wire
  import opened AemModel
  import opened Pools
  import opened Counts
  import opened Codec
  import opened Stages
  import opened Layouts
  import F = Fields

  function SettleLeaves(t: nat, s: seq<Leaf>): (r: seq<Leaf>)
    ensures |r| == |s| && forall i :: 0 <= i < |r| ==> r[i] == Leaf(KeptTail(t, s[i].octets), s[i].symbol)
  {
    seq(|s|, i requires 0 <= i < |s| => Leaf(KeptTail(t, s[i].octets), s[i].symbol))
  }

  function SettlePort(k: Kind, j: nat, p: Port): (r: Port) {
    Port(KeptHead(PortType(j), p.head), KeptTail(PortType(j), p.tail), SettleLeaves(CONTROL, p.controls),
         SettleLeaves(ClusterType(k), p.clusters), SettleLeaves(MapType(k), p.maps), p.symbol)
  }

  function SettlePorts(k: Kind, j: nat, s: seq<Port>): (r: seq<Port>)
    ensures |r| == |s| && forall i :: 0 <= i < |r| ==> r[i] == SettlePort(k, j, s[i])
  {
    seq(|s|, i requires 0 <= i < |s| => SettlePort(k, j, s[i]))
  }

  function SettleUnit(k: Kind, u: Unit): (r: Unit) {
    Unit(KeptHead(UnitType(k), u.head), KeptTail(UnitType(k), u.tail), SettleLeaves(CONTROL, u.controls),
         seq(|u.ports|, j requires 0 <= j < |u.ports| => SettlePorts(k, j, u.ports[j])), u.symbol)
  }

  function SettleUnits(k: Kind, s: seq<Unit>): (r: seq<Unit>)
    ensures |r| == |s| && forall i :: 0 <= i < |r| ==> r[i] == SettleUnit(k, s[i])
  {
    seq(|s|, i requires 0 <= i < |s| => SettleUnit(k, s[i]))
  }

  function SettleOwner(t: nat, o: Owner): (r: Owner) {
    Owner(KeptHead(t, o.head), o.number, o.base, KeptTail(t, o.tail), SettleLeaves(CONTROL, o.controls), o.symbol)
  }

  function SettleOwners(t: nat, s: seq<Owner>): (r: seq<Owner>)
    ensures |r| == |s| && forall i :: 0 <= i < |r| ==> r[i] == SettleOwner(t, s[i])
  {
    seq(|s|, i requires 0 <= i < |s| => SettleOwner(t, s[i]))
  }

  function SettleGroup(t: nat, m: nat, g: Group): (r: Group) {
    Group(KeptHead(t, g.head), SettleLeaves(m, g.members), g.symbol)
  }

  function SettleGroups(t: nat, m: nat, s: seq<Group>): (r: seq<Group>)
    ensures |r| == |s| && forall i :: 0 <= i < |r| ==> r[i] == SettleGroup(t, m, s[i])
  {
    seq(|s|, i requires 0 <= i < |s| => SettleGroup(t, m, s[i]))
  }

  function SettleConfiguration(c: Configuration): (r: Configuration)
    requires WfConfiguration(c)
  {
    Configuration(KeptHead(CONFIGURATION, c.head), SettleLeaves(CONTROL, c.controls),
                  map t <- FLAT_TYPES :: SettleLeaves(t, c.flat[t]),
                  SettleOwners(AVB_INTERFACE, c.interfaces), SettleGroups(LOCALE, STRINGS, c.locales),
                  SettleOwners(CONTROL_BLOCK, c.blocks), SettleGroups(PTP_INSTANCE, PTP_PORT, c.ptpInstances),
                  SettleUnits(Audio, c.audioUnits), SettleUnits(Video, c.videoUnits), SettleUnits(Sensor, c.sensorUnits),
                  c.symbol)
  }

  // ---- lengths ----

  lemma {:induction false} OwnedExtent(l: F.Layout, n: nat)
    requires n <= |l|
    ensures Place(Owned(l), n) == F.Offset(l, n)
  {
    if n > 0 { OwnedExtent(l, n - 1); }
  }

  lemma EntityExtent()
    ensures Extent(HeadPieces(ENTITY)) == 304
  {
    hide Place, F.Offset;
    OwnedExtent(F.ENTITY, 15);
    F.EntityOffsets(15);
    LastPlace(Owned(F.ENTITY), 16);
  }

  lemma InterfaceExtent()
    ensures Extent(HeadPieces(AVB_INTERFACE)) == 94
  {
    hide Place, F.Offset;
    OwnedExtent(F.AVB_INTERFACE, 14);
    F.AvbInterfaceOffsets(14);
    LastPlace(Owned(F.AVB_INTERFACE), 15);
  }

  lemma LastPlace(ps: seq<Piece>, n: nat)
    requires n == |ps| > 0
    ensures Place(ps, n) == Place(ps, n - 1) + PieceWidth(ps[n - 1])
  {
  }

  lemma NamedExtent(t: nat)
    requires t == CONFIGURATION || t == CONTROL_BLOCK
    ensures Extent(HeadPieces(t)) == 66
  {
    PlacesAre(HeadPieces(t), [0, 64, 66], 2);
  }

  lemma UnitExtent(t: nat)
    requires AUDIO_UNIT <= t <= SENSOR_UNIT
    ensures Extent(HeadPieces(t)) == 68
  {
    PlacesAre(HeadPieces(t), [0, 64, 66, 68], 3);
  }

  lemma PortExtent(t: nat)
    requires STREAM_PORT_INPUT <= t <= INTERNAL_PORT_OUTPUT
    ensures Extent(HeadPieces(t)) == 4
    ensures TailShape(t).trailer == Nothing && Extent(TailShape(t).pieces) == if t <= STREAM_PORT_OUTPUT then 0 else 12
  {
    PlacesAre(HeadPieces(t), [0, 2, 4], 2);
    if t > STREAM_PORT_OUTPUT {
      PlacesAre(TailShape(t).pieces, [0, 2, 4, 6, 10, 12], 5);
    }
  }

  lemma GroupExtent(t: nat)
    requires t == LOCALE || t == PTP_INSTANCE
    ensures Extent(HeadPieces(t)) == GroupHead(t) && KeptTail(t, []) == []
  {
    if t == LOCALE {
      PlacesAre(HeadPieces(t), [0, 64], 1);
    } else {
      PlacesAre(HeadPieces(t), [0, 64, 66, 74, 78, 80, 82], 6);
    }
    assert TailShape(t) == Shape([], Nothing);
  }

  lemma OwnerTails(t: nat)
    requires t == AVB_INTERFACE || t == CONTROL_BLOCK
    ensures TailShape(t).trailer == Nothing && Extent(TailShape(t).pieces) == if t == AVB_INTERFACE then 0 else 8
  {
    if t == CONTROL_BLOCK {
      PlacesAre(TailShape(t).pieces, [0, 2, 4, 6, 8], 4);
    }
  }

  lemma KeptLengths(t: nat, h: bytes, o: bytes)
    ensures |KeptHead(t, h)| == Extent(HeadPieces(t))
    ensures TailShape(t).trailer == Nothing ==> |KeptTail(t, o)| == Extent(TailShape(t).pieces)
  {
    hide HeadPieces, TailShape, Place;
  }

  // ---- well-formedness ----

  lemma SettledPortWf(k: Kind, j: nat, p: Port)
    requires j < 6 && WfPort(j, p)
    ensures WfPort(j, SettlePort(k, j, p))
  {
    hide KeptHead, KeptTail, HeadPieces, TailShape, Place;
    PortExtent(PortType(j));
    KeptLengths(PortType(j), p.head, p.tail);
  }

  lemma SettledUnitWf(k: Kind, u: Unit)
    requires WfUnit(u)
    ensures WfUnit(SettleUnit(k, u))
  {
    hide KeptHead, KeptTail, HeadPieces, TailShape, Place, WfPort, SettlePort;
    UnitExtent(UnitType(k));
    KeptLengths(UnitType(k), u.head, u.tail);
    var v := SettleUnit(k, u);
    forall j | 0 <= j < 6 ensures forall p <- v.ports[j] :: WfPort(j, p) {
      forall n | 0 <= n < |v.ports[j]| ensures WfPort(j, v.ports[j][n]) {
        assert u.ports[j][n] in u.ports[j];
        SettledPortWf(k, j, u.ports[j][n]);
      }
    }
  }

  lemma SettledUnitsWf(k: Kind, us: seq<Unit>)
    requires forall u <- us :: WfUnit(u)
    ensures forall u <- SettleUnits(k, us) :: WfUnit(u)
  {
    hide WfUnit, SettleUnit;
    forall i | 0 <= i < |us| ensures WfUnit(SettleUnits(k, us)[i]) {
      assert us[i] in us;
      SettledUnitWf(k, us[i]);
    }
  }

  lemma SettledOwnersWf(t: nat, os: seq<Owner>)
    requires t == AVB_INTERFACE || t == CONTROL_BLOCK
    ensures forall o <- SettleOwners(t, os) :: WfOwner(t, o)
  {
    hide KeptHead, KeptTail, HeadPieces, TailShape, Place;
    OwnerTails(t);
    if t == AVB_INTERFACE { InterfaceExtent(); } else { NamedExtent(t); }
    forall i | 0 <= i < |os| ensures WfOwner(t, SettleOwners(t, os)[i]) {
      KeptLengths(t, os[i].head, os[i].tail);
    }
  }

  lemma SettledGroupsWf(t: nat, m: nat, gs: seq<Group>)
    requires t == LOCALE || t == PTP_INSTANCE
    ensures forall g <- SettleGroups(t, m, gs) :: WfGroup(t, g)
  {
    hide KeptHead, KeptTail, HeadPieces, TailShape, Place;
    GroupExtent(t);
    forall i | 0 <= i < |gs| ensures WfGroup(t, SettleGroups(t, m, gs)[i]) {
      KeptLengths(t, gs[i].head, []);
    }
  }

  lemma SettledWf(c: Configuration)
    requires WfConfiguration(c)
    ensures WfConfiguration(SettleConfiguration(c))
  {
    hide KeptHead, KeptTail, HeadPieces, TailShape, Place, WfUnit, WfOwner, WfGroup, SettleUnits, SettleOwners, SettleGroups, SettleLeaves;
    NamedExtent(CONFIGURATION);
    KeptLengths(CONFIGURATION, c.head, []);
    SettledOwnersWf(AVB_INTERFACE, c.interfaces);
    SettledOwnersWf(CONTROL_BLOCK, c.blocks);
    SettledGroupsWf(LOCALE, STRINGS, c.locales);
    SettledGroupsWf(PTP_INSTANCE, PTP_PORT, c.ptpInstances);
    SettledUnitsWf(Audio, c.audioUnits);
    SettledUnitsWf(Video, c.videoUnits);
    SettledUnitsWf(Sensor, c.sensorUnits);
  }

  // ---- the walk over a settled tree ----

  function SettleItems(t: nat, items: seq<Item>): (r: seq<Item>)
    ensures |r| == |items| && forall i :: 0 <= i < |r| ==> r[i] == Item(Settled(t, items[i].body), items[i].symbol)
  {
    seq(|items|, i requires 0 <= i < |items| => Item(Settled(t, items[i].body), items[i].symbol))
  }

  /** Q holds what P holds at type t, settled. */
  ghost predicate SettlesAt(P: Pools, Q: Pools, t: nat) {
    At(Q, t) == SettleItems(t, At(P, t))
  }

  ghost predicate Settles(P: Pools, Q: Pools) {
    forall t :: SettlesAt(P, Q, t)
  }

  lemma SettlesSize(P: Pools, Q: Pools, t: nat)
    requires Settles(P, Q)
    ensures Size(P, t) == Size(Q, t)
  {
    assert SettlesAt(P, Q, t);
  }

  lemma SettlesMore(P: Pools, Q: Pools, t: nat, x: seq<Item>)
    requires Settles(P, Q)
    ensures Settles(P[t := At(P, t) + x], Q[t := At(Q, t) + SettleItems(t, x)])
  {
    hide Settled;
    var P', Q' := P[t := At(P, t) + x], Q[t := At(Q, t) + SettleItems(t, x)];
    forall t' ensures SettlesAt(P', Q', t') {
      assert SettlesAt(P, Q, t');
      if t' == t {
        assert SettleItems(t, At(P, t) + x) == SettleItems(t, At(P, t)) + SettleItems(t, x);
      }
    }
  }

  lemma SettlesPut(P: Pools, Q: Pools, t: nat, b: Body, s: Symbol)
    requires Settles(P, Q)
    ensures Settles(Put(P, t, b, s), Put(Q, t, Settled(t, b), s))
  {
    hide Settles, Settled;
    SettlesMore(P, Q, t, [Item(b, s)]);
    assert SettleItems(t, [Item(b, s)]) == [Item(Settled(t, b), s)];
  }

  /** Types whose own octets all follow the ranges. */
  predicate LeafType(t: nat) { HeadPieces(t) == [] }

  lemma SettlesPutAll(P: Pools, Q: Pools, t: nat, leaves: seq<Leaf>)
    requires Settles(P, Q) && LeafType(t)
    ensures Settles(PutAll(P, t, leaves), PutAll(Q, t, SettleLeaves(t, leaves)))
  {
    hide Settles, KeptTail, HeadPieces;
    SettlesMore(P, Q, t, LeafItems(leaves));
    assert KeptHead(t, []) == [] by { assert Padded([], 0) == []; }
    assert SettleItems(t, LeafItems(leaves)) == LeafItems(SettleLeaves(t, leaves));
  }

  lemma LeafTypes(k: Kind)
    ensures LeafType(CONTROL) && LeafType(ClusterType(k)) && LeafType(MapType(k)) && LeafType(STRINGS) && LeafType(PTP_PORT)
    ensures forall t <- FLAT_TYPES :: LeafType(t)
  {
  }

  lemma SettlesPort(P: Pools, Q: Pools, k: Kind, j: nat, p: Port)
    requires Settles(P, Q)
    ensures Settles(AddPort(P, k, j, p), AddPort(Q, k, j, SettlePort(k, j, p)))
  {
    hide Settles, Put, PutAll, KeptTail, KeptHead, LeafType;
    var p' := SettlePort(k, j, p);
    SettlesSize(P, Q, CONTROL);
    SettlesSize(P, Q, ClusterType(k));
    SettlesSize(P, Q, MapType(k));
    assert Settled(PortType(j), PortBody(P, k, j, p)) == PortBody(Q, k, j, p');
    LeafTypes(k);
    SettlesPutAll(P, Q, CONTROL, p.controls);
    var P1, Q1 := PutAll(P, CONTROL, p.controls), PutAll(Q, CONTROL, p'.controls);
    SettlesPutAll(P1, Q1, ClusterType(k), p.clusters);
    SettlesPutAll(PutAll(P1, ClusterType(k), p.clusters), PutAll(Q1, ClusterType(k), p'.clusters), MapType(k), p.maps);
    SettlesPut(AddPortChildren(P, k, p), AddPortChildren(Q, k, p'), PortType(j), PortBody(P, k, j, p), p.symbol);
  }

  lemma {:induction false} SettlesPorts(P: Pools, Q: Pools, k: Kind, j: nat, ps: seq<Port>)
    requires Settles(P, Q)
    ensures Settles(AddPorts(P, k, j, ps), AddPorts(Q, k, j, SettlePorts(k, j, ps)))
  {
    hide Settles, AddPort, SettlePort;
    if ps != [] {
      var init := ps[..|ps| - 1];
      assert SettlePorts(k, j, ps)[..|ps| - 1] == SettlePorts(k, j, init);
      SettlesPorts(P, Q, k, j, init);
      SettlesPort(AddPorts(P, k, j, init), AddPorts(Q, k, j, SettlePorts(k, j, init)), k, j, ps[|ps| - 1]);
    }
  }

  lemma {:induction false} SettlesPortLists(P: Pools, Q: Pools, k: Kind, lists: seq<seq<Port>>, lists': seq<seq<Port>>)
    requires Settles(P, Q) && |lists| == |lists'| && forall j :: 0 <= j < |lists| ==> lists'[j] == SettlePorts(k, j, lists[j])
    ensures Settles(AddPortLists(P, k, lists), AddPortLists(Q, k, lists'))
  {
    hide Settles, AddPorts, SettlePorts;
    if lists != [] {
      var j := |lists| - 1;
      SettlesPortLists(P, Q, k, lists[..j], lists'[..j]);
      SettlesPorts(AddPortLists(P, k, lists[..j]), AddPortLists(Q, k, lists'[..j]), k, j, lists[j]);
    }
  }

  lemma SettledUnitBody(P: Pools, Q: Pools, k: Kind, u: Unit)
    requires Settles(P, Q)
    ensures Settled(UnitType(k), UnitBody(P, u)) == UnitBody(Q, SettleUnit(k, u))
  {
    hide Settles, KeptTail, KeptHead;
    forall t ensures Size(P, t) == Size(Q, t) { SettlesSize(P, Q, t); }
    assert UnitBody(P, u).ranges == UnitBody(Q, SettleUnit(k, u)).ranges;
  }

  lemma SettlesUnit(P: Pools, Q: Pools, k: Kind, u: Unit)
    requires Settles(P, Q)
    ensures Settles(AddUnit(P, k, u), AddUnit(Q, k, SettleUnit(k, u)))
  {
    hide Settles, AddPortLists, Put, PutAll, KeptTail, KeptHead, LeafType, UnitBody, Settled;
    var u' := SettleUnit(k, u);
    SettledUnitBody(P, Q, k, u);
    LeafTypes(k);
    SettlesPutAll(P, Q, CONTROL, u.controls);
    SettlesPortLists(PutAll(P, CONTROL, u.controls), PutAll(Q, CONTROL, u'.controls), k, u.ports, u'.ports);
    SettlesPut(AddUnitChildren(P, k, u), AddUnitChildren(Q, k, u'), UnitType(k), UnitBody(P, u), u.symbol);
  }

  lemma {:induction false} SettlesUnits(P: Pools, Q: Pools, k: Kind, us: seq<Unit>)
    requires Settles(P, Q)
    ensures Settles(AddUnits(P, k, us), AddUnits(Q, k, SettleUnits(k, us)))
  {
    hide Settles, AddUnit, SettleUnit;
    if us != [] {
      var init := us[..|us| - 1];
      assert SettleUnits(k, us)[..|us| - 1] == SettleUnits(k, init);
      SettlesUnits(P, Q, k, init);
      SettlesUnit(AddUnits(P, k, init), AddUnits(Q, k, SettleUnits(k, init)), k, us[|us| - 1]);
    }
  }

  lemma SettlesOwner(P: Pools, Q: Pools, t: nat, o: Owner)
    requires Settles(P, Q)
    ensures Settles(AddOwner(P, t, o), AddOwner(Q, t, SettleOwner(t, o)))
  {
    hide Settles, Put, PutAll, KeptTail, KeptHead, LeafType;
    SettlesSize(P, Q, CONTROL);
    var o' := SettleOwner(t, o);
    assert o.controls == [] <==> o'.controls == [];
    assert Settled(t, OwnerBody(P, o)) == OwnerBody(Q, o');
    LeafTypes(Audio);
    SettlesPutAll(P, Q, CONTROL, o.controls);
    SettlesPut(PutAll(P, CONTROL, o.controls), PutAll(Q, CONTROL, o'.controls), t, OwnerBody(P, o), o.symbol);
  }

  lemma {:induction false} SettlesOwners(P: Pools, Q: Pools, t: nat, os: seq<Owner>)
    requires Settles(P, Q)
    ensures Settles(AddOwners(P, t, os), AddOwners(Q, t, SettleOwners(t, os)))
  {
    hide Settles, AddOwner, SettleOwner;
    if os != [] {
      var init := os[..|os| - 1];
      assert SettleOwners(t, os)[..|os| - 1] == SettleOwners(t, init);
      SettlesOwners(P, Q, t, init);
      SettlesOwner(AddOwners(P, t, init), AddOwners(Q, t, SettleOwners(t, init)), t, os[|os| - 1]);
    }
  }

  lemma SettlesGroup(P: Pools, Q: Pools, t: nat, m: nat, g: Group)
    requires Settles(P, Q) && (t == LOCALE || t == PTP_INSTANCE) && LeafType(m)
    ensures Settles(AddGroup(P, t, m, g), AddGroup(Q, t, m, SettleGroup(t, m, g)))
  {
    hide Settles, Put, PutAll, KeptTail, KeptHead, LeafType;
    var g' := SettleGroup(t, m, g);
    SettlesSize(P, Q, m);
    GroupExtent(t);
    assert Settled(t, GroupBody(P, m, g)) == GroupBody(Q, m, g');
    SettlesPut(P, Q, t, GroupBody(P, m, g), g.symbol);
    SettlesPutAll(Put(P, t, GroupBody(P, m, g), g.symbol), Put(Q, t, GroupBody(Q, m, g'), g.symbol), m, g.members);
  }

  lemma {:induction false} SettlesGroups(P: Pools, Q: Pools, t: nat, m: nat, gs: seq<Group>)
    requires Settles(P, Q) && (t == LOCALE || t == PTP_INSTANCE) && LeafType(m)
    ensures Settles(AddGroups(P, t, m, gs), AddGroups(Q, t, m, SettleGroups(t, m, gs)))
  {
    hide Settles, AddGroup, SettleGroup, LeafType;
    if gs != [] {
      var init := gs[..|gs| - 1];
      assert SettleGroups(t, m, gs)[..|gs| - 1] == SettleGroups(t, m, init);
      SettlesGroups(P, Q, t, m, init);
      SettlesGroup(AddGroups(P, t, m, init), AddGroups(Q, t, m, SettleGroups(t, m, init)), t, m, gs[|gs| - 1]);
    }
  }

  lemma {:induction false} SettlesFlat(P: Pools, Q: Pools, c: Configuration, c': Configuration, ts: seq<nat>)
    requires Settles(P, Q) && forall t <- ts :: LeafType(t)
    requires forall t <- ts :: t in c.flat && t in c'.flat && c'.flat[t] == SettleLeaves(t, c.flat[t])
    ensures Settles(AddFlat(P, c, ts), AddFlat(Q, c', ts))
  {
    hide Settles, PutAll, LeafType, SettleLeaves;
    if ts != [] {
      var t, init := ts[|ts| - 1], ts[..|ts| - 1];
      assert t in ts;
      SettlesFlat(P, Q, c, c', init);
      SettlesPutAll(AddFlat(P, c, init), AddFlat(Q, c', init), t, c.flat[t]);
    }
  }

  lemma {:induction false} SettlesStage(c: Configuration, n: nat)
    requires WfConfiguration(c) && n <= 9
    ensures Settles(Stage(c, n), Stage(SettleConfiguration(c), n))
  {
    hide WfUnit, WfOwner, WfGroup, Settles, AddUnits, AddOwners, AddGroups, AddFlat, PutAll, SettleLeaves, SettleOwners, SettleGroups,
      SettleUnits, LeafType, KeptHead;
    var c' := SettleConfiguration(c);
    if n == 0 {
      NothingSettles();
    } else {
      SettlesStage(c, n - 1);
      LeafTypes(Audio);
      var P, Q := Stage(c, n - 1), Stage(c', n - 1);
      match n {
        case 1 => SettlesPutAll(P, Q, CONTROL, c.controls);
        case 2 => SettlesFlat(P, Q, c, c', FLAT_TYPES);
        case 3 => SettlesOwners(P, Q, AVB_INTERFACE, c.interfaces);
        case 4 => SettlesGroups(P, Q, LOCALE, STRINGS, c.locales);
        case 5 => SettlesOwners(P, Q, CONTROL_BLOCK, c.blocks);
        case 6 => SettlesGroups(P, Q, PTP_INSTANCE, PTP_PORT, c.ptpInstances);
        case _ => SettlesUnits(P, Q, KindOf(n - 1), UnitsOf(c, n - 1));
      }
    }
  }

  lemma NothingSettles()
    ensures Settles(EMPTY, EMPTY)
  {
    forall t ensures SettlesAt(EMPTY, EMPTY, t) { EmptySizes(t); }
  }

  /** Settling a tree settles its descriptors in place: no index, count or base changes. */
  lemma SettlingAllocatesTheSame(c: Configuration)
    requires WfConfiguration(c)
    ensures Settles(AddConfiguration(c), AddConfiguration(SettleConfiguration(c)))
  {
    hide Stage, AddConfiguration, WfConfiguration, SettleConfiguration, Settles;
    StagesAreTheWalk(c);
    StagesAreTheWalk(SettleConfiguration(c));
    SettlesStage(c, 9);
  }
}
