/** Compiling a normal form emits the descriptors the original emitted, octet for octet. */
module Recompile {
  import opened Wire
  import opened AemModel
  import opened Pools
  import opened Counts
  import opened Codec
  import opened Stages
  import opened NormalForm
  import opened RoundTrip

  function Blank(items: seq<Item>): (r: seq<Item>)
    ensures |r| == |items| && forall i :: 0 <= i < |r| ==> r[i] == Item(items[i].body, None)
  {
    seq(|items|, i requires 0 <= i < |items| => Item(items[i].body, None))
  }

  /** Q holds what P holds at type t, without the symbols. */
  ghost predicate SameAt(P: Pools, Q: Pools, t: nat) {
    At(Q, t) == Blank(At(P, t))
  }

  ghost predicate Same(P: Pools, Q: Pools) {
    forall t :: SameAt(P, Q, t)
  }

  lemma SameSize(P: Pools, Q: Pools, t: nat)
    requires SameAt(P, Q, t)
    ensures Size(P, t) == Size(Q, t)
  {
  }

  /** Adding the same bodies, blank on the right, keeps pools the same. */
  lemma SamePut(P: Pools, Q: Pools, t: nat, x: seq<Item>, t': nat)
    requires SameAt(P, Q, t')
    ensures SameAt(P[t := At(P, t) + x], Q[t := At(Q, t) + Blank(x)], t')
  {
    assert Blank(At(P, t) + x) == Blank(At(P, t)) + Blank(x);
  }

  lemma SamePutAllAt(P: Pools, Q: Pools, t: nat, leaves: seq<Leaf>, t': nat)
    requires SameAt(P, Q, t')
    ensures SameAt(PutAll(P, t, leaves), PutAll(Q, t, EraseLeaves(leaves)), t')
  {
    assert Blank(LeafItems(leaves)) == LeafItems(EraseLeaves(leaves));
    SamePut(P, Q, t, LeafItems(leaves), t');
  }

  lemma SamePutOneAt(P: Pools, Q: Pools, t: nat, b: Body, s: Symbol, t': nat)
    requires SameAt(P, Q, t')
    ensures SameAt(Put(P, t, b, s), Put(Q, t, b, None), t')
  {
    assert Blank([Item(b, s)]) == [Item(b, None)];
    SamePut(P, Q, t, [Item(b, s)], t');
  }

  lemma SamePutAll(P: Pools, Q: Pools, t: nat, leaves: seq<Leaf>)
    requires Same(P, Q)
    ensures Same(PutAll(P, t, leaves), PutAll(Q, t, EraseLeaves(leaves)))
  {
    forall t' ensures SameAt(PutAll(P, t, leaves), PutAll(Q, t, EraseLeaves(leaves)), t') {
      assert SameAt(P, Q, t');
      SamePutAllAt(P, Q, t, leaves, t');
    }
  }

  lemma SamePutOne(P: Pools, Q: Pools, t: nat, b: Body, s: Symbol)
    requires Same(P, Q)
    ensures Same(Put(P, t, b, s), Put(Q, t, b, None))
  {
    forall t' ensures SameAt(Put(P, t, b, s), Put(Q, t, b, None), t') {
      assert SameAt(P, Q, t');
      SamePutOneAt(P, Q, t, b, s, t');
    }
  }

  lemma SamePort(P: Pools, Q: Pools, k: Kind, j: nat, p: Port)
    requires Same(P, Q)
    ensures Same(AddPort(P, k, j, p), AddPort(Q, k, j, ErasePort(p)))
  {
    hide Same, Put, PutAll;
    var p' := ErasePort(p);
    assert PortBody(P, k, j, p) == PortBody(Q, k, j, p') by {
      SamesAt(P, Q, CONTROL);
      SamesAt(P, Q, ClusterType(k));
      SamesAt(P, Q, MapType(k));
      SameSize(P, Q, CONTROL);
      SameSize(P, Q, ClusterType(k));
      SameSize(P, Q, MapType(k));
    }
    SamePutAll(P, Q, CONTROL, p.controls);
    var P1, Q1 := PutAll(P, CONTROL, p.controls), PutAll(Q, CONTROL, p'.controls);
    SamePutAll(P1, Q1, ClusterType(k), p.clusters);
    SamePutAll(PutAll(P1, ClusterType(k), p.clusters), PutAll(Q1, ClusterType(k), p'.clusters), MapType(k), p.maps);
    SamePutOne(AddPortChildren(P, k, p), AddPortChildren(Q, k, p'), PortType(j), PortBody(P, k, j, p), p.symbol);
  }

  lemma SamesAt(P: Pools, Q: Pools, t: nat)
    requires Same(P, Q)
    ensures SameAt(P, Q, t)
  {
  }

  lemma {:induction false} SamePorts(P: Pools, Q: Pools, k: Kind, j: nat, ps: seq<Port>)
    requires Same(P, Q)
    ensures Same(AddPorts(P, k, j, ps), AddPorts(Q, k, j, ErasePorts(ps)))
  {
    hide Same, AddPort;
    if ps != [] {
      var init := ps[..|ps| - 1];
      assert ErasePorts(ps)[..|ps| - 1] == ErasePorts(init);
      SamePorts(P, Q, k, j, init);
      SamePort(AddPorts(P, k, j, init), AddPorts(Q, k, j, ErasePorts(init)), k, j, ps[|ps| - 1]);
    }
  }

  lemma {:induction false} SamePortLists(P: Pools, Q: Pools, k: Kind, lists: seq<seq<Port>>, lists': seq<seq<Port>>)
    requires Same(P, Q) && |lists| == |lists'| && forall j :: 0 <= j < |lists| ==> lists'[j] == ErasePorts(lists[j])
    ensures Same(AddPortLists(P, k, lists), AddPortLists(Q, k, lists'))
  {
    hide Same, AddPorts, ErasePorts;
    if lists != [] {
      var j := |lists| - 1;
      SamePortLists(P, Q, k, lists[..j], lists'[..j]);
      SamePorts(AddPortLists(P, k, lists[..j]), AddPortLists(Q, k, lists'[..j]), k, j, lists[j]);
    }
  }

  lemma SameUnit(P: Pools, Q: Pools, k: Kind, u: Unit)
    requires Same(P, Q)
    ensures Same(AddUnit(P, k, u), AddUnit(Q, k, EraseUnit(u)))
  {
    hide AddPortLists, Put, PutAll;
    var u' := EraseUnit(u);
    assert UnitBody(P, u) == UnitBody(Q, u') by {
      SameUnitBody(P, Q, u);
    }
    SamePutAll(P, Q, CONTROL, u.controls);
    SamePortLists(PutAll(P, CONTROL, u.controls), PutAll(Q, CONTROL, u'.controls), k, u.ports, u'.ports);
    SamePutOne(AddUnitChildren(P, k, u), AddUnitChildren(Q, k, u'), UnitType(k), UnitBody(P, u), u.symbol);
  }

  lemma SameUnitBody(P: Pools, Q: Pools, u: Unit)
    requires Same(P, Q)
    ensures UnitBody(P, u) == UnitBody(Q, EraseUnit(u))
  {
    forall t ensures Size(P, t) == Size(Q, t) {
      assert SameAt(P, Q, t);
      SameSize(P, Q, t);
    }
    assert UnitBody(P, u).ranges == UnitBody(Q, EraseUnit(u)).ranges;
  }

  lemma {:induction false} SameUnits(P: Pools, Q: Pools, k: Kind, us: seq<Unit>)
    requires Same(P, Q)
    ensures Same(AddUnits(P, k, us), AddUnits(Q, k, EraseUnits(us)))
  {
    hide Same, AddUnit, EraseUnit;
    if us != [] {
      var init := us[..|us| - 1];
      assert EraseUnits(us)[..|us| - 1] == EraseUnits(init);
      SameUnits(P, Q, k, init);
      SameUnit(AddUnits(P, k, init), AddUnits(Q, k, EraseUnits(init)), k, us[|us| - 1]);
    }
  }

  // ---- before the units the normal form's control pool is already complete ----

  /** All pools the same except CONTROL, where Q already holds M. */
  ghost predicate SameBut(P: Pools, Q: Pools, M: seq<Item>) {
    (forall t :: t != CONTROL ==> SameAt(P, Q, t)) && At(Q, CONTROL) == M
  }

  lemma {:induction false} SameFlat(P: Pools, Q: Pools, M: seq<Item>, c: Configuration, c': Configuration, ts: seq<nat>)
    requires SameBut(P, Q, M) && CONTROL !in ts
    requires forall t <- ts :: t in c.flat && t in c'.flat && c'.flat[t] == EraseLeaves(c.flat[t])
    ensures SameBut(AddFlat(P, c, ts), AddFlat(Q, c', ts), M)
  {
    if ts != [] {
      var t, init := ts[|ts| - 1], ts[..|ts| - 1];
      assert t in ts;
      SameFlat(P, Q, M, c, c', init);
      SameButPutAll(AddFlat(P, c, init), AddFlat(Q, c', init), M, t, c.flat[t]);
    }
  }

  lemma SameButPutAll(P: Pools, Q: Pools, M: seq<Item>, t: nat, leaves: seq<Leaf>)
    requires SameBut(P, Q, M) && t != CONTROL
    ensures SameBut(PutAll(P, t, leaves), PutAll(Q, t, EraseLeaves(leaves)), M)
  {
    var P', Q' := PutAll(P, t, leaves), PutAll(Q, t, EraseLeaves(leaves));
    forall t' | t' != CONTROL ensures SameAt(P', Q', t') {
      assert SameAt(P, Q, t');
      SamePutAllAt(P, Q, t, leaves, t');
    }
  }

  lemma SameButPut(P: Pools, Q: Pools, M: seq<Item>, t: nat, b: Body, s: Symbol)
    requires SameBut(P, Q, M) && t != CONTROL
    ensures SameBut(Put(P, t, b, s), Put(Q, t, b, None), M)
  {
    forall t' | t' != CONTROL ensures SameAt(Put(P, t, b, s), Put(Q, t, b, None), t') {
      assert SameAt(P, Q, t');
      SamePutOneAt(P, Q, t, b, s, t');
    }
  }

  lemma {:induction false} SameGroups(P: Pools, Q: Pools, M: seq<Item>, t: nat, m: nat, gs: seq<Group>)
    requires SameBut(P, Q, M) && t != CONTROL && m != CONTROL
    ensures SameBut(AddGroups(P, t, m, gs), AddGroups(Q, t, m, EraseGroups(gs)), M)
  {
    hide Put, PutAll;
    if gs != [] {
      var init, g := gs[..|gs| - 1], gs[|gs| - 1];
      assert EraseGroups(gs)[..|gs| - 1] == EraseGroups(init);
      var P', Q' := AddGroups(P, t, m, init), AddGroups(Q, t, m, EraseGroups(init));
      SameGroups(P, Q, M, t, m, init);
      assert SameAt(P', Q', m);
      SameSize(P', Q', m);
      SameButPut(P', Q', M, t, GroupBody(P', m, g), g.symbol);
      SameButPutAll(Put(P', t, GroupBody(P', m, g), g.symbol), Put(Q', t, GroupBody(P', m, g), None), M, m, g.members);
    }
  }

  /** The hand-written numbers the compiler accepts: those of the 16-bit wire range, two's
      complement included; the base is not looked at when the count is zero. */
  predicate HandNumbersFit(o: Owner) {
    o.controls == [] ==> Packable16(o.number) && (o.number != 0 ==> Packable16(o.base))
  }

  predicate Packable16(v: int) { -0x8000 <= v < 0x1_0000 }

  /** A normalised owner carries the range its original was given. */
  lemma OwnerRangeStable(o: Owner, base: nat, any: nat)
    requires HandNumbersFit(o) && |o.controls| <= 0xFFFF && base <= 0xFFFF
    ensures OwnerRange(NormalOwner(o, base), any) == OwnerRange(o, base)
  {
  }

  lemma {:induction false} SameOwners(P: Pools, Q: Pools, M: seq<Item>, t: nat, os: seq<Owner>, base: nat)
    requires SameBut(P, Q, M) && t != CONTROL && base == Size(P, CONTROL)
    requires (forall o <- os :: HandNumbersFit(o)) && Fits(AddOwners(P, t, os))
    ensures SameBut(AddOwners(P, t, os), AddOwners(Q, t, NormalOwners(os, base)), M)
  {
    hide HandNumbersFit, SameBut, Fits, AddOwner, AddOwners, NormalOwners, NormalOwner, Inlined;
    if os == [] {
      NoOwners(P, Q, t, base);
    } else {
      var init, o := os[..|os| - 1], os[|os| - 1];
      assert o in os;
      var P', Q' := AddOwners(P, t, init), AddOwners(Q, t, NormalOwners(init, base));
      OwnersSnoc(P, t, os);
      OwnerGrows(P', t, o);
      FitsEarlier(P', AddOwner(P', t, o));
      SameOwners(P, Q, M, t, init, base);
      OwnersControls(P, t, init);
      assert Size(P', CONTROL) == base + |Inlined(init)|;
      NormalOwnersSnoc(Q, t, os, base);
      SameOwner(P', Q', M, t, o);
    }
  }

  lemma NoOwners(P: Pools, Q: Pools, t: nat, base: nat)
    ensures AddOwners(P, t, []) == P && AddOwners(Q, t, NormalOwners([], base)) == Q
  {
  }

  lemma OwnersSnoc(P: Pools, t: nat, os: seq<Owner>)
    requires os != []
    ensures AddOwners(P, t, os) == AddOwner(AddOwners(P, t, os[..|os| - 1]), t, os[|os| - 1])
  {
  }

  lemma NormalOwnersSnoc(Q: Pools, t: nat, os: seq<Owner>, base: nat)
    requires os != []
    ensures var init := os[..|os| - 1];
            AddOwners(Q, t, NormalOwners(os, base))
              == AddOwner(AddOwners(Q, t, NormalOwners(init, base)), t, NormalOwner(os[|os| - 1], base + |Inlined(init)|))
  {
    hide AddOwner, NormalOwner, Inlined;
    assert NormalOwners(os, base)[..|os| - 1] == NormalOwners(os[..|os| - 1], base);
  }

  lemma SameOwner(P: Pools, Q: Pools, M: seq<Item>, t: nat, o: Owner)
    requires SameBut(P, Q, M) && t != CONTROL && HandNumbersFit(o) && Fits(AddOwner(P, t, o))
    ensures SameBut(AddOwner(P, t, o), AddOwner(Q, t, NormalOwner(o, Size(P, CONTROL))), M)
  {
    var n := NormalOwner(o, Size(P, CONTROL));
    OwnerStep(P, t, o);
    assert Size(AddOwner(P, t, o), CONTROL) <= 0xFFFF;
    OwnerRangeStable(o, Size(P, CONTROL), Size(Q, CONTROL));
    assert OwnerBody(Q, n) == OwnerBody(P, o);
    var P', Q' := PutAll(P, CONTROL, o.controls), PutAll(Q, CONTROL, []);
    assert At(Q', CONTROL) == At(Q, CONTROL);
    forall t' | t' != CONTROL ensures SameAt(P', Q', t') {
      assert SameAt(P, Q, t');
    }
    SameButPut(P', Q', M, t, OwnerBody(P, o), o.symbol);
  }

  predicate HandNumbersFitIn(c: Configuration) {
    (forall o <- c.interfaces :: HandNumbersFit(o)) && forall o <- c.blocks :: HandNumbersFit(o)
  }

  ghost function MergedControls(c: Configuration): (M: seq<Item>) {
    Blank(LeafItems(c.controls + Inlined(c.interfaces) + Inlined(c.blocks)))
  }

  lemma SameFirstStage(c: Configuration)
    requires WfConfiguration(c)
    ensures SameBut(Stage(c, 1), Stage(NormalConfiguration(c), 1), MergedControls(c))
  {
    hide WfConfiguration, Inlined;
    var n := NormalConfiguration(c);
    assert Stage(c, 0) == Stage(n, 0) == EMPTY;
    EmptySizes(CONTROL);
    assert At(Stage(n, 1), CONTROL) == LeafItems(n.controls);
    assert LeafItems(n.controls) == MergedControls(c);
  }

  lemma {:induction false} SameTopLevelStage(c: Configuration, i: nat)
    requires WfConfiguration(c) && HandNumbersFitIn(c) && Fits(Stage(c, i)) && 1 <= i <= 6
    ensures SameBut(Stage(c, i), Stage(NormalConfiguration(c), i), MergedControls(c))
  {
    hide WfUnit, WfOwner, WfGroup, HandNumbersFit, SameBut, Fits, MergedControls, Inlined,
         AddUnits, AddOwners, AddGroups, AddFlat, PutAll, EraseLeaves, NormalOwners, EraseGroups;
    var n, M := NormalConfiguration(c), MergedControls(c);
    if i == 1 {
      SameFirstStage(c);
    } else {
      StageGrows(c, i - 1);
      FitsEarlier(Stage(c, i - 1), Stage(c, i));
      SameTopLevelStage(c, i - 1);
      TopLevelControls(c);
      FlatTypesDistinct();
      var P, Q := Stage(c, i - 1), Stage(n, i - 1);
      match i {
        case 2 => SameFlat(P, Q, M, c, n, FLAT_TYPES);
        case 3 => SameOwners(P, Q, M, AVB_INTERFACE, c.interfaces, |c.controls|);
        case 4 => SameGroups(P, Q, M, LOCALE, STRINGS, c.locales);
        case 5 => SameOwners(P, Q, M, CONTROL_BLOCK, c.blocks, |c.controls| + |Inlined(c.interfaces)|);
        case _ => SameGroups(P, Q, M, PTP_INSTANCE, PTP_PORT, c.ptpInstances);
      }
    }
  }

  lemma SameAfterTopLevel(c: Configuration)
    requires WfConfiguration(c) && HandNumbersFitIn(c) && Fits(Stage(c, 6))
    ensures Same(Stage(c, 6), Stage(NormalConfiguration(c), 6))
  {
    hide Stage, NormalConfiguration, WfConfiguration, HandNumbersFitIn, Fits;
    var n := NormalConfiguration(c);
    SameTopLevelStage(c, 6);
    TopLevelControls(c);
    forall t ensures SameAt(Stage(c, 6), Stage(n, 6), t) {
    }
  }

  /** The normal form allocates the same descriptors at the same indices with the same ranges. */
  lemma NormalFormAllocatesTheSame(c: Configuration)
    requires WfConfiguration(c) && HandNumbersFitIn(c) && Fits(AddConfiguration(c))
    ensures Same(AddConfiguration(c), AddConfiguration(NormalConfiguration(c)))
  {
    hide WfConfiguration, HandNumbersFitIn, Fits, Same, AddUnits, AddConfiguration, AddTopLevel, EraseUnits;
    var n := NormalConfiguration(c);
    StagesAreTheWalk(c);
    StagesAreTheWalk(n);
    StagesGrow(c, 6, 9);
    FitsEarlier(Stage(c, 6), Stage(c, 9));
    SameAfterTopLevel(c);
    SameUnits(Stage(c, 6), Stage(n, 6), Audio, c.audioUnits);
    SameUnits(Stage(c, 7), Stage(n, 7), Video, c.videoUnits);
    SameUnits(Stage(c, 8), Stage(n, 8), Sensor, c.sensorUnits);
  }
}
