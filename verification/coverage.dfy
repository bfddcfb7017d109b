/** The ranges the compiler writes partition what they point at: every child descriptor lies in
    the range of exactly one owner. */
module Coverage {
  import opened Wire
  import opened AemModel
  import opened Pools
  import opened Counts
  import opened Stages
  import opened Unflatten
  import opened Recompile

  /** Which range of a descriptor of type t points at children of type ch. */
  function OwnIndex(ch: nat, t: nat): (r: Option<nat>) {
    if AUDIO_UNIT <= t <= SENSOR_UNIT then
      if ch == CONTROL then Some(6) else if PortType(0) <= ch < PortType(6) then Some(ch - PortType(0)) else None
    else if PortType(0) <= t < PortType(6) then
      if ch == CONTROL then Some(0)
      else if t < PortType(2) && AUDIO_CLUSTER <= ch <= SENSOR_CLUSTER then Some(1)
      else if t < PortType(2) && AUDIO_MAP <= ch <= SENSOR_MAP then Some(2)
      else None
    else if t == AVB_INTERFACE || t == CONTROL_BLOCK then if ch == CONTROL then Some(0) else None
    else if (t == LOCALE && ch == STRINGS) || (t == PTP_INSTANCE && ch == PTP_PORT) then Some(0)
    else None
  }

  function OwnRange(ch: nat, t: nat, b: Body): (r: Range) {
    if OwnIndex(ch, t).Some? then RangeOf(b, OwnIndex(ch, t).value) else Range(0, 0)
  }

  /** Descriptor i of type t, emitted after L, has x in its range of ch children. */
  ghost predicate Claims(P: Pools, L: Pools, ch: nat, t: nat, i: nat, x: nat) {
    Size(L, t) <= i < Size(P, t) && x in Indices(OwnRange(ch, t, At(P, t)[i].body))
  }

  /** The owners emitted after L claim exactly the indices S, each of them once. */
  ghost predicate Cover(P: Pools, L: Pools, ch: nat, S: set<nat>) {
    && (forall t, i, x :: Claims(P, L, ch, t, i, x) ==> x in S)
    && (forall x :: x in S ==> exists t, i :: Claims(P, L, ch, t, i, x))
    && (forall t, i, t', i', x :: Claims(P, L, ch, t, i, x) && Claims(P, L, ch, t', i', x) ==> t == t' && i == i')
  }

  /** The indices a pool gained between two stages. */
  function Gained(P: Pools, Q: Pools, ch: nat): (s: set<nat>) {
    if Size(P, ch) <= Size(Q, ch) then Indices(Range(Size(Q, ch) - Size(P, ch), Size(P, ch))) else {}
  }

  lemma CoverPut(P: Pools, L: Pools, ch: nat, S: set<nat>, t: nat, b: Body, symbol: Symbol)
    requires Cover(P, L, ch, S) && S !! Indices(OwnRange(ch, t, b)) && Size(L, t) <= Size(P, t)
    ensures Cover(Put(P, t, b, symbol), L, ch, S + Indices(OwnRange(ch, t, b)))
  {
    hide Indices, OwnRange;
    var Q, R := Put(P, t, b, symbol), Indices(OwnRange(ch, t, b));
    var n := Size(P, t);
    assert At(Q, t) == At(P, t) + [Item(b, symbol)];
    assert forall t' :: t' != t ==> At(Q, t') == At(P, t');
    assert forall t', i, x :: Claims(Q, L, ch, t', i, x) <==>
      (if t' == t && i == n then x in R else Claims(P, L, ch, t', i, x));
    forall x | x in S + R ensures exists t', i :: Claims(Q, L, ch, t', i, x) {
      if x in R {
        assert Claims(Q, L, ch, t, n, x);
      } else {
        var t', i :| Claims(P, L, ch, t', i, x);
        assert Claims(Q, L, ch, t', i, x);
      }
    }
  }

  lemma CoverPutAll(P: Pools, L: Pools, ch: nat, S: set<nat>, t: nat, leaves: seq<Leaf>)
    requires Cover(P, L, ch, S)
    ensures Cover(PutAll(P, t, leaves), L, ch, S)
  {
    hide OwnIndex, PutAll;
    var Q := PutAll(P, t, leaves);
    forall t': nat, i: nat, x: nat ensures Claims(Q, L, ch, t', i, x) <==> Claims(P, L, ch, t', i, x) {
      PutAllAt(P, t, leaves, t');
      if t' == t && Size(P, t) <= i < Size(Q, t) {
        assert At(Q, t)[i] == LeafItems(leaves)[i - Size(P, t)];
        LeafClaimsNothing(ch, t, leaves[i - Size(P, t)].octets);
      }
    }
    CoverSame(P, Q, L, ch, S);
  }

  lemma LeafClaimsNothing(ch: nat, t: nat, octets: bytes)
    ensures Indices(OwnRange(ch, t, Body([], [], octets))) == {}
  {
  }

  lemma CoverSame(P: Pools, Q: Pools, L: Pools, ch: nat, S: set<nat>)
    requires Cover(P, L, ch, S)
    requires forall t, i, x :: Claims(Q, L, ch, t, i, x) <==> Claims(P, L, ch, t, i, x)
    ensures Cover(Q, L, ch, S)
  {
    hide Claims;
    forall x | x in S ensures exists t, i :: Claims(Q, L, ch, t, i, x) {
      var t, i :| Claims(P, L, ch, t, i, x);
      assert Claims(Q, L, ch, t, i, x);
    }
  }

  lemma GainedJoin(P: Pools, Q: Pools, R: Pools, ch: nat)
    requires Extends(P, Q) && Extends(Q, R)
    ensures Gained(P, R, ch) == Gained(P, Q, ch) + Gained(Q, R, ch)
  {
    ExtendsAt(P, Q, ch);
    ExtendsAt(Q, R, ch);
  }

  ghost predicate Below(S: set<nat>, P: Pools, ch: nat) {
    forall x :: x in S ==> x < Size(P, ch)
  }

  /** The owners after L cover S, all of it already allocated. */
  ghost predicate Covers(P: Pools, L: Pools, ch: nat, S: set<nat>) {
    Cover(P, L, ch, S) && Below(S, P, ch) && Extends(L, P)
  }

  /** Children that ports own. */
  predicate OfPorts(k: Kind, ch: nat) {
    ch in {CONTROL, ClusterType(k), MapType(k)}
  }

  lemma PortOwnRange(P: Pools, k: Kind, j: nat, p: Port, ch: nat)
    requires j < 6 && WfPort(j, p)
    ensures OfPorts(k, ch) ==> Indices(OwnRange(ch, PortType(j), PortBody(P, k, j, p))) == Gained(P, AddPort(P, k, j, p), ch)
    ensures PortType(0) <= ch < PortType(6) ==> Indices(OwnRange(ch, PortType(j), PortBody(P, k, j, p))) == {}
  {
    hide AddPort, Indices;
    PortPools(P, k, j, p);
    var r, Q := OwnRange(ch, PortType(j), PortBody(P, k, j, p)), AddPort(P, k, j, p);
    if ch == CONTROL {
      assert r == CountBase(|p.controls|, Size(P, ch));
      CountBaseIndices(|p.controls|, Size(P, ch));
    } else if OfPorts(k, ch) {
      var n := if ch == ClusterType(k) then |p.clusters| else |p.maps|;
      assert r == if j < 2 then CountBase(n, Size(P, ch)) else Range(0, 0);
      assert j >= 2 ==> n == 0;
      CountBaseIndices(n, Size(P, ch));
    } else {
      CountBaseIndices(0, 0);
    }
  }

  lemma CountBaseIndices(n: nat, base: nat)
    ensures Indices(CountBase(n, base)) == Indices(Range(n, base))
    ensures n == 0 ==> Indices(CountBase(n, base)) == {} && Indices(Range(0, 0)) == {}
  {
  }

  lemma PortCover(P: Pools, L: Pools, k: Kind, j: nat, p: Port, ch: nat, S: set<nat>)
    requires Covers(P, L, ch, S) && j < 6 && WfPort(j, p)
    ensures OfPorts(k, ch) ==> Covers(AddPort(P, k, j, p), L, ch, S + Gained(P, AddPort(P, k, j, p), ch))
    ensures PortType(0) <= ch < PortType(6) ==> Covers(AddPort(P, k, j, p), L, ch, S)
  {
    hide Cover, Put, PutAll, PortBody, OwnRange, Indices, WfPort;
    var P1 := PutAll(P, CONTROL, p.controls);
    var P2 := PutAll(P1, ClusterType(k), p.clusters);
    var P3, Q := AddPortChildren(P, k, p), AddPort(P, k, j, p);
    CoverPutAll(P, L, ch, S, CONTROL, p.controls);
    CoverPutAll(P1, L, ch, S, ClusterType(k), p.clusters);
    CoverPutAll(P2, L, ch, S, MapType(k), p.maps);
    PortPools(P, k, j, p);
    PortGrows(P, k, j, p);
    ExtendsTransitive(L, P, Q);
    ExtendsAt(L, P, PortType(j));
    ExtendsAt(P, Q, ch);
    PortOwnRange(P, k, j, p, ch);
    GainedAbove(P, Q, ch, S);
    if OfPorts(k, ch) || PortType(0) <= ch < PortType(6) {
      CoverPut(P3, L, ch, S, PortType(j), PortBody(P, k, j, p), p.symbol);
      assert S + {} == S;
    }
  }

  lemma GainedAbove(P: Pools, Q: Pools, ch: nat, S: set<nat>)
    requires Below(S, P, ch) && Size(P, ch) <= Size(Q, ch)
    ensures S !! Gained(P, Q, ch) && Below(S + Gained(P, Q, ch), Q, ch)
  {
  }

  lemma {:induction false} PortsCover(P: Pools, L: Pools, k: Kind, j: nat, ps: seq<Port>, ch: nat, S: set<nat>)
    requires Covers(P, L, ch, S) && j < 6 && forall p <- ps :: WfPort(j, p)
    ensures OfPorts(k, ch) ==> Covers(AddPorts(P, k, j, ps), L, ch, S + Gained(P, AddPorts(P, k, j, ps), ch))
    ensures PortType(0) <= ch < PortType(6) ==> Covers(AddPorts(P, k, j, ps), L, ch, S)
  {
    hide Covers, AddPort, WfPort, Gained;
    if ps == [] {
      GainedNothing(P, ch, S);
    } else {
      var Q, p := AddPorts(P, k, j, ps[..|ps| - 1]), ps[|ps| - 1];
      assert p in ps;
      PortsCover(P, L, k, j, ps[..|ps| - 1], ch, S);
      PortsGrow(P, k, j, ps[..|ps| - 1]);
      PortGrows(Q, k, j, p);
      GainedJoin(P, Q, AddPort(Q, k, j, p), ch);
      if OfPorts(k, ch) {
        PortCover(Q, L, k, j, p, ch, S + Gained(P, Q, ch));
        assert S + Gained(P, Q, ch) + Gained(Q, AddPort(Q, k, j, p), ch) == S + Gained(P, AddPort(Q, k, j, p), ch);
      } else if PortType(0) <= ch < PortType(6) {
        PortCover(Q, L, k, j, p, ch, S);
      }
    }
  }

  lemma GainedNothing(P: Pools, ch: nat, S: set<nat>)
    ensures S + Gained(P, P, ch) == S
  {
  }

  lemma {:induction false} PortListsCover(P: Pools, L: Pools, k: Kind, lists: seq<seq<Port>>, ch: nat, S: set<nat>)
    requires Covers(P, L, ch, S) && |lists| <= 6 && forall j :: 0 <= j < |lists| ==> forall p <- lists[j] :: WfPort(j, p)
    ensures OfPorts(k, ch) ==> Covers(AddPortLists(P, k, lists), L, ch, S + Gained(P, AddPortLists(P, k, lists), ch))
    ensures PortType(0) <= ch < PortType(6) ==> Covers(AddPortLists(P, k, lists), L, ch, S)
  {
    hide Covers, AddPorts, WfPort, Gained;
    if lists == [] {
      GainedNothing(P, ch, S);
    } else {
      var j := |lists| - 1;
      var Q := AddPortLists(P, k, lists[..j]);
      PortListsCover(P, L, k, lists[..j], ch, S);
      PortListsGrow(P, k, lists[..j]);
      PortsGrow(Q, k, j, lists[j]);
      GainedJoin(P, Q, AddPorts(Q, k, j, lists[j]), ch);
      if OfPorts(k, ch) {
        PortsCover(Q, L, k, j, lists[j], ch, S + Gained(P, Q, ch));
        assert S + Gained(P, Q, ch) + Gained(Q, AddPorts(Q, k, j, lists[j]), ch) == S + Gained(P, AddPorts(Q, k, j, lists[j]), ch);
      } else if PortType(0) <= ch < PortType(6) {
        PortsCover(Q, L, k, j, lists[j], ch, S);
      }
    }
  }

  /** Children below a unit: of its ports, or the ports themselves. */
  predicate OfUnits(k: Kind, ch: nat) {
    OfPorts(k, ch) || PortType(0) <= ch < PortType(6)
  }

  lemma {:induction false} PortListsCountExact(k: Kind, lists: seq<seq<Port>>, j: nat)
    requires j < |lists| <= 6
    ensures PortListsCount(k, lists, PortType(j)) == |lists[j]|
  {
    var n := |lists| - 1;
    if j < n {
      PortListsCountExact(k, lists[..n], j);
      PortsCountOther(k, n, lists[n], PortType(j));
    } else {
      PortListsCountOther(k, lists[..n], PortType(j));
      PortsCountExact(k, j, lists[j]);
    }
  }

  lemma {:induction false} PortsCountExact(k: Kind, j: nat, ps: seq<Port>)
    requires j < 6
    ensures PortsCount(k, j, ps, PortType(j)) == |ps|
  {
    if ps != [] { PortsCountExact(k, j, ps[..|ps| - 1]); }
  }

  /** What a unit's own ranges claim: its controls, and its ports. */
  lemma UnitOwnRange(P: Pools, k: Kind, u: Unit, ch: nat)
    requires WfUnit(u) && OfUnits(k, ch)
    ensures ch == CONTROL ==> Indices(OwnRange(ch, UnitType(k), UnitBody(P, u))) == Gained(P, PutAll(P, CONTROL, u.controls), ch)
    ensures PortType(0) <= ch < PortType(6) ==>
              Indices(OwnRange(ch, UnitType(k), UnitBody(P, u))) == Gained(P, AddUnitChildren(P, k, u), ch)
    ensures ch in {ClusterType(k), MapType(k)} ==> Indices(OwnRange(ch, UnitType(k), UnitBody(P, u))) == {}
  {
    hide PutAll, AddPortLists, WfPort, Indices, PortListsCount, OwnRange, UnitBody, CountBase, At;
    var P1 := PutAll(P, CONTROL, u.controls);
    PutAllAt(P, CONTROL, u.controls, ch);
    UnitRange(P, k, u, ch);
    CountBaseIndices(0, 0);
    if PortType(0) <= ch < PortType(6) {
      var j := ch - PortType(0);
      PortListsCounted(P1, k, u.ports, ch);
      PortListsCountExact(k, u.ports, j);
      CountBaseIndices(|u.ports[j]|, Size(P, ch));
    } else if ch == CONTROL {
      CountBaseIndices(|u.controls|, Size(P, CONTROL));
    }
  }

  lemma UnitRange(P: Pools, k: Kind, u: Unit, ch: nat)
    requires |u.ports| == 6
    ensures OwnRange(ch, UnitType(k), UnitBody(P, u)) ==
            if ch == CONTROL then CountBase(|u.controls|, Size(P, CONTROL))
            else if PortType(0) <= ch < PortType(6) then CountBase(|u.ports[ch - PortType(0)]|, Size(P, ch))
            else Range(0, 0)
  {
    hide At;
  }

  lemma UnitCover(P: Pools, L: Pools, k: Kind, u: Unit, ch: nat, S: set<nat>)
    requires Covers(P, L, ch, S) && WfUnit(u) && OfUnits(k, ch)
    ensures Covers(AddUnit(P, k, u), L, ch, S + Gained(P, AddUnit(P, k, u), ch))
  {
    hide Cover, Put, PutAll, UnitBody, OwnRange, Indices, WfPort, AddPortLists;
    var P1, Q, R := PutAll(P, CONTROL, u.controls), AddUnitChildren(P, k, u), AddUnit(P, k, u);
    CoverPutAll(P, L, ch, S, CONTROL, u.controls);
    PutAllGrows(P, CONTROL, u.controls);
    PutAllAt(P, CONTROL, u.controls, ch);
    ExtendsTransitive(L, P, P1);
    ExtendsAt(P, P1, ch);
    PortListsCover(P1, L, k, u.ports, ch, S);
    PortListsGrow(P1, k, u.ports);
    ExtendsTransitive(P, P1, Q);
    ExtendsTransitive(L, P, Q);
    ExtendsAt(L, Q, UnitType(k));
    ExtendsAt(P1, Q, ch);
    UnitGrows(P, k, u);
    ExtendsTransitive(L, P, R);
    UnitOwnRange(P, k, u, ch);
    UnitPutElsewhere(Q, k, UnitBody(P, u), u.symbol, ch);
    GainedJoin(P, P1, Q, ch);
    UnitSets(P, P1, Q, ch, S);
    var S' := if OfPorts(k, ch) then S + Gained(P1, Q, ch) else S;
    CoverPut(Q, L, ch, S', UnitType(k), UnitBody(P, u), u.symbol);
    assert S' + Indices(OwnRange(ch, UnitType(k), UnitBody(P, u))) == S + Gained(P, Q, ch) by {
      assert ch in {ClusterType(k), MapType(k)} ==> Gained(P, P1, ch) == {};
    }
    assert Gained(P, Q, ch) == Gained(P, R, ch);
  }

  lemma UnitPutElsewhere(Q: Pools, k: Kind, b: Body, symbol: Symbol, ch: nat)
    requires OfUnits(k, ch)
    ensures At(Put(Q, UnitType(k), b, symbol), ch) == At(Q, ch)
  {
  }

  lemma UnitSets(P: Pools, P1: Pools, Q: Pools, ch: nat, S: set<nat>)
    requires Below(S, P, ch) && Extends(P, P1) && Extends(P1, Q)
    ensures S !! Gained(P, Q, ch) && S + Gained(P1, Q, ch) !! Gained(P, P1, ch)
    ensures Below(S + Gained(P, Q, ch), Q, ch)
    ensures At(P, ch) == At(P1, ch) ==> Gained(P, P1, ch) == {}
  {
    ExtendsAt(P, P1, ch);
    ExtendsAt(P1, Q, ch);
  }

  lemma {:induction false} UnitsCover(P: Pools, L: Pools, k: Kind, us: seq<Unit>, ch: nat, S: set<nat>)
    requires Covers(P, L, ch, S) && OfUnits(k, ch) && forall u <- us :: WfUnit(u)
    ensures Covers(AddUnits(P, k, us), L, ch, S + Gained(P, AddUnits(P, k, us), ch))
  {
    hide Covers, AddUnit, WfUnit, Gained;
    if us == [] {
      GainedNothing(P, ch, S);
    } else {
      var Q, u := AddUnits(P, k, us[..|us| - 1]), us[|us| - 1];
      assert u in us;
      UnitsCover(P, L, k, us[..|us| - 1], ch, S);
      UnitsGrow(P, k, us[..|us| - 1]);
      UnitGrows(Q, k, u);
      GainedJoin(P, Q, AddUnit(Q, k, u), ch);
      UnitCover(Q, L, k, u, ch, S + Gained(P, Q, ch));
      assert S + Gained(P, Q, ch) + Gained(Q, AddUnit(Q, k, u), ch) == S + Gained(P, AddUnit(Q, k, u), ch);
    }
  }

  // ---- interfaces, control blocks, locales and PTP instances ----

  /** The author wrote no counts by hand. */
  predicate NoHandNumbers(os: seq<Owner>) {
    forall o <- os :: o.controls == [] ==> o.number == 0
  }

  lemma OwnerCover(P: Pools, L: Pools, t: nat, o: Owner, S: set<nat>)
    requires Covers(P, L, CONTROL, S) && t in {AVB_INTERFACE, CONTROL_BLOCK} && (o.controls == [] ==> o.number == 0)
    ensures Covers(AddOwner(P, t, o), L, CONTROL, S + Gained(P, AddOwner(P, t, o), CONTROL))
  {
    hide Cover, PutAll, Put, Indices;
    var P1, Q := PutAll(P, CONTROL, o.controls), AddOwner(P, t, o);
    CoverPutAll(P, L, CONTROL, S, CONTROL, o.controls);
    PutAllAt(P, CONTROL, o.controls, CONTROL);
    PutAllAt(P, CONTROL, o.controls, t);
    OwnerGrows(P, t, o);
    ExtendsTransitive(L, P, Q);
    ExtendsAt(L, P, t);
    PutElsewhere(P1, t, OwnerBody(P, o), o.symbol, CONTROL);
    GainedAbove(P, Q, CONTROL, S);
    CountBaseIndices(|o.controls|, Size(P, CONTROL));
    assert OwnRange(CONTROL, t, OwnerBody(P, o)) == CountBase(|o.controls|, Size(P, CONTROL));
    CoverPut(P1, L, CONTROL, S, t, OwnerBody(P, o), o.symbol);
  }

  lemma PutElsewhere(P: Pools, t: nat, b: Body, symbol: Symbol, ch: nat)
    requires t != ch
    ensures At(Put(P, t, b, symbol), ch) == At(P, ch)
  {
  }

  lemma {:induction false} OwnersCover(P: Pools, L: Pools, t: nat, os: seq<Owner>, S: set<nat>)
    requires Covers(P, L, CONTROL, S) && t in {AVB_INTERFACE, CONTROL_BLOCK} && NoHandNumbers(os)
    ensures Covers(AddOwners(P, t, os), L, CONTROL, S + Gained(P, AddOwners(P, t, os), CONTROL))
  {
    hide Covers, AddOwner, Gained;
    if os == [] {
      GainedNothing(P, CONTROL, S);
    } else {
      var Q, o := AddOwners(P, t, os[..|os| - 1]), os[|os| - 1];
      assert o in os;
      OwnersCover(P, L, t, os[..|os| - 1], S);
      OwnersGrow(P, t, os[..|os| - 1]);
      OwnerGrows(Q, t, o);
      GainedJoin(P, Q, AddOwner(Q, t, o), CONTROL);
      OwnerCover(Q, L, t, o, S + Gained(P, Q, CONTROL));
      assert S + Gained(P, Q, CONTROL) + Gained(Q, AddOwner(Q, t, o), CONTROL) == S + Gained(P, AddOwner(Q, t, o), CONTROL);
    }
  }

  predicate IsGroup(t: nat, m: nat) {
    (t == LOCALE && m == STRINGS) || (t == PTP_INSTANCE && m == PTP_PORT)
  }

  lemma GroupCover(P: Pools, L: Pools, t: nat, m: nat, g: Group, ch: nat, S: set<nat>)
    requires Covers(P, L, ch, S) && IsGroup(t, m) && (ch == m || ch == CONTROL)
    ensures Covers(AddGroup(P, t, m, g), L, ch, S + Gained(P, AddGroup(P, t, m, g), ch))
  {
    hide Cover, PutAll, Put, Indices;
    var b := GroupBody(P, m, g);
    var P1, Q := Put(P, t, b, g.symbol), AddGroup(P, t, m, g);
    PutElsewhere(P, t, b, g.symbol, ch);
    PutAllAt(P1, m, g.members, ch);
    GroupGrows(P, t, m, g);
    ExtendsTransitive(L, P, Q);
    ExtendsAt(L, P, t);
    GainedAbove(P, Q, ch, S);
    CountBaseIndices(0, 0);
    CountBaseIndices(0, Size(P, ch));
    assert OwnRange(ch, t, b) == if ch == m then Range(|g.members|, Size(P, m)) else Range(0, 0);
    CoverPut(P, L, ch, S, t, b, g.symbol);
    CoverPutAll(P1, L, ch, S + Indices(OwnRange(ch, t, b)), m, g.members);
  }

  lemma {:induction false} GroupsCover(P: Pools, L: Pools, t: nat, m: nat, gs: seq<Group>, ch: nat, S: set<nat>)
    requires Covers(P, L, ch, S) && IsGroup(t, m) && (ch == m || ch == CONTROL)
    ensures Covers(AddGroups(P, t, m, gs), L, ch, S + Gained(P, AddGroups(P, t, m, gs), ch))
  {
    hide Covers, AddGroup, Gained;
    if gs == [] {
      GainedNothing(P, ch, S);
    } else {
      var Q, g := AddGroups(P, t, m, gs[..|gs| - 1]), gs[|gs| - 1];
      GroupsCover(P, L, t, m, gs[..|gs| - 1], ch, S);
      GroupsGrow(P, t, m, gs[..|gs| - 1]);
      GroupGrows(Q, t, m, g);
      GainedJoin(P, Q, AddGroup(Q, t, m, g), ch);
      GroupCover(Q, L, t, m, g, ch, S + Gained(P, Q, ch));
      assert S + Gained(P, Q, ch) + Gained(Q, AddGroup(Q, t, m, g), ch) == S + Gained(P, AddGroup(Q, t, m, g), ch);
    }
  }

  lemma {:induction false} FlatCover(P: Pools, L: Pools, c: Configuration, ts: seq<nat>, ch: nat, S: set<nat>)
    requires Covers(P, L, ch, S)
    ensures Covers(AddFlat(P, c, ts), L, ch, S)
  {
    hide Cover, PutAll;
    if ts != [] {
      var Q, t := AddFlat(P, c, ts[..|ts| - 1]), ts[|ts| - 1];
      var leaves := if t in c.flat then c.flat[t] else [];
      FlatCover(P, L, c, ts[..|ts| - 1], ch, S);
      CoverPutAll(Q, L, ch, S, t, leaves);
      PutAllGrows(Q, t, leaves);
      ExtendsTransitive(L, Q, PutAll(Q, t, leaves));
      ExtendsAt(Q, PutAll(Q, t, leaves), ch);
    }
  }

  // ---- whole configurations ----

  lemma NothingCovered(P: Pools, ch: nat)
    ensures Covers(P, P, ch, {})
  {
  }

  /** Stage n's owners cover every ch child the stage emits. */
  predicate Owns(c: Configuration, n: nat, ch: nat) {
    match n
    case 0 => false
    case 1 => ch !in FLAT_TYPES
    case 2 => ch == CONTROL && NoHandNumbers(c.interfaces)
    case 3 => ch == STRINGS || ch == CONTROL
    case 4 => ch == CONTROL && NoHandNumbers(c.blocks)
    case 5 => ch == PTP_PORT || ch == CONTROL
    case _ => OfUnits(KindOf(n), ch)
  }

  lemma StageCover(c: Configuration, L: Pools, n: nat, ch: nat, S: set<nat>)
    requires WfConfiguration(c) && n < 9 && Owns(c, n, ch) && Covers(Stage(c, n), L, ch, S)
    ensures Covers(Stage(c, n + 1), L, ch, S + Gained(Stage(c, n), Stage(c, n + 1), ch))
  {
    hide Covers, Gained, AddUnits, AddOwners, AddGroups, AddFlat, PutAll, WfUnit, WfOwner, WfGroup, NoHandNumbers, OfUnits;
    var P := Stage(c, n);
    match n {
      case 1 =>
        FlatCover(P, L, c, FLAT_TYPES, ch, S);
        StageSkips(c, 1, ch);
        GainedSame(P, Stage(c, 2), ch);
        assert S + {} == S;
      case 2 => OwnersCover(P, L, AVB_INTERFACE, c.interfaces, S);
      case 3 => GroupsCover(P, L, LOCALE, STRINGS, c.locales, ch, S);
      case 4 => OwnersCover(P, L, CONTROL_BLOCK, c.blocks, S);
      case 5 => GroupsCover(P, L, PTP_INSTANCE, PTP_PORT, c.ptpInstances, ch, S);
      case _ => UnitsCover(P, L, KindOf(n), UnitsOf(c, n), ch, S);
    }
  }

  /** Over a span of stages that own ch, the owners they emit partition the children they emit. */
  lemma {:induction false} StagesCover(c: Configuration, i: nat, n: nat, ch: nat)
    requires WfConfiguration(c) && i <= n <= 9 && forall m: nat :: i <= m < n ==> Owns(c, m, ch)
    ensures Covers(Stage(c, n), Stage(c, i), ch, Gained(Stage(c, i), Stage(c, n), ch))
    decreases n
  {
    hide Covers, Gained, Stage, Owns, WfConfiguration;
    var L := Stage(c, i);
    if i == n {
      NothingCovered(L, ch);
      GainedNothing(L, ch, {});
      assert {} + Gained(L, L, ch) == Gained(L, L, ch);
    } else {
      StagesCover(c, i, n - 1, ch);
      StageCover(c, L, n - 1, ch, Gained(L, Stage(c, n - 1), ch));
      StagesGrow(c, i, n - 1);
      StageGrows(c, n - 1);
      GainedJoin(L, Stage(c, n - 1), Stage(c, n), ch);
    }
  }

  lemma GainedSame(P: Pools, Q: Pools, ch: nat)
    requires At(P, ch) == At(Q, ch)
    ensures Gained(P, Q, ch) == {}
  {
  }

  /** All indices of a type. */
  function All(P: Pools, ch: nat): (s: set<nat>) {
    Indices(Range(Size(P, ch), 0))
  }

  /** A span of stages that owns ch, with no ch child outside it, covers all of them. */
  lemma SpanCovers(c: Configuration, i: nat, n: nat, ch: nat)
    requires WfConfiguration(c) && i <= n <= 9 && (forall m: nat :: i <= m < n ==> Owns(c, m, ch))
    requires forall m: nat :: m < 9 && !(i <= m < n) ==> !Touches(m, ch)
    ensures Cover(Stage(c, n), Stage(c, i), ch, All(AddConfiguration(c), ch))
  {
    hide Stage, Owns, Touches, WfConfiguration, AddConfiguration, Cover;
    StagesCover(c, i, n, ch);
    StagesSkip(c, 0, i, ch);
    StartsEmpty(c, ch);
    StagesSkip(c, n, 9, ch);
    StagesAreTheWalk(c);
  }

  /** Every string record lies in the range of exactly one locale, every PTP port in that of
      exactly one PTP instance. */
  lemma MembersPartitioned(c: Configuration)
    requires WfConfiguration(c)
    ensures Cover(Stage(c, 4), Stage(c, 3), STRINGS, All(AddConfiguration(c), STRINGS))
    ensures Cover(Stage(c, 6), Stage(c, 5), PTP_PORT, All(AddConfiguration(c), PTP_PORT))
  {
    hide Stage, Cover, AddConfiguration, All, WfConfiguration;
    SpanCovers(c, 3, 4, STRINGS);
    SpanCovers(c, 5, 6, PTP_PORT);
  }

  /** Every port lies in the range of exactly one unit, whatever the unit's kind. */
  lemma PortsPartitioned(c: Configuration, j: nat)
    requires WfConfiguration(c) && j < 6
    ensures Cover(Stage(c, 9), Stage(c, 6), PortType(j), All(AddConfiguration(c), PortType(j)))
  {
    hide Stage, Cover, AddConfiguration, All, WfConfiguration;
    SpanCovers(c, 6, 9, PortType(j));
  }

  /** Every cluster and every map of a kind lies in the range of exactly one stream port among
      those emitted with the units of that kind. */
  lemma ClustersPartitioned(c: Configuration, n: nat, ch: nat)
    requires WfConfiguration(c) && 6 <= n < 9 && ch in {ClusterType(KindOf(n)), MapType(KindOf(n))}
    ensures Cover(Stage(c, n + 1), Stage(c, n), ch, All(AddConfiguration(c), ch))
  {
    hide Stage, Cover, AddConfiguration, All, WfConfiguration;
    SpanCovers(c, n, n + 1, ch);
  }

  /** With no counts written by hand: every control from the first one that is not the
      configuration's own lies in the range of exactly one interface, control block, unit or port,
      and no range reaches outside. */
  lemma ControlsPartitioned(c: Configuration)
    requires WfConfiguration(c) && NoHandNumbers(c.interfaces) && NoHandNumbers(c.blocks)
    ensures var F := AddConfiguration(c);
            |c.controls| <= Size(F, CONTROL)
            && Cover(F, EMPTY, CONTROL, Indices(Range(Size(F, CONTROL) - |c.controls|, |c.controls|)))
  {
    hide WfConfiguration, NoHandNumbers, AddConfiguration, Cover, AddTopLevel, Indices, Stage;
    StagesAreTheWalk(c);
    StagesCover(c, 1, 9, CONTROL);
    StagesGrow(c, 1, 9);
    ExtendsAt(Stage(c, 1), Stage(c, 9), CONTROL);
    FirstStage(c);
    CoverFromStart(Stage(c, 9), c, Gained(Stage(c, 1), Stage(c, 9), CONTROL));
  }

  lemma FirstStage(c: Configuration)
    ensures Size(Stage(c, 1), CONTROL) == |c.controls|
    ensures forall t :: t != CONTROL ==> Size(Stage(c, 1), t) == 0
  {
    assert Stage(c, 1) == PutAll(Stage(c, 0), CONTROL, c.controls);
  }

  /** The configuration's own controls are leaves and claim nothing. */
  lemma CoverFromStart(F: Pools, c: Configuration, S: set<nat>)
    requires Cover(F, Stage(c, 1), CONTROL, S)
    ensures Cover(F, EMPTY, CONTROL, S)
  {
    hide Stage, Indices, OwnRange;
    FirstStage(c);
    forall t: nat, i: nat, x: nat ensures Claims(F, EMPTY, CONTROL, t, i, x) <==> Claims(F, Stage(c, 1), CONTROL, t, i, x) {
      if t == CONTROL && i < Size(F, t) {
        ControlsOwnNothing(At(F, t)[i].body);
      }
    }
    forall x | x in S ensures exists t, i :: Claims(F, EMPTY, CONTROL, t, i, x) {
      var t, i :| Claims(F, Stage(c, 1), CONTROL, t, i, x);
      assert Claims(F, EMPTY, CONTROL, t, i, x);
    }
  }

  lemma ControlsOwnNothing(b: Body)
    ensures Indices(OwnRange(CONTROL, CONTROL, b)) == {}
  {
  }
}
