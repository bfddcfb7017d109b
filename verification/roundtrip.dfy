/** Decompiling a compiled configuration gives exactly its normal form. */
module RoundTrip {
  import opened Wire
  import opened AemModel
  import opened Pools
  import opened Counts
  import opened Unflatten
  import opened NormalForm
  import opened RoundTripUnits
  import opened Stages

  // ---- index order ----

  /** A set of consecutive indices, sorted, is those indices in order. */
  lemma {:induction false} SortedRange(s: set<nat>, lo: nat, hi: nat)
    requires lo <= hi && forall x: nat :: x in s <==> lo <= x < hi
    ensures |SortedKeys(s)| == hi - lo && forall i :: 0 <= i < hi - lo ==> SortedKeys(s)[i] == lo + i
    decreases hi - lo
  {
    if lo < hi {
      assert lo in s;
      assert Least(s) == lo;
      SortedRange(s - {lo}, lo + 1, hi);
    } else {
      assert forall x :: x !in s;
      assert s == {};
    }
  }

  function PoolBodies(items: seq<Item>): (r: seq<Body>)
    ensures |r| == |items| && forall i :: 0 <= i < |r| ==> r[i] == items[i].body
  {
    seq(|items|, i requires 0 <= i < |items| => items[i].body)
  }

  lemma PoolBodiesSnoc(items: seq<Item>, body: Body, symbol: Symbol)
    ensures PoolBodies(items + [Item(body, symbol)]) == PoolBodies(items) + [body]
  {
  }

  /** Reading a type in index order gives its pool in walk order. */
  lemma KeysInOrder(T: Types, F: Pools, t: nat)
    requires Holds(T, F) && t >= 2
    ensures |Keys(T, t)| == Size(F, t) && forall i :: 0 <= i < Size(F, t) ==> Keys(T, t)[i] == i
    ensures Bodies(T, t) == PoolBodies(At(F, t))
  {
    SortedRange(Bucket(T, t).Keys, 0, Size(F, t));
  }

  // ---- leaves at configuration level ----

  /** Leaving out exactly the indices from n on keeps the first n leaves of a pool. */
  lemma {:induction false} ListedPrefix(T: Types, F: Pools, t: nat, keys: seq<nat>, without: set<nat>, leaves: seq<Leaf>, n: nat)
    requires Holds(T, F) && t >= 2
    requires |keys| <= Size(F, t) && (forall i :: 0 <= i < |keys| ==> keys[i] == i)
    requires forall i: nat :: i < Size(F, t) ==> (i in without <==> n <= i)
    requires n == |leaves| <= Size(F, t) && At(F, t)[..n] == LeafItems(leaves)
    requires forall i <- keys :: i in Bucket(T, t)
    ensures Listed(T, t, keys, without) == EraseLeaves(if |keys| <= n then leaves[..|keys|] else leaves)
  {
    if keys != [] {
      var init, i := keys[..|keys| - 1], |keys| - 1;
      ListedPrefix(T, F, t, init, without, leaves, n);
      assert Bucket(T, t)[i] == At(F, t)[i].body;
      if i < n {
        assert At(F, t)[i] == At(F, t)[..n][i];
        ErasePrefix(leaves, i);
      }
    }
  }

  lemma ErasePrefix(leaves: seq<Leaf>, i: nat)
    requires i < |leaves|
    ensures EraseLeaves(leaves[..i + 1]) == EraseLeaves(leaves[..i]) + [Leaf(leaves[i].octets, None)]
  {
  }

  // ---- units ----

  lemma {:induction false} UnitsRoundTrip(T: Types, F: Pools, P: Pools, k: Kind, us: seq<Unit>)
    requires Holds(T, F) && (forall u <- us :: WfUnit(u)) && Size(P, UnitType(k)) == 0
    requires Extends(AddUnits(P, k, us), F)
    ensures Size(AddUnits(P, k, us), UnitType(k)) == |us|
    ensures BuildUnits(T, k, PoolBodies(At(AddUnits(P, k, us), UnitType(k)))) == EraseUnits(us)
    ensures ExactlyBetween(UnitsClaim(T, PoolBodies(At(AddUnits(P, k, us), UnitType(k)))), P, AddUnits(P, k, us))
  {
    if us != [] {
      var init, u := us[..|us| - 1], us[|us| - 1];
      assert u in us;
      var Q := AddUnits(P, k, init);
      UnitGrows(Q, k, u);
      ExtendsTransitive(Q, AddUnit(Q, k, u), F);
      UnitsRoundTrip(T, F, P, k, init);
      UnitStep(T, F, Q, k, u);
      PoolBodiesSnoc(At(Q, UnitType(k)), UnitBody(Q, u), u.symbol);
      UnitsSnoc(T, k, PoolBodies(At(Q, UnitType(k))), UnitBody(Q, u), us);
      UnitsGrow(P, k, init);
      BetweenJoin(P, Q, AddUnit(Q, k, u), UnitsClaim(T, PoolBodies(At(Q, UnitType(k)))), UnitClaims(T, UnitBody(Q, u)));
    }
  }

  lemma UnitsSnoc(T: Types, k: Kind, bs: seq<Body>, b: Body, us: seq<Unit>)
    requires us != [] && BuildUnits(T, k, bs) == EraseUnits(us[..|us| - 1]) && BuildUnit(T, k, b) == EraseUnit(us[|us| - 1])
    ensures BuildUnits(T, k, bs + [b]) == EraseUnits(us)
    ensures UnitsClaim(T, bs + [b]) == UnitsClaim(T, bs) + UnitClaims(T, b)
  {
    assert (bs + [b])[..|bs|] == bs;
    assert BuildUnits(T, k, bs + [b]) == BuildUnits(T, k, bs) + [BuildUnit(T, k, b)];
    assert EraseUnits(us) == EraseUnits(us[..|us| - 1]) + [EraseUnit(us[|us| - 1])];
  }

  lemma UnitStep(T: Types, F: Pools, P: Pools, k: Kind, u: Unit)
    requires Holds(T, F) && WfUnit(u) && Extends(AddUnit(P, k, u), F)
    ensures At(AddUnit(P, k, u), UnitType(k)) == At(P, UnitType(k)) + [Item(UnitBody(P, u), u.symbol)]
    ensures BuildUnit(T, k, UnitBody(P, u)) == EraseUnit(u)
    ensures ExactlyBetween(UnitClaims(T, UnitBody(P, u)), P, AddUnit(P, k, u))
  {
    var Q := AddUnitChildren(P, k, u);
    PutGrows(Q, UnitType(k), UnitBody(P, u), u.symbol);
    ExtendsTransitive(Q, AddUnit(P, k, u), F);
    UnitRoundTrip(T, F, P, k, u);
    UnitTypeUntouched(P, k, u);
    assert At(AddUnit(P, k, u), CONTROL) == At(Q, CONTROL);
  }

  lemma UnitTypeUntouched(P: Pools, k: Kind, u: Unit)
    requires WfUnit(u)
    ensures At(AddUnitChildren(P, k, u), UnitType(k)) == At(P, UnitType(k))
  {
    var P1 := PutAll(P, CONTROL, u.controls);
    PortListsGrow(P1, k, u.ports);
    PortListsCounted(P1, k, u.ports, UnitType(k));
    PortListsCountOther(k, u.ports, UnitType(k));
    Untouched(P1, AddPortLists(P1, k, u.ports), UnitType(k));
  }

  // ---- groups: locales and PTP instances ----

  lemma {:induction false} GroupsRoundTrip(T: Types, F: Pools, P: Pools, t: nat, m: nat, gs: seq<Group>)
    requires Holds(T, F) && t >= 2 && m >= 2 && t != m && Size(P, t) == 0
    requires Extends(AddGroups(P, t, m, gs), F)
    ensures Size(AddGroups(P, t, m, gs), t) == |gs|
    ensures BuildGroups(T, m, PoolBodies(At(AddGroups(P, t, m, gs), t))) == EraseGroups(gs)
  {
    if gs != [] {
      var init, g := gs[..|gs| - 1], gs[|gs| - 1];
      var Q := AddGroups(P, t, m, init);
      GroupGrows(Q, t, m, g);
      ExtendsTransitive(Q, AddGroup(Q, t, m, g), F);
      GroupsRoundTrip(T, F, P, t, m, init);
      GroupMembers(T, F, Q, t, m, g);
      GroupStep(Q, t, m, g);
      PoolBodiesSnoc(At(Q, t), GroupBody(Q, m, g), g.symbol);
      GroupsSnoc(T, m, PoolBodies(At(Q, t)), GroupBody(Q, m, g), gs);
    }
  }

  lemma GroupStep(P: Pools, t: nat, m: nat, g: Group)
    requires t != m
    ensures At(AddGroup(P, t, m, g), t) == At(P, t) + [Item(GroupBody(P, m, g), g.symbol)]
  {
  }

  lemma GroupsSnoc(T: Types, m: nat, bs: seq<Body>, b: Body, gs: seq<Group>)
    requires gs != [] && BuildGroups(T, m, bs) == EraseGroups(gs[..|gs| - 1])
    requires b.head == gs[|gs| - 1].head && TakeLeaves(T, m, RangeOf(b, 0)) == EraseLeaves(gs[|gs| - 1].members)
    ensures BuildGroups(T, m, bs + [b]) == EraseGroups(gs)
  {
    assert BuildGroups(T, m, bs + [b]) == BuildGroups(T, m, bs) + [Group(b.head, TakeLeaves(T, m, RangeOf(b, 0)), None)];
    assert EraseGroups(gs) == EraseGroups(gs[..|gs| - 1])
                              + [Group(gs[|gs| - 1].head, EraseLeaves(gs[|gs| - 1].members), None)];
  }

  lemma GroupMembers(T: Types, F: Pools, P: Pools, t: nat, m: nat, g: Group)
    requires Holds(T, F) && m >= 2 && t != m && Extends(AddGroup(P, t, m, g), F)
    ensures TakeLeaves(T, m, RangeOf(GroupBody(P, m, g), 0)) == EraseLeaves(g.members)
  {
    var Q := AddGroup(P, t, m, g);
    assert At(Q, m) == At(P, m) + LeafItems(g.members) && At(Q, m) <= At(F, m);
    SliceOfPrefix(At(P, m), LeafItems(g.members), At(F, m));
    TakeIsSlice(T, F, m, RangeOf(GroupBody(P, m, g), 0), g.members);
  }

  // ---- interfaces and control blocks ----

  lemma {:induction false} OwnersControls(P: Pools, t: nat, os: seq<Owner>)
    requires t != CONTROL
    ensures At(AddOwners(P, t, os), CONTROL) == At(P, CONTROL) + LeafItems(Inlined(os))
  {
    if os != [] {
      var init, o := os[..|os| - 1], os[|os| - 1];
      OwnersControls(P, t, init);
      LeafItemsJoin(Inlined(init), o.controls);
      OwnerStep(AddOwners(P, t, init), t, o);
    }
  }

  lemma {:induction false} OwnersRoundTrip(P: Pools, t: nat, os: seq<Owner>)
    requires t != CONTROL && Size(P, t) == 0
    ensures Size(AddOwners(P, t, os), t) == |os|
    ensures ParsedOwners(PoolBodies(At(AddOwners(P, t, os), t))) == NormalOwners(os, Size(P, CONTROL))
  {
    hide AddOwner, ParsedOwners, NormalOwner, OwnerBody, PoolBodies, Inlined;
    if os == [] {
      NoOwners(P, t);
    } else {
      var init, o := os[..|os| - 1], os[|os| - 1];
      var Q := AddOwners(P, t, init);
      OwnersRoundTrip(P, t, init);
      OwnersControls(P, t, init);
      OwnerStep(Q, t, o);
      PoolBodiesSnoc(At(Q, t), OwnerBody(Q, o), o.symbol);
      OwnersSnoc(PoolBodies(At(Q, t)), Q, o);
    }
  }

  lemma NoOwners(P: Pools, t: nat)
    requires Size(P, t) == 0
    ensures ParsedOwners(PoolBodies(At(P, t))) == []
  {
  }

  lemma OwnersSnoc(bs: seq<Body>, P: Pools, o: Owner)
    ensures ParsedOwners(bs + [OwnerBody(P, o)]) == ParsedOwners(bs) + [NormalOwner(o, Size(P, CONTROL))]
  {
    var b := OwnerBody(P, o);
    assert RangeOf(b, 0) == OwnerRange(o, Size(P, CONTROL));
    assert forall i :: 0 <= i < |bs| ==> (bs + [b])[i] == bs[i];
  }

  lemma LeafItemsJoin(a: seq<Leaf>, b: seq<Leaf>)
    ensures LeafItems(a + b) == LeafItems(a) + LeafItems(b)
  {
  }

  lemma OwnerStep(P: Pools, t: nat, o: Owner)
    requires t != CONTROL
    ensures At(AddOwner(P, t, o), t) == At(P, t) + [Item(OwnerBody(P, o), o.symbol)]
    ensures At(AddOwner(P, t, o), CONTROL) == At(P, CONTROL) + LeafItems(o.controls)
  {
  }

  // ---- configurations ----

  lemma FlatTypesDistinct()
    ensures forall i, j :: 0 <= i < j < |FLAT_TYPES| ==> FLAT_TYPES[i] != FLAT_TYPES[j]
    ensures forall t <- FLAT_TYPES :: t >= 2 && t != CONTROL
  {
  }

  lemma {:induction false} FlatPool(P: Pools, c: Configuration, ts: seq<nat>, t: nat)
    requires (forall i, j :: 0 <= i < j < |ts| ==> ts[i] != ts[j]) && t in c.flat
    ensures At(AddFlat(P, c, ts), t) == if t in ts then At(P, t) + LeafItems(c.flat[t]) else At(P, t)
  {
    hide PutAll;
    if ts != [] {
      var init, last := ts[..|ts| - 1], ts[|ts| - 1];
      FlatPool(P, c, init, t);
      PutAllAt(AddFlat(P, c, init), last, if last in c.flat then c.flat[last] else [], t);
      LastOnly(ts, t);
    }
  }

  lemma LastOnly(ts: seq<nat>, t: nat)
    requires ts != [] && forall i, j :: 0 <= i < j < |ts| ==> ts[i] != ts[j]
    ensures t in ts <==> t == ts[|ts| - 1] || t in ts[..|ts| - 1]
    ensures ts[|ts| - 1] !in ts[..|ts| - 1]
  {
  }

  lemma FlatRoundTrip(T: Types, c: Configuration, t: nat)
    requires WfConfiguration(c) && Holds(T, AddConfiguration(c)) && t in FLAT_TYPES
    ensures Listed(T, t, Keys(T, t), {}) == EraseLeaves(c.flat[t])
  {
    hide WfUnit, WfOwner, WfGroup, Extends, AddUnits, AddOwners, AddGroups, AddFlat, AddTopLevel, AddConfiguration, Listed, SortedKeys, EraseLeaves;
    var F := AddConfiguration(c);
    FlatTypesDistinct();
    OneStage(c, 1, t);
    FlatPool(Stage(c, 1), c, FLAT_TYPES, t);
    assert At(F, t) == LeafItems(c.flat[t]);
    KeysInOrder(T, F, t);
    var n := Size(F, t);
    assert At(F, t)[..n] == At(F, t) && c.flat[t][..n] == c.flat[t];
    ListedPrefix(T, F, t, Keys(T, t), {}, c.flat[t], n);
  }

  /** The control pool after the interfaces, and after the control blocks. */
  lemma TopLevelControls(c: Configuration)
    requires WfConfiguration(c)
    ensures At(Stage(c, 2), CONTROL) == LeafItems(c.controls)
    ensures At(Stage(c, 4), CONTROL) == LeafItems(c.controls + Inlined(c.interfaces))
    ensures At(Stage(c, 6), CONTROL) == LeafItems(c.controls + Inlined(c.interfaces) + Inlined(c.blocks))
  {
    hide WfConfiguration, Inlined, AddUnits, AddOwners, AddGroups, AddFlat, AddTopLevel, AddConfiguration;
    StartsEmpty(c, CONTROL);
    assert At(Stage(c, 1), CONTROL) == LeafItems(c.controls) by { assert Stage(c, 1) == PutAll(Stage(c, 0), CONTROL, c.controls); }
    StagesSkip(c, 1, 2, CONTROL);
    OwnersControls(Stage(c, 2), AVB_INTERFACE, c.interfaces);
    StagesSkip(c, 3, 4, CONTROL);
    OwnersControls(Stage(c, 4), CONTROL_BLOCK, c.blocks);
    StagesSkip(c, 5, 6, CONTROL);
    LeafItemsJoin(c.controls, Inlined(c.interfaces));
    LeafItemsJoin(c.controls + Inlined(c.interfaces), Inlined(c.blocks));
  }

  lemma OwnersOfConfiguration(T: Types, c: Configuration)
    requires WfConfiguration(c) && Holds(T, AddConfiguration(c))
    ensures ParsedOwners(Bodies(T, AVB_INTERFACE)) == NormalConfiguration(c).interfaces
    ensures ParsedOwners(Bodies(T, CONTROL_BLOCK)) == NormalConfiguration(c).blocks
  {
    hide WfConfiguration, Holds, Bodies, Keys, ParsedOwners, NormalOwners, PoolBodies, Inlined, AddUnits, AddOwners, AddGroups, AddFlat, AddTopLevel, AddConfiguration;
    TopLevelControls(c);
    OneStage(c, 2, AVB_INTERFACE);
    OneStage(c, 4, CONTROL_BLOCK);
    OwnersRoundTrip(Stage(c, 2), AVB_INTERFACE, c.interfaces);
    OwnersRoundTrip(Stage(c, 4), CONTROL_BLOCK, c.blocks);
    KeysInOrder(T, AddConfiguration(c), AVB_INTERFACE);
    KeysInOrder(T, AddConfiguration(c), CONTROL_BLOCK);
  }

  lemma GroupsOfConfiguration(T: Types, c: Configuration)
    requires WfConfiguration(c) && Holds(T, AddConfiguration(c))
    ensures BuildGroups(T, STRINGS, Bodies(T, LOCALE)) == EraseGroups(c.locales)
    ensures BuildGroups(T, PTP_PORT, Bodies(T, PTP_INSTANCE)) == EraseGroups(c.ptpInstances)
  {
    hide AddUnits, AddOwners, AddGroups, AddFlat, AddTopLevel, AddConfiguration;
    var F := AddConfiguration(c);
    StagesAreTheWalk(c);
    OneStage(c, 3, LOCALE);
    OneStage(c, 5, PTP_INSTANCE);
    StagesGrow(c, 4, 9);
    StagesGrow(c, 6, 9);
    GroupsRoundTrip(T, F, Stage(c, 3), LOCALE, STRINGS, c.locales);
    GroupsRoundTrip(T, F, Stage(c, 5), PTP_INSTANCE, PTP_PORT, c.ptpInstances);
    KeysInOrder(T, F, LOCALE);
    KeysInOrder(T, F, PTP_INSTANCE);
  }

  lemma UnitsOfStage(T: Types, c: Configuration, n: nat)
    requires WfConfiguration(c) && Holds(T, AddConfiguration(c)) && 6 <= n < 9
    ensures BuildUnits(T, KindOf(n), Bodies(T, UnitType(KindOf(n)))) == EraseUnits(UnitsOf(c, n))
    ensures ExactlyBetween(UnitsClaim(T, Bodies(T, UnitType(KindOf(n)))), Stage(c, n), Stage(c, n + 1))
  {
    hide AddUnits, AddOwners, AddGroups, AddFlat, AddTopLevel, AddConfiguration;
    var F, k := AddConfiguration(c), KindOf(n);
    StagesAreTheWalk(c);
    OneStage(c, n, UnitType(k));
    StagesGrow(c, n + 1, 9);
    UnitsRoundTrip(T, F, Stage(c, n), k, UnitsOf(c, n));
    KeysInOrder(T, F, UnitType(k));
  }

  /** Exactly the controls of units and ports are claimed: the rest are configuration-level. */
  lemma ClaimedAreTheUnits(T: Types, c: Configuration)
    requires WfConfiguration(c) && Holds(T, AddConfiguration(c))
    ensures ExactlyBetween(Claimed(T), AddTopLevel(c), AddConfiguration(c))
  {
    hide WfConfiguration, WfUnit, WfOwner, WfGroup, Holds, Extends, ExactlyBetween, UnitsClaim, Bodies, BuildUnits, EraseUnits, Stage, UnitsOf, AddUnits, AddOwners, AddGroups, AddFlat, AddTopLevel, AddConfiguration;
    StagesAreTheWalk(c);
    UnitsOfStage(T, c, 6);
    UnitsOfStage(T, c, 7);
    UnitsOfStage(T, c, 8);
    StagesGrow(c, 6, 7);
    StagesGrow(c, 7, 8);
    StagesGrow(c, 6, 8);
    StagesGrow(c, 8, 9);
    BetweenJoin(Stage(c, 6), Stage(c, 7), Stage(c, 8), UnitsClaim(T, Bodies(T, AUDIO_UNIT)), UnitsClaim(T, Bodies(T, VIDEO_UNIT)));
    BetweenJoin(Stage(c, 6), Stage(c, 8), Stage(c, 9),
                UnitsClaim(T, Bodies(T, AUDIO_UNIT)) + UnitsClaim(T, Bodies(T, VIDEO_UNIT)),
                UnitsClaim(T, Bodies(T, SENSOR_UNIT)));
  }

  lemma ControlsOfConfiguration(T: Types, c: Configuration)
    requires WfConfiguration(c) && Holds(T, AddConfiguration(c))
    ensures Listed(T, CONTROL, Keys(T, CONTROL), Claimed(T)) == NormalConfiguration(c).controls
  {
    hide WfConfiguration, WfUnit, WfOwner, WfGroup, Holds, Stage, Claimed, Listed, SortedKeys, Bodies, ParsedOwners, NormalOwners, Inlined, AddUnits, AddOwners, AddGroups, AddFlat, AddTopLevel, AddConfiguration;
    var F, leaves := AddConfiguration(c), c.controls + Inlined(c.interfaces) + Inlined(c.blocks);
    ClaimedAreTheUnits(T, c);
    TopLevelControls(c);
    StagesAreTheWalk(c);
    StagesGrow(c, 6, 9);
    assert At(AddTopLevel(c), CONTROL) <= At(F, CONTROL);
    assert At(F, CONTROL)[..|leaves|] == LeafItems(leaves);
    KeysInOrder(T, F, CONTROL);
    ListedPrefix(T, F, CONTROL, Keys(T, CONTROL), Claimed(T), leaves, |leaves|);
    assert |leaves| == Size(F, CONTROL) ==> leaves[..|leaves|] == leaves;
  }

  /** The compiled configuration, decompiled, is its normal form. */
  lemma ConfigurationRoundTrip(T: Types, c: Configuration)
    requires WfConfiguration(c) && Holds(T, AddConfiguration(c))
    ensures Rebuild(T, c.head) == NormalConfiguration(c)
  {
    hide WfUnit, WfOwner, WfGroup, Holds, Stage, AddUnits, AddOwners, AddGroups, AddFlat, AddTopLevel, AddConfiguration, Listed, Keys, SortedKeys, Claimed, BuildUnits, ParsedOwners, BuildGroups, EraseUnits, EraseGroups, EraseLeaves, NormalOwners, Inlined, Bodies;
    ControlsOfConfiguration(T, c);
    OwnersOfConfiguration(T, c);
    GroupsOfConfiguration(T, c);
    UnitsOfStage(T, c, 6);
    UnitsOfStage(T, c, 7);
    UnitsOfStage(T, c, 8);
    forall t | t in FLAT_TYPES ensures Listed(T, t, Keys(T, t), {}) == EraseLeaves(c.flat[t]) {
      FlatRoundTrip(T, c, t);
    }
    assert Rebuild(T, c.head).flat == NormalConfiguration(c).flat;
  }
}
