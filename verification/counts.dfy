/** How many descriptors of each type a tree holds, counted on the tree alone: the numbers of the
    CONFIGURATION descriptor's count table, written before the walk. */
module Counts {
  import opened Wire
  import opened AemModel
  import opened Pools

  function If(b: bool, n: nat): nat { if b then n else 0 }

  function PortCount(k: Kind, j: nat, p: Port, t: nat): (n: nat) {
    If(t == CONTROL, |p.controls|) + If(t == ClusterType(k), |p.clusters|) + If(t == MapType(k), |p.maps|)
    + If(t == PortType(j), 1)
  }

  function PortsCount(k: Kind, j: nat, ps: seq<Port>, t: nat): (n: nat) {
    if ps == [] then 0 else PortsCount(k, j, ps[..|ps| - 1], t) + PortCount(k, j, ps[|ps| - 1], t)
  }

  function PortListsCount(k: Kind, lists: seq<seq<Port>>, t: nat): (n: nat) {
    if lists == [] then 0 else
      var j := |lists| - 1;
      PortListsCount(k, lists[..j], t) + PortsCount(k, j, lists[j], t)
  }

  function UnitCount(k: Kind, u: Unit, t: nat): (n: nat) {
    If(t == CONTROL, |u.controls|) + PortListsCount(k, u.ports, t) + If(t == UnitType(k), 1)
  }

  function UnitsCount(k: Kind, us: seq<Unit>, t: nat): (n: nat) {
    if us == [] then 0 else UnitsCount(k, us[..|us| - 1], t) + UnitCount(k, us[|us| - 1], t)
  }

  function OwnersCount(o: nat, os: seq<Owner>, t: nat): (n: nat) {
    if os == [] then 0 else
      OwnersCount(o, os[..|os| - 1], t) + If(t == CONTROL, |os[|os| - 1].controls|) + If(t == o, 1)
  }

  function GroupsCount(g: nat, m: nat, gs: seq<Group>, t: nat): (n: nat) {
    if gs == [] then 0 else
      GroupsCount(g, m, gs[..|gs| - 1], t) + If(t == g, 1) + If(t == m, |gs[|gs| - 1].members|)
  }

  function FlatCount(c: Configuration, ts: seq<nat>, t: nat): (n: nat) {
    if ts == [] then 0 else
      var f := ts[|ts| - 1];
      FlatCount(c, ts[..|ts| - 1], t) + If(t == f && f in c.flat, if f in c.flat then |c.flat[f]| else 0)
  }

  function TopLevelCount(c: Configuration, t: nat): (n: nat) {
    If(t == CONTROL, |c.controls|) + FlatCount(c, FLAT_TYPES, t) + OwnersCount(AVB_INTERFACE, c.interfaces, t)
    + GroupsCount(LOCALE, STRINGS, c.locales, t) + OwnersCount(CONTROL_BLOCK, c.blocks, t)
    + GroupsCount(PTP_INSTANCE, PTP_PORT, c.ptpInstances, t)
  }

  /** The number the count table gives for type t. */
  function Total(c: Configuration, t: nat): (n: nat) {
    TopLevelCount(c, t) + UnitsCount(Audio, c.audioUnits, t) + UnitsCount(Video, c.videoUnits, t)
    + UnitsCount(Sensor, c.sensorUnits, t)
  }

  // ---- each piece of the walk emits what was counted ----

  lemma PortCounted(P: Pools, k: Kind, j: nat, p: Port, t: nat)
    requires j < 6
    ensures Size(AddPort(P, k, j, p), t) == Size(P, t) + PortCount(k, j, p, t)
  {
  }

  lemma {:induction false} PortsCounted(P: Pools, k: Kind, j: nat, ps: seq<Port>, t: nat)
    requires j < 6
    ensures Size(AddPorts(P, k, j, ps), t) == Size(P, t) + PortsCount(k, j, ps, t)
  {
    if ps != [] {
      PortsCounted(P, k, j, ps[..|ps| - 1], t);
      PortCounted(AddPorts(P, k, j, ps[..|ps| - 1]), k, j, ps[|ps| - 1], t);
    }
  }

  lemma {:induction false} PortListsCounted(P: Pools, k: Kind, lists: seq<seq<Port>>, t: nat)
    requires |lists| <= 6
    ensures Size(AddPortLists(P, k, lists), t) == Size(P, t) + PortListsCount(k, lists, t)
  {
    if lists != [] {
      var j := |lists| - 1;
      PortListsCounted(P, k, lists[..j], t);
      PortsCounted(AddPortLists(P, k, lists[..j]), k, j, lists[j], t);
    }
  }

  lemma UnitCounted(P: Pools, k: Kind, u: Unit, t: nat)
    requires |u.ports| <= 6
    ensures Size(AddUnit(P, k, u), t) == Size(P, t) + UnitCount(k, u, t)
  {
    PortListsCounted(PutAll(P, CONTROL, u.controls), k, u.ports, t);
  }

  lemma {:induction false} UnitsCounted(P: Pools, k: Kind, us: seq<Unit>, t: nat)
    requires forall u <- us :: WfUnit(u)
    ensures Size(AddUnits(P, k, us), t) == Size(P, t) + UnitsCount(k, us, t)
  {
    if us != [] {
      assert us[|us| - 1] in us;
      UnitsCounted(P, k, us[..|us| - 1], t);
      UnitCounted(AddUnits(P, k, us[..|us| - 1]), k, us[|us| - 1], t);
    }
  }

  lemma {:induction false} OwnersCounted(P: Pools, o: nat, os: seq<Owner>, t: nat)
    requires o != CONTROL
    ensures Size(AddOwners(P, o, os), t) == Size(P, t) + OwnersCount(o, os, t)
  {
    if os != [] {
      OwnersCounted(P, o, os[..|os| - 1], t);
    }
  }

  lemma {:induction false} GroupsCounted(P: Pools, g: nat, m: nat, gs: seq<Group>, t: nat)
    requires g != m
    ensures Size(AddGroups(P, g, m, gs), t) == Size(P, t) + GroupsCount(g, m, gs, t)
  {
    if gs != [] {
      GroupsCounted(P, g, m, gs[..|gs| - 1], t);
    }
  }

  lemma {:induction false} FlatCounted(P: Pools, c: Configuration, ts: seq<nat>, t: nat)
    ensures Size(AddFlat(P, c, ts), t) == Size(P, t) + FlatCount(c, ts, t)
  {
    if ts != [] {
      FlatCounted(P, c, ts[..|ts| - 1], t);
    }
  }

  lemma TopLevelCounted(c: Configuration, t: nat)
    ensures Size(AddTopLevel(c), t) == TopLevelCount(c, t)
  {
    var P1 := PutAll(EMPTY, CONTROL, c.controls);
    var P2 := AddFlat(P1, c, FLAT_TYPES);
    var P3 := AddOwners(P2, AVB_INTERFACE, c.interfaces);
    var P4 := AddGroups(P3, LOCALE, STRINGS, c.locales);
    var P5 := AddOwners(P4, CONTROL_BLOCK, c.blocks);
    assert Size(P1, t) == If(t == CONTROL, |c.controls|) by { EmptySizes(t); }
    FlatCounted(P1, c, FLAT_TYPES, t);
    OwnersCounted(P2, AVB_INTERFACE, c.interfaces, t);
    GroupsCounted(P3, LOCALE, STRINGS, c.locales, t);
    OwnersCounted(P4, CONTROL_BLOCK, c.blocks, t);
    GroupsCounted(P5, PTP_INSTANCE, PTP_PORT, c.ptpInstances, t);
  }

  lemma EmptySizes(t: nat)
    ensures At(EMPTY, t) == []
  {
  }

  /** The table written before the walk is the number of descriptors the walk emits, for every
      type; so each type's indices run exactly from 0 to its count. */
  lemma CountTableIsExact(c: Configuration, t: nat)
    requires WfConfiguration(c)
    ensures Size(AddConfiguration(c), t) == Total(c, t)
  {
    var A := AddTopLevel(c);
    var B := AddUnits(A, Audio, c.audioUnits);
    TopLevelCounted(c, t);
    UnitsCounted(A, Audio, c.audioUnits, t);
    UnitsCounted(B, Video, c.videoUnits, t);
    UnitsCounted(AddUnits(B, Video, c.videoUnits), Sensor, c.sensorUnits, t);
  }

  /** Types no configuration holds below itself. */
  lemma NothingOutsideTable(c: Configuration, t: nat)
    requires WfConfiguration(c) && t !in COUNTED_TYPES
    ensures Total(c, t) == 0
  {
    FlatCountOther(c, FLAT_TYPES, t);
    OwnersCountOther(AVB_INTERFACE, c.interfaces, t);
    OwnersCountOther(CONTROL_BLOCK, c.blocks, t);
    GroupsCountOther(LOCALE, STRINGS, c.locales, t);
    GroupsCountOther(PTP_INSTANCE, PTP_PORT, c.ptpInstances, t);
    UnitsCountOther(Audio, c.audioUnits, t);
    UnitsCountOther(Video, c.videoUnits, t);
    UnitsCountOther(Sensor, c.sensorUnits, t);
  }

  lemma {:induction false} FlatCountOther(c: Configuration, ts: seq<nat>, t: nat)
    requires t !in ts
    ensures FlatCount(c, ts, t) == 0
  {
    if ts != [] { FlatCountOther(c, ts[..|ts| - 1], t); }
  }

  lemma {:induction false} OwnersCountOther(o: nat, os: seq<Owner>, t: nat)
    requires t != o && t != CONTROL
    ensures OwnersCount(o, os, t) == 0
  {
    if os != [] { OwnersCountOther(o, os[..|os| - 1], t); }
  }

  lemma {:induction false} GroupsCountOther(g: nat, m: nat, gs: seq<Group>, t: nat)
    requires t != g && t != m
    ensures GroupsCount(g, m, gs, t) == 0
  {
    if gs != [] { GroupsCountOther(g, m, gs[..|gs| - 1], t); }
  }

  lemma {:induction false} PortsCountOther(k: Kind, j: nat, ps: seq<Port>, t: nat)
    requires t !in {PortType(j), CONTROL, ClusterType(k), MapType(k)}
    ensures PortsCount(k, j, ps, t) == 0
  {
    if ps != [] { PortsCountOther(k, j, ps[..|ps| - 1], t); }
  }

  lemma {:induction false} PortListsCountOther(k: Kind, lists: seq<seq<Port>>, t: nat)
    requires t !in {CONTROL, ClusterType(k), MapType(k)} && !(STREAM_PORT_INPUT <= t < PortType(|lists|))
    ensures PortListsCount(k, lists, t) == 0
  {
    if lists != [] {
      var j := |lists| - 1;
      PortListsCountOther(k, lists[..j], t);
      PortsCountOther(k, j, lists[j], t);
    }
  }

  lemma {:induction false} UnitsCountOther(k: Kind, us: seq<Unit>, t: nat)
    requires forall u <- us :: WfUnit(u)
    requires t !in {UnitType(k), CONTROL, ClusterType(k), MapType(k)} && !(STREAM_PORT_INPUT <= t <= INTERNAL_PORT_OUTPUT)
    ensures UnitsCount(k, us, t) == 0
  {
    if us != [] {
      assert us[|us| - 1] in us;
      UnitsCountOther(k, us[..|us| - 1], t);
      PortListsCountOther(k, us[|us| - 1].ports, t);
    }
  }

  /** A pool that did not change length between two stages did not change. */
  lemma Untouched(P: Pools, Q: Pools, t: nat)
    requires Extends(P, Q) && Size(P, t) == Size(Q, t)
    ensures At(P, t) == At(Q, t)
  {
    assert At(P, t) <= At(Q, t);
  }

  /** A port type is untouched until its own list is walked. */
  lemma LaterPortTypeUntouched(P: Pools, k: Kind, lists: seq<seq<Port>>)
    requires |lists| < 6
    ensures At(AddPortLists(P, k, lists), PortType(|lists|)) == At(P, PortType(|lists|))
  {
    PortListsGrow(P, k, lists);
    PortListsCounted(P, k, lists, PortType(|lists|));
    PortListsCountOther(k, lists, PortType(|lists|));
    Untouched(P, AddPortLists(P, k, lists), PortType(|lists|));
  }
}
