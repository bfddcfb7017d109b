/** What the compiler's walk over a configuration allocates, descriptor type by descriptor type.

    A pool state maps each descriptor type to what has been emitted for it so far, in order. The
    next descriptor of a type gets the pool's length as its index. Each Add function is the effect
    of one piece of the walk. Pools only ever grow at the end, which is what makes a base index
    written early still right when the walk is over. */
module Pools {
  import opened Wire
  import opened AemModel

  /** A number_of_x / base_x pair. */
  datatype Range = Range(count: nat, base: nat)

  /** A descriptor after its type and index words: its own octets around its ranges. */
  datatype Body = Body(head: bytes, ranges: seq<Range>, tail: bytes)

  datatype Item = Item(body: Body, symbol: Symbol)

  type Pools = map<nat, seq<Item>>

  function At(P: Pools, t: nat): (s: seq<Item>) {
    if t in P then P[t] else []
  }

  function Size(P: Pools, t: nat): nat { |At(P, t)| }

  function Put(P: Pools, t: nat, body: Body, symbol: Symbol): (Q: Pools) {
    P[t := At(P, t) + [Item(body, symbol)]]
  }

  function LeafItems(leaves: seq<Leaf>): (s: seq<Item>)
    ensures |s| == |leaves|
    ensures forall i :: 0 <= i < |s| ==> s[i] == Item(Body([], [], leaves[i].octets), leaves[i].symbol)
  {
    seq(|leaves|, i requires 0 <= i < |leaves| => Item(Body([], [], leaves[i].octets), leaves[i].symbol))
  }

  function PutAll(P: Pools, t: nat, leaves: seq<Leaf>): (Q: Pools) {
    if leaves == [] then P else P[t := At(P, t) + LeafItems(leaves)]
  }

  /** An empty range is written with base 0, whatever index the walk has reached. */
  function CountBase(count: nat, base: nat): (r: Range) {
    Range(count, if count == 0 then 0 else base)
  }

  // ---- one node ----

  function PortBody(P: Pools, k: Kind, j: nat, p: Port): (b: Body) {
    var controls := CountBase(|p.controls|, Size(P, CONTROL));
    Body(p.head,
         if j < 2 then [controls, CountBase(|p.clusters|, Size(P, ClusterType(k))), CountBase(|p.maps|, Size(P, MapType(k)))]
         else [controls],
         p.tail)
  }

  function AddPortChildren(P: Pools, k: Kind, p: Port): (Q: Pools) {
    PutAll(PutAll(PutAll(P, CONTROL, p.controls), ClusterType(k), p.clusters), MapType(k), p.maps)
  }

  function AddPort(P: Pools, k: Kind, j: nat, p: Port): (Q: Pools) {
    Put(AddPortChildren(P, k, p), PortType(j), PortBody(P, k, j, p), p.symbol)
  }

  /** Inline controls override the author's count and base, which are kept as 16-bit words. */
  function OwnerRange(o: Owner, base: nat): (r: Range) {
    if o.controls != [] then CountBase(|o.controls|, base)
    else Range(o.number % 0x1_0000, if o.number == 0 then 0 else o.base % 0x1_0000)
  }

  function OwnerBody(P: Pools, o: Owner): (b: Body) {
    Body(o.head, [OwnerRange(o, Size(P, CONTROL))], o.tail)
  }

  function AddOwner(P: Pools, t: nat, o: Owner): (Q: Pools) {
    Put(PutAll(P, CONTROL, o.controls), t, OwnerBody(P, o), o.symbol)
  }

  /** LOCALE and PTP_INSTANCE write their base even when the range is empty. */
  function GroupBody(P: Pools, m: nat, g: Group): (b: Body) {
    Body(g.head, [Range(|g.members|, Size(P, m))], [])
  }

  function AddGroup(P: Pools, t: nat, m: nat, g: Group): (Q: Pools) {
    PutAll(Put(P, t, GroupBody(P, m, g), g.symbol), m, g.members)
  }

  // ---- lists, left to right ----

  function AddPorts(P: Pools, k: Kind, j: nat, ps: seq<Port>): (Q: Pools) {
    if ps == [] then P else AddPort(AddPorts(P, k, j, ps[..|ps| - 1]), k, j, ps[|ps| - 1])
  }

  function AddPortLists(P: Pools, k: Kind, lists: seq<seq<Port>>): (Q: Pools) {
    if lists == [] then P else
      var j := |lists| - 1;
      AddPorts(AddPortLists(P, k, lists[..j]), k, j, lists[j])
  }

  function AddOwners(P: Pools, t: nat, os: seq<Owner>): (Q: Pools) {
    if os == [] then P else AddOwner(AddOwners(P, t, os[..|os| - 1]), t, os[|os| - 1])
  }

  function AddGroups(P: Pools, t: nat, m: nat, gs: seq<Group>): (Q: Pools) {
    if gs == [] then P else AddGroup(AddGroups(P, t, m, gs[..|gs| - 1]), t, m, gs[|gs| - 1])
  }

  function AddFlat(P: Pools, c: Configuration, ts: seq<nat>): (Q: Pools) {
    if ts == [] then P else
      var t := ts[|ts| - 1];
      PutAll(AddFlat(P, c, ts[..|ts| - 1]), t, if t in c.flat then c.flat[t] else [])
  }

  function UnitBody(P: Pools, u: Unit): (b: Body) {
    Body(u.head,
         seq(|u.ports|, j requires 0 <= j < |u.ports| => CountBase(|u.ports[j]|, Size(P, PortType(j))))
         + [CountBase(|u.controls|, Size(P, CONTROL))],
         u.tail)
  }

  /** The unit's own controls come first, then its ports list by list, then the unit itself. */
  function AddUnitChildren(P: Pools, k: Kind, u: Unit): (Q: Pools) {
    AddPortLists(PutAll(P, CONTROL, u.controls), k, u.ports)
  }

  function AddUnit(P: Pools, k: Kind, u: Unit): (Q: Pools) {
    Put(AddUnitChildren(P, k, u), UnitType(k), UnitBody(P, u), u.symbol)
  }

  function AddUnits(P: Pools, k: Kind, us: seq<Unit>): (Q: Pools) {
    if us == [] then P else AddUnit(AddUnits(P, k, us[..|us| - 1]), k, us[|us| - 1])
  }

  const EMPTY: Pools := map[]

  /** Everything before the units. */
  function AddTopLevel(c: Configuration): (Q: Pools) {
    var P1 := PutAll(EMPTY, CONTROL, c.controls);
    var P2 := AddFlat(P1, c, FLAT_TYPES);
    var P3 := AddOwners(P2, AVB_INTERFACE, c.interfaces);
    var P4 := AddGroups(P3, LOCALE, STRINGS, c.locales);
    var P5 := AddOwners(P4, CONTROL_BLOCK, c.blocks);
    AddGroups(P5, PTP_INSTANCE, PTP_PORT, c.ptpInstances)
  }

  function AddConfiguration(c: Configuration): (Q: Pools) {
    AddUnits(AddUnits(AddUnits(AddTopLevel(c), Audio, c.audioUnits), Video, c.videoUnits), Sensor, c.sensorUnits)
  }

  // ---- growth ----

  /** Every pool of F starts with the pool of P: nothing allocated is ever moved. */
  ghost predicate Extends(P: Pools, F: Pools) {
    forall t :: At(P, t) <= At(F, t)
  }

  lemma ExtendsTransitive(P: Pools, Q: Pools, R: Pools)
    requires Extends(P, Q) && Extends(Q, R)
    ensures Extends(P, R)
  {
  }

  lemma PutAllAt(P: Pools, t: nat, leaves: seq<Leaf>, t': nat)
    ensures At(PutAll(P, t, leaves), t') == if t' == t then At(P, t) + LeafItems(leaves) else At(P, t')
  {
  }

  /** Where a port's children and the port itself go. */
  lemma PortPools(P: Pools, k: Kind, j: nat, p: Port)
    requires j < 6
    ensures At(AddPort(P, k, j, p), CONTROL) == At(P, CONTROL) + LeafItems(p.controls)
    ensures At(AddPort(P, k, j, p), ClusterType(k)) == At(P, ClusterType(k)) + LeafItems(p.clusters)
    ensures At(AddPort(P, k, j, p), MapType(k)) == At(P, MapType(k)) + LeafItems(p.maps)
    ensures At(AddPortChildren(P, k, p), PortType(j)) == At(P, PortType(j))
    ensures At(AddPort(P, k, j, p), PortType(j)) == At(P, PortType(j)) + [Item(PortBody(P, k, j, p), p.symbol)]
  {
    hide PutAll, PortBody;
    var P1 := PutAll(P, CONTROL, p.controls);
    var P2 := PutAll(P1, ClusterType(k), p.clusters);
    forall t | t in {CONTROL, ClusterType(k), MapType(k), PortType(j)}
      ensures At(AddPortChildren(P, k, p), t)
              == if t == CONTROL then At(P, t) + LeafItems(p.controls)
                 else if t == ClusterType(k) then At(P, t) + LeafItems(p.clusters)
                 else if t == MapType(k) then At(P, t) + LeafItems(p.maps)
                 else At(P, t)
    {
      PutAllAt(P, CONTROL, p.controls, t);
      PutAllAt(P1, ClusterType(k), p.clusters, t);
      PutAllAt(P2, MapType(k), p.maps, t);
    }
  }

  lemma PutAllGrows(P: Pools, t: nat, leaves: seq<Leaf>)
    ensures Extends(P, PutAll(P, t, leaves))
  {
    forall t' ensures At(P, t') <= At(PutAll(P, t, leaves), t') {
      PutAllAt(P, t, leaves, t');
    }
  }

  lemma PutGrows(P: Pools, t: nat, body: Body, symbol: Symbol)
    ensures Extends(P, Put(P, t, body, symbol))
  {
  }

  lemma ExtendsAt(P: Pools, F: Pools, t: nat)
    requires Extends(P, F)
    ensures At(P, t) <= At(F, t)
  {
  }

  lemma PortGrows(P: Pools, k: Kind, j: nat, p: Port)
    ensures Extends(P, AddPort(P, k, j, p))
  {
    hide Extends, Put, PutAll;
    var P1 := PutAll(P, CONTROL, p.controls);
    var P2 := PutAll(P1, ClusterType(k), p.clusters);
    var P3 := AddPortChildren(P, k, p);
    PutAllGrows(P, CONTROL, p.controls);
    PutAllGrows(P1, ClusterType(k), p.clusters);
    PutAllGrows(P2, MapType(k), p.maps);
    PutGrows(P3, PortType(j), PortBody(P, k, j, p), p.symbol);
    ExtendsTransitive(P, P1, P2);
    ExtendsTransitive(P, P2, P3);
    ExtendsTransitive(P, P3, AddPort(P, k, j, p));
  }

  lemma {:induction false} PortsGrow(P: Pools, k: Kind, j: nat, ps: seq<Port>)
    ensures Extends(P, AddPorts(P, k, j, ps))
  {
    if ps != [] {
      var Q := AddPorts(P, k, j, ps[..|ps| - 1]);
      PortsGrow(P, k, j, ps[..|ps| - 1]);
      PortGrows(Q, k, j, ps[|ps| - 1]);
      ExtendsTransitive(P, Q, AddPort(Q, k, j, ps[|ps| - 1]));
    }
  }

  lemma {:induction false} PortListsGrow(P: Pools, k: Kind, lists: seq<seq<Port>>)
    ensures Extends(P, AddPortLists(P, k, lists))
  {
    if lists != [] {
      var j := |lists| - 1;
      var Q := AddPortLists(P, k, lists[..j]);
      PortListsGrow(P, k, lists[..j]);
      PortsGrow(Q, k, j, lists[j]);
      ExtendsTransitive(P, Q, AddPorts(Q, k, j, lists[j]));
    }
  }

  lemma OwnerGrows(P: Pools, t: nat, o: Owner)
    ensures Extends(P, AddOwner(P, t, o))
  {
    hide Extends, PutAll, Put;
    PutAllGrows(P, CONTROL, o.controls);
    PutGrows(PutAll(P, CONTROL, o.controls), t, OwnerBody(P, o), o.symbol);
    ExtendsTransitive(P, PutAll(P, CONTROL, o.controls), AddOwner(P, t, o));
  }

  lemma {:induction false} OwnersGrow(P: Pools, t: nat, os: seq<Owner>)
    ensures Extends(P, AddOwners(P, t, os))
  {
    hide AddOwner;
    if os != [] {
      var Q := AddOwners(P, t, os[..|os| - 1]);
      OwnersGrow(P, t, os[..|os| - 1]);
      OwnerGrows(Q, t, os[|os| - 1]);
      ExtendsTransitive(P, Q, AddOwner(Q, t, os[|os| - 1]));
    }
  }

  lemma GroupGrows(P: Pools, t: nat, m: nat, g: Group)
    ensures Extends(P, AddGroup(P, t, m, g))
  {
    hide Extends, PutAll, Put;
    var Q := Put(P, t, GroupBody(P, m, g), g.symbol);
    PutGrows(P, t, GroupBody(P, m, g), g.symbol);
    PutAllGrows(Q, m, g.members);
    ExtendsTransitive(P, Q, AddGroup(P, t, m, g));
  }

  lemma {:induction false} GroupsGrow(P: Pools, t: nat, m: nat, gs: seq<Group>)
    ensures Extends(P, AddGroups(P, t, m, gs))
  {
    hide AddGroup;
    if gs != [] {
      var Q := AddGroups(P, t, m, gs[..|gs| - 1]);
      GroupsGrow(P, t, m, gs[..|gs| - 1]);
      GroupGrows(Q, t, m, gs[|gs| - 1]);
      ExtendsTransitive(P, Q, AddGroup(Q, t, m, gs[|gs| - 1]));
    }
  }

  lemma {:induction false} FlatGrows(P: Pools, c: Configuration, ts: seq<nat>)
    ensures Extends(P, AddFlat(P, c, ts))
  {
    hide PutAll;
    if ts != [] {
      var Q, t := AddFlat(P, c, ts[..|ts| - 1]), ts[|ts| - 1];
      FlatGrows(P, c, ts[..|ts| - 1]);
      PutAllGrows(Q, t, if t in c.flat then c.flat[t] else []);
      ExtendsTransitive(P, Q, AddFlat(P, c, ts));
    }
  }

  lemma {:induction false} UnitsGrow(P: Pools, k: Kind, us: seq<Unit>)
    ensures Extends(P, AddUnits(P, k, us))
  {
    if us != [] {
      var Q := AddUnits(P, k, us[..|us| - 1]);
      UnitsGrow(P, k, us[..|us| - 1]);
      UnitGrows(Q, k, us[|us| - 1]);
      ExtendsTransitive(P, Q, AddUnit(Q, k, us[|us| - 1]));
    }
  }

  lemma UnitGrows(P: Pools, k: Kind, u: Unit)
    ensures Extends(P, AddUnit(P, k, u))
  {
    hide Extends, PutAll, Put;
    var P1, Q := PutAll(P, CONTROL, u.controls), AddUnitChildren(P, k, u);
    PutAllGrows(P, CONTROL, u.controls);
    PortListsGrow(P1, k, u.ports);
    PutGrows(Q, UnitType(k), UnitBody(P, u), u.symbol);
    ExtendsTransitive(P, P1, Q);
    ExtendsTransitive(P, Q, AddUnit(P, k, u));
  }

  /** A unit's own controls follow what was there, before those of its ports, and the unit comes last of its type. */
  lemma UnitPools(P: Pools, k: Kind, u: Unit)
    requires |u.ports| <= 6
    ensures At(P, CONTROL) + LeafItems(u.controls) <= At(AddUnit(P, k, u), CONTROL)
    ensures At(AddUnit(P, k, u), UnitType(k)) == At(AddUnitChildren(P, k, u), UnitType(k)) + [Item(UnitBody(P, u), u.symbol)]
  {
    hide Extends, PutAll, UnitBody, LeafItems;
    PutAllAt(P, CONTROL, u.controls, CONTROL);
    PortListsGrow(PutAll(P, CONTROL, u.controls), k, u.ports);
    ExtendsAt(PutAll(P, CONTROL, u.controls), AddUnitChildren(P, k, u), CONTROL);
  }
}
