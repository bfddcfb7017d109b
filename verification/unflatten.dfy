/** Rebuilding a configuration from its flat descriptors: nesting comes back only from the count
    and base words, and configuration-level controls are the ones nobody claimed. */
module Unflatten {
  import opened Wire
  import opened AemModel
  import opened Pools

  /** The parsed descriptors of one configuration, by type and index. */
  type Types = map<nat, map<nat, Body>>

  function Bucket(T: Types, t: nat): (m: map<nat, Body>) {
    if t in T then T[t] else map[]
  }

  // ---- children by range ----

  /** The j-th range a descriptor carries. */
  function RangeOf(b: Body, j: nat): (r: Range) {
    if j < |b.ranges| then b.ranges[j] else Range(0, 0)
  }

  function Indices(r: Range): (s: set<nat>)
    ensures forall i: nat :: i in s <==> r.base <= i < r.base + r.count
    decreases r.count
  {
    if r.count == 0 then {} else Indices(Range(r.count - 1, r.base)) + {r.base + r.count - 1}
  }

  function TakeLeaves(T: Types, t: nat, r: Range): (s: seq<Leaf>)
    decreases r.count
  {
    if r.count == 0 then [] else
      var i := r.base + r.count - 1;
      TakeLeaves(T, t, Range(r.count - 1, r.base)) + if i in Bucket(T, t) then [Leaf(Bucket(T, t)[i].tail, None)] else []
  }

  function BuildPort(T: Types, k: Kind, b: Body): (p: Port) {
    Port(b.head, b.tail, TakeLeaves(T, CONTROL, RangeOf(b, 0)), TakeLeaves(T, ClusterType(k), RangeOf(b, 1)),
         TakeLeaves(T, MapType(k), RangeOf(b, 2)), None)
  }

  function BuildPorts(T: Types, k: Kind, t: nat, r: Range): (s: seq<Port>)
    decreases r.count
  {
    if r.count == 0 then [] else
      var i := r.base + r.count - 1;
      BuildPorts(T, k, t, Range(r.count - 1, r.base)) + if i in Bucket(T, t) then [BuildPort(T, k, Bucket(T, t)[i])] else []
  }

  /** The control indices the ports of a range claim; a port's first range is its controls. */
  function PortsClaim(T: Types, t: nat, r: Range): (s: set<nat>)
    decreases r.count
  {
    if r.count == 0 then {} else
      var i := r.base + r.count - 1;
      PortsClaim(T, t, Range(r.count - 1, r.base))
      + if i in Bucket(T, t) then Indices(RangeOf(Bucket(T, t)[i], 0)) else {}
  }

  /** A unit's first six ranges are its port lists, the seventh its controls. */
  function BuildUnit(T: Types, k: Kind, b: Body): (u: Unit) {
    Unit(b.head, b.tail, TakeLeaves(T, CONTROL, RangeOf(b, 6)),
         seq(6, j requires 0 <= j < 6 => BuildPorts(T, k, PortType(j), RangeOf(b, j))), None)
  }

  function PortListsClaim(T: Types, b: Body, n: nat): (s: set<nat>) {
    if n == 0 then {} else PortListsClaim(T, b, n - 1) + PortsClaim(T, PortType(n - 1), RangeOf(b, n - 1))
  }

  function UnitClaims(T: Types, b: Body): (s: set<nat>) {
    Indices(RangeOf(b, 6)) + PortListsClaim(T, b, 6)
  }

  // ---- whole lists in index order ----

  function Least(s: set<nat>): (m: nat)
    requires s != {}
    ensures m in s && forall x <- s :: m <= x
  {
    assert exists m :: m in s && forall x <- s :: m <= x by {
      var y :| y in s;
      LeastBelow(s, y);
    }
    var m :| m in s && forall x <- s :: m <= x;
    m
  }

  lemma {:induction false} LeastBelow(s: set<nat>, y: nat)
    requires y in s
    ensures exists m :: m in s && forall x <- s :: m <= x
    decreases y
  {
    if z :| z in s && z < y {
      LeastBelow(s, z);
    }
  }

  function SortedKeys(s: set<nat>): (r: seq<nat>)
    ensures forall x :: x in r <==> x in s
  {
    if s == {} then [] else var m := Least(s); [m] + SortedKeys(s - {m})
  }

  function Keys(T: Types, t: nat): (r: seq<nat>)
    ensures forall i <- r :: i in Bucket(T, t)
  {
    SortedKeys(Bucket(T, t).Keys)
  }

  function Bodies(T: Types, t: nat): (r: seq<Body>) {
    var keys := Keys(T, t);
    seq(|keys|, j requires 0 <= j < |keys| => assert keys[j] in keys; Bucket(T, t)[keys[j]])
  }

  function BuildUnits(T: Types, k: Kind, bs: seq<Body>): (r: seq<Unit>) {
    seq(|bs|, j requires 0 <= j < |bs| => BuildUnit(T, k, bs[j]))
  }

  function UnitsClaim(T: Types, bs: seq<Body>): (s: set<nat>) {
    if bs == [] then {} else UnitsClaim(T, bs[..|bs| - 1]) + UnitClaims(T, bs[|bs| - 1])
  }

  function Claimed(T: Types): (s: set<nat>) {
    UnitsClaim(T, Bodies(T, AUDIO_UNIT)) + UnitsClaim(T, Bodies(T, VIDEO_UNIT)) + UnitsClaim(T, Bodies(T, SENSOR_UNIT))
  }

  /** Descriptors of one type in index order, leaving out the given indices. */
  function Listed(T: Types, t: nat, keys: seq<nat>, without: set<nat>): (r: seq<Leaf>)
    requires forall i <- keys :: i in Bucket(T, t)
  {
    if keys == [] then [] else
      var i := keys[|keys| - 1];
      Listed(T, t, keys[..|keys| - 1], without) + if i in without then [] else [Leaf(Bucket(T, t)[i].tail, None)]
  }

  function ParsedOwners(bs: seq<Body>): (r: seq<Owner>) {
    seq(|bs|, j requires 0 <= j < |bs| =>
      Owner(bs[j].head, RangeOf(bs[j], 0).count, RangeOf(bs[j], 0).base, bs[j].tail, [], None))
  }

  function BuildGroups(T: Types, m: nat, bs: seq<Body>): (r: seq<AemModel.Group>) {
    seq(|bs|, j requires 0 <= j < |bs| => AemModel.Group(bs[j].head, TakeLeaves(T, m, RangeOf(bs[j], 0)), None))
  }

  function Rebuild(T: Types, head: bytes): (c: Configuration) {
    Configuration(head,
                  Listed(T, CONTROL, Keys(T, CONTROL), Claimed(T)),
                  map t <- FLAT_TYPES :: Listed(T, t, Keys(T, t), {}),
                  ParsedOwners(Bodies(T, AVB_INTERFACE)), BuildGroups(T, STRINGS, Bodies(T, LOCALE)),
                  ParsedOwners(Bodies(T, CONTROL_BLOCK)), BuildGroups(T, PTP_PORT, Bodies(T, PTP_INSTANCE)),
                  BuildUnits(T, Audio, Bodies(T, AUDIO_UNIT)), BuildUnits(T, Video, Bodies(T, VIDEO_UNIT)),
                  BuildUnits(T, Sensor, Bodies(T, SENSOR_UNIT)), None)
  }
}
