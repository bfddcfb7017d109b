/** The AEM entity tree (IEEE 1722.1-2021 clause 7.2) and the flat descriptor list it compiles to.

    A node keeps the octets its own fields pack to: `head` are those before the count/base fields
    that the compiler computes, `tail` those after. A childless descriptor is a `Leaf`. Symbols are
    their 32-bit codes. */
module AemModel {
  import opened Wire

  // Descriptor types

  const ENTITY := 0x00
  const CONFIGURATION := 0x01
  const AUDIO_UNIT := 0x02
  const VIDEO_UNIT := 0x03
  const SENSOR_UNIT := 0x04
  const STREAM_INPUT := 0x05
  const STREAM_OUTPUT := 0x06
  const JACK_INPUT := 0x07
  const JACK_OUTPUT := 0x08
  const AVB_INTERFACE := 0x09
  const CLOCK_SOURCE := 0x0A
  const MEMORY_OBJECT := 0x0B
  const LOCALE := 0x0C
  const STRINGS := 0x0D
  const STREAM_PORT_INPUT := 0x0E
  const STREAM_PORT_OUTPUT := 0x0F
  const EXTERNAL_PORT_INPUT := 0x10
  const EXTERNAL_PORT_OUTPUT := 0x11
  const INTERNAL_PORT_INPUT := 0x12
  const INTERNAL_PORT_OUTPUT := 0x13
  const AUDIO_CLUSTER := 0x14
  const VIDEO_CLUSTER := 0x15
  const SENSOR_CLUSTER := 0x16
  const AUDIO_MAP := 0x17
  const VIDEO_MAP := 0x18
  const SENSOR_MAP := 0x19
  const CONTROL := 0x1A
  const SIGNAL_SELECTOR := 0x1B
  const MATRIX := 0x1D
  const CLOCK_DOMAIN := 0x24
  const CONTROL_BLOCK := 0x25
  const TIMING := 0x40
  const PTP_INSTANCE := 0x41
  const PTP_PORT := 0x42

  /** Types whose descriptors sit directly in a configuration and own nothing, in walk order. */
  const FLAT_TYPES: seq<nat> :=
    [STREAM_INPUT, STREAM_OUTPUT, JACK_INPUT, JACK_OUTPUT, CLOCK_SOURCE, CLOCK_DOMAIN,
     SIGNAL_SELECTOR, MATRIX, MEMORY_OBJECT, TIMING]

  /** Every type a configuration counts, ascending. */
  const COUNTED_TYPES: seq<nat> :=
    [AUDIO_UNIT, VIDEO_UNIT, SENSOR_UNIT, STREAM_INPUT, STREAM_OUTPUT, JACK_INPUT, JACK_OUTPUT,
     AVB_INTERFACE, CLOCK_SOURCE, MEMORY_OBJECT, LOCALE, STRINGS, STREAM_PORT_INPUT,
     STREAM_PORT_OUTPUT, EXTERNAL_PORT_INPUT, EXTERNAL_PORT_OUTPUT, INTERNAL_PORT_INPUT,
     INTERNAL_PORT_OUTPUT, AUDIO_CLUSTER, VIDEO_CLUSTER, SENSOR_CLUSTER, AUDIO_MAP, VIDEO_MAP,
     SENSOR_MAP, CONTROL, SIGNAL_SELECTOR, MATRIX, CLOCK_DOMAIN, CONTROL_BLOCK, TIMING,
     PTP_INSTANCE, PTP_PORT]

  // The tree

  type Symbol = Option<nat>

  datatype Leaf = Leaf(octets: bytes, symbol: Symbol)

  /** AVB_INTERFACE and CONTROL_BLOCK: `number` and `base` are the author's own count and base,
      honoured only when no controls are given inline. */
  datatype Owner = Owner(head: bytes, number: int, base: int, tail: bytes, controls: seq<Leaf>, symbol: Symbol)

  /** A port of a unit. Only stream ports have clusters and maps; only external and internal ports
      have fields after their ranges. */
  datatype Port = Port(head: bytes, tail: bytes, controls: seq<Leaf>, clusters: seq<Leaf>, maps: seq<Leaf>,
                       symbol: Symbol)

  datatype Kind = Audio | Video | Sensor

  /** `ports` are the six port lists in walk order: stream input, stream output, external input,
      external output, internal input, internal output. */
  datatype Unit = Unit(head: bytes, tail: bytes, controls: seq<Leaf>, ports: seq<seq<Port>>, symbol: Symbol)

  /** A LOCALE with its STRINGS, or a PTP_INSTANCE with its PTP_PORTs. */
  datatype Group = Group(head: bytes, members: seq<Leaf>, symbol: Symbol)

  datatype Configuration = Configuration(head: bytes, controls: seq<Leaf>, flat: map<nat, seq<Leaf>>,
                                         interfaces: seq<Owner>, locales: seq<Group>, blocks: seq<Owner>,
                                         ptpInstances: seq<Group>,
                                         audioUnits: seq<Unit>, videoUnits: seq<Unit>, sensorUnits: seq<Unit>,
                                         symbol: Symbol)

  datatype Entity = Entity(head: bytes, configurations: seq<Configuration>)

  function UnitType(k: Kind): nat {
    match k case Audio => AUDIO_UNIT case Video => VIDEO_UNIT case Sensor => SENSOR_UNIT
  }

  function ClusterType(k: Kind): nat {
    match k case Audio => AUDIO_CLUSTER case Video => VIDEO_CLUSTER case Sensor => SENSOR_CLUSTER
  }

  function MapType(k: Kind): nat {
    match k case Audio => AUDIO_MAP case Video => VIDEO_MAP case Sensor => SENSOR_MAP
  }

  /** The six port types have consecutive codes, in the order of a unit's port lists. */
  function PortType(j: nat): nat { STREAM_PORT_INPUT + j }

  // The fixed octet lengths of the fields around the computed ones

  predicate WfOwner(t: nat, o: Owner) {
    if t == AVB_INTERFACE then |o.head| == 94 && o.tail == [] else |o.head| == 66 && |o.tail| == 8
  }

  predicate WfPort(j: nat, p: Port) {
    |p.head| == 4 && if j < 2 then p.tail == [] else |p.tail| == 12 && p.clusters == [] && p.maps == []
  }

  predicate WfUnit(u: Unit) {
    && |u.head| == 68 && |u.ports| == 6
    && forall j :: 0 <= j < 6 ==> forall p <- u.ports[j] :: WfPort(j, p)
  }

  /** LOCALE carries its identifier (64 octets) before the string range; PTP_INSTANCE its name,
      reference, clock identity, flags and control numbers (82 octets) before the port range. */
  function GroupHead(t: nat): nat { if t == LOCALE then 64 else 82 }

  predicate WfGroup(t: nat, g: Group) { |g.head| == GroupHead(t) }

  predicate WfConfiguration(c: Configuration) {
    && |c.head| == 66
    && c.flat.Keys == (set t <- FLAT_TYPES)
    && (forall o <- c.interfaces :: WfOwner(AVB_INTERFACE, o))
    && (forall o <- c.blocks :: WfOwner(CONTROL_BLOCK, o))
    && (forall g <- c.locales :: WfGroup(LOCALE, g))
    && (forall g <- c.ptpInstances :: WfGroup(PTP_INSTANCE, g))
    && (forall u <- c.audioUnits :: WfUnit(u))
    && (forall u <- c.videoUnits :: WfUnit(u))
    && (forall u <- c.sensorUnits :: WfUnit(u))
  }

  predicate WfEntity(e: Entity) {
    |e.head| == 304 && forall c <- e.configurations :: WfConfiguration(c)
  }

  // The flat form

  /** A FlatDescriptor carries wire octets, a FlatSymbol a symbol code. */
  datatype Flat<X> = Flat(config: nat, dtype: nat, index: nat, data: X)

  type FlatDescriptor = Flat<bytes>
  type FlatSymbol = Flat<nat>

  predicate KeyBelow<X>(a: Flat<X>, b: Flat<X>) {
    a.config < b.config || (a.config == b.config && (a.dtype < b.dtype || (a.dtype == b.dtype && a.index < b.index)))
  }

  predicate SameKey<X>(a: Flat<X>, b: Flat<X>) {
    a.config == b.config && a.dtype == b.dtype && a.index == b.index
  }

  ghost predicate StrictlySorted<X>(s: seq<Flat<X>>) {
    forall i, j :: 0 <= i < j < |s| ==> KeyBelow(s[i], s[j])
  }

  ghost predicate DistinctKeys<X>(s: seq<Flat<X>>) {
    forall i, j :: 0 <= i < j < |s| ==> !SameKey(s[i], s[j])
  }

  lemma SortedLastIsGreatest<X>(a: seq<Flat<X>>, d: Flat<X>)
    requires StrictlySorted(a) && d in a
    ensures d == a[|a| - 1] || KeyBelow(d, a[|a| - 1])
  {
    var i :| 0 <= i < |a| && a[i] == d;
  }

  /** A strictly sorted list is determined by what it contains. */
  lemma {:induction false} SortedListUnique<X(!new)>(a: seq<Flat<X>>, b: seq<Flat<X>>)
    requires StrictlySorted(a) && StrictlySorted(b)
    requires forall d :: d in a <==> d in b
    ensures a == b
  {
    assert a != [] ==> a[0] in b;
    assert b != [] ==> b[0] in a;
    if a != [] && b != [] {
      var a', b', x := a[..|a| - 1], b[..|b| - 1], a[|a| - 1];
      assert b[|b| - 1] == x by {
        assert x in a && b[|b| - 1] in b;
        SortedLastIsGreatest(a, b[|b| - 1]);
        SortedLastIsGreatest(b, x);
      }
      assert a == a' + [x] && b == b' + [x];
      forall d ensures d in a' <==> d in b' {
        assert d in a' ==> d in a && KeyBelow(d, x);
        assert d in b' ==> d in b && KeyBelow(d, x);
      }
      SortedListUnique(a', b');
    }
  }

  // Sorting by key

  /** Insert into a sorted list, after the entries with smaller keys. */
  function Insert<X>(s: seq<Flat<X>>, x: Flat<X>): (r: seq<Flat<X>>)
    requires StrictlySorted(s) && forall d <- s :: !SameKey(d, x)
    ensures StrictlySorted(r) && |r| == |s| + 1
    ensures multiset(r) == multiset(s) + multiset{x}
  {
    if s == [] || KeyBelow(s[|s| - 1], x) then s + [x] else
      var init := s[..|s| - 1];
      assert s == init + [s[|s| - 1]];
      assert s[|s| - 1] in s && !SameKey(s[|s| - 1], x);
      var t := Insert(init, x);
      InsertBelow(init, x, t, s[|s| - 1]);
      t + [s[|s| - 1]]
  }

  lemma InsertBelow<X>(init: seq<Flat<X>>, x: Flat<X>, t: seq<Flat<X>>, last: Flat<X>)
    requires multiset(t) == multiset(init) + multiset{x} && KeyBelow(x, last) && forall d <- init :: KeyBelow(d, last)
    ensures forall d <- t :: KeyBelow(d, last)
  {
    forall d <- t ensures KeyBelow(d, last) {
      assert d in multiset(t);
    }
  }

  function SortByKey<X>(s: seq<Flat<X>>): (r: seq<Flat<X>>)
    requires DistinctKeys(s)
    ensures StrictlySorted(r) && multiset(r) == multiset(s)
  {
    if s == [] then [] else
      var init, x := s[..|s| - 1], s[|s| - 1];
      assert s == init + [x];
      var t := SortByKey(init);
      assert forall d <- t :: d in multiset(t);
      Insert(t, x)
  }
}
