/** Decompiling a flat descriptor list. */
module Decompiler {
  import opened Wire
  import opened AemModel
  import opened Pools
  import opened Codec
  import opened Unflatten
  import opened Layouts

  // ---- grouping the flat list ----

  type Wires = map<nat, map<nat, bytes>>

  function WireBucket(W: Wires, t: nat): (m: map<nat, bytes>) {
    if t in W then W[t] else map[]
  }

  /** The descriptors of one configuration by type and index; a repeated key keeps its last octets. */
  function Grouped(ds: seq<FlatDescriptor>, config: nat): (W: Wires) {
    if ds == [] then map[] else
      var W, d := Grouped(ds[..|ds| - 1], config), ds[|ds| - 1];
      if d.config == config then W[d.dtype := WireBucket(W, d.dtype)[d.index := d.data]] else W
  }

  /** The CONFIGURATION index a configuration's descriptors mention first. */
  function FirstConfigurationIndex(ds: seq<FlatDescriptor>, config: nat): (r: Option<nat>) {
    if ds == [] then None
    else if ds[0].config == config && ds[0].dtype == CONFIGURATION then Some(ds[0].index)
    else FirstConfigurationIndex(ds[1..], config)
  }

  /** The CONFIGURATION octets: keyed by the configuration's own index, else the first listed, else
      74 zero octets. */
  function ConfigurationOctets(ds: seq<FlatDescriptor>, config: nat): (w: bytes) {
    var m, first := WireBucket(Grouped(ds, config), CONFIGURATION), FirstConfigurationIndex(ds, config);
    if config in m then m[config]
    else if first.Some? && first.value in m then m[first.value]
    else Zeros(74)
  }

  // ---- parsing one descriptor ----

  predicate IsNumber(p: Piece) {
    (p.Own? && !p.k.Text?) || p.Redundant? || p.ValueCount?
  }

  /** How many pieces there are up to the last one a number is read from. */
  function LastNumber(ps: seq<Piece>): (n: nat)
    ensures n <= |ps|
  {
    if ps == [] then 0 else if IsNumber(ps[|ps| - 1]) then |ps| else LastNumber(ps[..|ps| - 1])
  }

  /** Where the fixed numbers of a descriptor end. A string is read from what octets there are. */
  function Need(t: nat): (n: nat) {
    var ps := TailShape(t).pieces;
    if LastNumber(ps) == 0 && MinLength(t) == 4 then 0 else MinLength(t) + Place(ps, LastNumber(ps))
  }

  /** The octets reach as far as the parser reads numbers; the elements of a list are numbers too. */
  predicate Readable(t: nat, w: bytes) {
    && |w| >= Need(t)
    && (TailShape(t).trailer.Lists? ==>
          |w| >= MinLength(t) && |w| >= Need(t) + ListsLength(TailShape(t).trailer.lists, w[MinLength(t)..]))
  }

  /** A descriptor as its parser keeps it. */
  function ParsedBody(t: nat, w: bytes): (b: Body) {
    Settled(t, Decode(t, Padded(w, MinLength(t))))
  }

  /** What the parsers need to find in each descriptor of a configuration. */
  ghost predicate LongEnough(W: Wires) {
    forall t, i :: t >= 2 && i in WireBucket(W, t) ==> Readable(t, WireBucket(W, t)[i])
  }

  /** The same, checked descriptor by descriptor. */
  predicate AllLongEnough(W: Wires)
    ensures AllLongEnough(W) <==> LongEnough(W)
  {
    assert forall t :: WireBucket(W, t) == if t in W then W[t] else map[];
    forall t <- W :: t >= 2 ==> forall i <- W[t] :: Readable(t, W[t][i])
  }

  function Parsed(W: Wires): (T: Types) {
    map t | t in W && t >= 2 :: map i | i in WireBucket(W, t) :: ParsedBody(t, WireBucket(W, t)[i])
  }

  ghost predicate Parseable(ds: seq<FlatDescriptor>, config: nat) {
    LongEnough(Grouped(ds, config)) && |ConfigurationOctets(ds, config)| >= 70
  }

  ghost function DecompiledConfiguration(ds: seq<FlatDescriptor>, config: nat): (c: Configuration)
    requires Parseable(ds, config)
  {
    Rebuild(Parsed(Grouped(ds, config)), KeptHead(CONFIGURATION, ConfigurationOctets(ds, config)[4..70]))
  }

  /** The ENTITY octets, if the list has one long enough to parse. */
  function EntityOctets(ds: seq<FlatDescriptor>): (r: Option<bytes>) {
    var m := WireBucket(Grouped(ds, 0), ENTITY);
    if 0 in m && |m[0]| >= 310 then Some(m[0]) else None
  }

  /** None where decompiling raises: no ENTITY, or a descriptor too short for its parser. */
  ghost function Decompiled(ds: seq<FlatDescriptor>): (r: Option<Entity>) {
    var o := EntityOctets(ds);
    if o.None? then None else
      var n := U16At(o.value, 308);
      if exists i :: 0 <= i < n && !Parseable(ds, i) then None
      else Some(Entity(KeptHead(ENTITY, o.value[4..308]), seq(n, i requires 0 <= i < n => assert Parseable(ds, i); DecompiledConfiguration(ds, i))))
  }

  // ---- the assembly, with its set of referenced controls ----

  /** take_controls: every index of the range is marked, whether or not a control is there. */
  method TakeControls(T: Types, r: Range, referenced: set<nat>) returns (s: seq<Leaf>, marked: set<nat>)
    ensures s == TakeLeaves(T, CONTROL, r) && marked == referenced + Indices(r)
  {
    s, marked := [], referenced;
    for n := 0 to r.count
      invariant s == TakeLeaves(T, CONTROL, Range(n, r.base)) && marked == referenced + Indices(Range(n, r.base))
    {
      var i := r.base + n;
      marked := marked + {i};
      if i in Bucket(T, CONTROL) {
        s := s + [Leaf(Bucket(T, CONTROL)[i].tail, None)];
      }
    }
  }

  method AssemblePorts(T: Types, k: Kind, t: nat, r: Range, referenced: set<nat>) returns (ps: seq<Port>, marked: set<nat>)
    ensures ps == BuildPorts(T, k, t, r) && marked == referenced + PortsClaim(T, t, r)
  {
    ps, marked := [], referenced;
    for n := 0 to r.count
      invariant ps == BuildPorts(T, k, t, Range(n, r.base)) && marked == referenced + PortsClaim(T, t, Range(n, r.base))
    {
      var i := r.base + n;
      if i in Bucket(T, t) {
        var b := Bucket(T, t)[i];
        var controls;
        controls, marked := TakeControls(T, RangeOf(b, 0), marked);
        ps := ps + [Port(b.head, b.tail, controls, TakeLeaves(T, ClusterType(k), RangeOf(b, 1)),
                         TakeLeaves(T, MapType(k), RangeOf(b, 2)), None)];
      }
    }
  }

  method AssembleUnit(T: Types, k: Kind, b: Body, referenced: set<nat>) returns (u: Unit, marked: set<nat>)
    ensures u == BuildUnit(T, k, b) && marked == referenced + UnitClaims(T, b)
  {
    hide BuildPorts, PortsClaim, TakeLeaves, Indices;
    var controls;
    controls, marked := TakeControls(T, RangeOf(b, 6), referenced);
    var lists: seq<seq<Port>> := [];
    for j := 0 to 6
      invariant |lists| == j && forall i :: 0 <= i < j ==> lists[i] == BuildPorts(T, k, PortType(i), RangeOf(b, i))
      invariant marked == referenced + Indices(RangeOf(b, 6)) + PortListsClaim(T, b, j)
    {
      var ps;
      ps, marked := AssemblePorts(T, k, PortType(j), RangeOf(b, j), marked);
      lists := lists + [ps];
    }
    u := Unit(b.head, b.tail, controls, lists, None);
  }

  method AssembleUnits(T: Types, k: Kind, referenced: set<nat>) returns (us: seq<Unit>, marked: set<nat>)
    ensures us == BuildUnits(T, k, Bodies(T, UnitType(k))) && marked == referenced + UnitsClaim(T, Bodies(T, UnitType(k)))
  {
    hide BuildUnit, UnitClaims, Bodies;
    us, marked := [], referenced;
    var bs := Bodies(T, UnitType(k));
    for i := 0 to |bs|
      invariant |us| == i && forall n :: 0 <= n < i ==> us[n] == BuildUnit(T, k, bs[n])
      invariant marked == referenced + UnitsClaim(T, bs[..i])
    {
      var u;
      u, marked := AssembleUnit(T, k, bs[i], marked);
      us := us + [u];
      assert bs[..i + 1][..i] == bs[..i];
    }
    assert bs[..|bs|] == bs;
  }

  /** _build_configuration. */
  method AssembleConfiguration(T: Types, head: bytes) returns (c: Configuration)
    ensures c == Rebuild(T, head)
  {
    hide Listed, BuildUnits, UnitsClaim, Bodies, Keys, ParsedOwners, BuildGroups;
    var audio, marked := AssembleUnits(T, Audio, {});
    var video, sensor;
    video, marked := AssembleUnits(T, Video, marked);
    sensor, marked := AssembleUnits(T, Sensor, marked);
    assert marked == Claimed(T);
    c := Configuration(head, Listed(T, CONTROL, Keys(T, CONTROL), marked),
                       map t <- FLAT_TYPES :: Listed(T, t, Keys(T, t), {}),
                       ParsedOwners(Bodies(T, AVB_INTERFACE)), BuildGroups(T, STRINGS, Bodies(T, LOCALE)),
                       ParsedOwners(Bodies(T, CONTROL_BLOCK)), BuildGroups(T, PTP_PORT, Bodies(T, PTP_INSTANCE)),
                       audio, video, sensor, None);
  }

  method UnflattenEntity(ds: seq<FlatDescriptor>) returns (r: Option<Entity>)
    ensures r == Decompiled(ds)
  {
    hide Rebuild, Parsed, LongEnough, Grouped, KeptHead;
    var o := EntityOctets(ds);
    if o.None? {
      return None;
    }
    var n := U16At(o.value, 308);
    var configurations: seq<Configuration> := [];
    for i := 0 to n
      invariant forall j :: 0 <= j < i ==> Parseable(ds, j)
      invariant |configurations| == i && forall j :: 0 <= j < i ==> configurations[j] == DecompiledConfiguration(ds, j)
    {
      var W, octets := Grouped(ds, i), ConfigurationOctets(ds, i);
      if !AllLongEnough(W) || |octets| < 70 {
        assert !Parseable(ds, i);
        return None;
      }
      var c := AssembleConfiguration(Parsed(W), KeptHead(CONFIGURATION, octets[4..70]));
      configurations := configurations + [c];
    }
    assert Decompiled(ds).Some? && configurations == Decompiled(ds).value.configurations;
    return Some(Entity(KeptHead(ENTITY, o.value[4..308]), configurations));
  }
}
