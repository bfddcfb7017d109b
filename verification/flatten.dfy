/** The compiler: an entity tree to a sorted list of descriptors with computed indices. */
module Flatten {
  import opened Wire
  import opened AemModel
  import opened Pools
  import opened Counts
  import opened Codec
  import opened Recompile
  import opened WalkOrder

  // ---- what a configuration's descriptors are, in terms of its pools ----

  ghost predicate InPools(d: FlatDescriptor, config: nat, P: Pools) {
    d.config == config && d.index < Size(P, d.dtype) && d.data == Encode(d.dtype, d.index, At(P, d.dtype)[d.index].body)
  }

  ghost predicate NamedInPools(s: FlatSymbol, config: nat, P: Pools) {
    s.config == config && s.index < Size(P, s.dtype) && At(P, s.dtype)[s.index].symbol == Some(s.data)
  }

  ghost predicate Lists(ds: seq<FlatDescriptor>, config: nat, P: Pools) {
    DistinctKeys(ds) && forall d :: d in ds <==> InPools(d, config, P)
  }

  ghost predicate Names(ss: seq<FlatSymbol>, config: nat, P: Pools) {
    DistinctKeys(ss) && forall s :: s in ss <==> NamedInPools(s, config, P)
  }

  lemma ListsSnoc(ds: seq<FlatDescriptor>, config: nat, P: Pools, t: nat, b: Body, symbol: Symbol)
    requires Lists(ds, config, P)
    ensures Lists(ds + [Flat(config, t, Size(P, t), Encode(t, Size(P, t), b))], config, Put(P, t, b, symbol))
  {
    hide Encode;
    var Q, x := Put(P, t, b, symbol), Flat(config, t, Size(P, t), Encode(t, Size(P, t), b));
    forall d ensures d in ds + [x] <==> InPools(d, config, Q) {
      assert d in ds <==> InPools(d, config, P);
      if d.dtype == t {
        assert At(Q, t) == At(P, t) + [Item(b, symbol)];
      } else {
        assert At(Q, d.dtype) == At(P, d.dtype);
      }
    }
    forall i | 0 <= i < |ds| ensures !SameKey(ds[i], x) {
      assert ds[i] in ds;
    }
  }

  lemma NamesSnoc(ss: seq<FlatSymbol>, config: nat, P: Pools, t: nat, b: Body, symbol: Symbol)
    requires Names(ss, config, P)
    ensures Names(ss + (if symbol.Some? then [Flat(config, t, Size(P, t), symbol.value)] else []), config, Put(P, t, b, symbol))
  {
    var Q := Put(P, t, b, symbol);
    var more := if symbol.Some? then [Flat(config, t, Size(P, t), symbol.value)] else [];
    forall s ensures s in ss + more <==> NamedInPools(s, config, Q) {
      assert s in ss <==> NamedInPools(s, config, P);
      if s.dtype == t {
        assert At(Q, t) == At(P, t) + [Item(b, symbol)];
      } else {
        assert At(Q, s.dtype) == At(P, s.dtype);
      }
    }
    forall i | 0 <= i < |ss| && symbol.Some? ensures !SameKey(ss[i], more[0]) {
      assert ss[i] in ss;
    }
  }

  lemma PutSizes(P: Pools, t: nat, b: Body, symbol: Symbol)
    ensures forall t' :: Size(Put(P, t, b, symbol), t') == Size(P, t') + if t' == t then 1 else 0
  {
  }

  lemma PutAllSnoc(P: Pools, t: nat, leaves: seq<Leaf>, i: nat)
    requires i < |leaves|
    ensures Put(PutAll(P, t, leaves[..i]), t, Body([], [], leaves[i].octets), leaves[i].symbol) == PutAll(P, t, leaves[..i + 1])
  {
    var item := Item(Body([], [], leaves[i].octets), leaves[i].symbol);
    assert LeafItems(leaves[..i + 1]) == LeafItems(leaves[..i]) + [item];
    PutAllAt(P, t, leaves[..i], t);
    assert At(P, t) + LeafItems(leaves[..i]) + [item] == At(P, t) + LeafItems(leaves[..i + 1]);
  }

  lemma UnitBodyFromRanges(P: Pools, u: Unit, ranges: seq<Range>, controls: Range)
    requires |ranges| == |u.ports| <= 6 && controls == CountBase(|u.controls|, Size(P, CONTROL))
    requires forall i :: 0 <= i < |ranges| ==>
               ranges[i] == CountBase(|u.ports[i]|, Size(PutAll(P, CONTROL, u.controls), PortType(i)))
    ensures Body(u.head, ranges + [controls], u.tail) == UnitBody(P, u)
  {
    assert forall i :: 0 <= i < |ranges| ==> Size(PutAll(P, CONTROL, u.controls), PortType(i)) == Size(P, PortType(i));
    assert ranges + [controls] == UnitBody(P, u).ranges;
  }

  // ---- the walk ----

  function Next(counters: map<nat, nat>, t: nat): nat {
    if t in counters then counters[t] else 0
  }

  /** The state of the walk over one configuration: the next free index of each type and what has
      been emitted. */
  class Walker {
    const config: nat
    var counters: map<nat, nat>
    var descriptors: seq<FlatDescriptor>
    var symbols: seq<FlatSymbol>
    ghost var pools: Pools

    ghost predicate Valid()
      reads this
    {
      && (forall t :: Next(counters, t) == Size(pools, t))
      && Lists(descriptors, config, pools) && Names(symbols, config, pools)
    }

    constructor (config: nat)
      ensures Valid() && pools == EMPTY && this.config == config
    {
      this.config := config;
      counters, descriptors, symbols, pools := map[], [], [], EMPTY;
      new;
      forall t ensures At(EMPTY, t) == [] { EmptySizes(t); }
    }

    method Emit(t: nat, body: Body, symbol: Symbol)
      requires Valid()
      modifies this
      ensures Valid() && pools == Put(old(pools), t, body, symbol)
    {
      hide Lists, Names, Encode;
      var index := Next(counters, t);
      ListsSnoc(descriptors, config, pools, t, body, symbol);
      NamesSnoc(symbols, config, pools, t, body, symbol);
      PutSizes(pools, t, body, symbol);
      descriptors := descriptors + [Flat(config, t, index, Encode(t, index, body))];
      symbols := symbols + (if symbol.Some? then [Flat(config, t, index, symbol.value)] else []);
      counters := counters[t := index + 1];
      pools := Put(pools, t, body, symbol);
    }

    method EmitLeaves(t: nat, leaves: seq<Leaf>)
      requires Valid()
      modifies this
      ensures Valid() && pools == PutAll(old(pools), t, leaves)
    {
      hide Lists, Names, Put;
      for i := 0 to |leaves|
        invariant Valid() && pools == PutAll(old(pools), t, leaves[..i])
      {
        Emit(t, Body([], [], leaves[i].octets), leaves[i].symbol);
        PutAllSnoc(old(pools), t, leaves, i);
      }
      assert leaves[..|leaves|] == leaves;
    }

    method WalkPort(k: Kind, j: nat, p: Port)
      requires Valid()
      modifies this
      ensures Valid() && pools == AddPort(old(pools), k, j, p)
    {
      hide Lists, Names, Put;
      var controls := CountBase(|p.controls|, Next(counters, CONTROL));
      var clusters := CountBase(|p.clusters|, Next(counters, ClusterType(k)));
      var maps := CountBase(|p.maps|, Next(counters, MapType(k)));
      EmitLeaves(CONTROL, p.controls);
      EmitLeaves(ClusterType(k), p.clusters);
      EmitLeaves(MapType(k), p.maps);
      Emit(PortType(j), Body(p.head, if j < 2 then [controls, clusters, maps] else [controls], p.tail), p.symbol);
    }

    method WalkPorts(k: Kind, j: nat, ps: seq<Port>)
      requires Valid()
      modifies this
      ensures Valid() && pools == AddPorts(old(pools), k, j, ps)
    {
      hide Lists, Names, AddPort;
      for i := 0 to |ps|
        invariant Valid() && pools == AddPorts(old(pools), k, j, ps[..i])
      {
        WalkPort(k, j, ps[i]);
        assert ps[..i + 1][..i] == ps[..i];
      }
      assert ps[..|ps|] == ps;
    }

    /** The ranges are the ones the owning unit will carry. */
    method WalkPortLists(k: Kind, lists: seq<seq<Port>>) returns (ranges: seq<Range>)
      requires Valid() && |lists| <= 6
      modifies this
      ensures Valid() && pools == AddPortLists(old(pools), k, lists)
      ensures |ranges| == |lists|
      ensures forall i :: 0 <= i < |lists| ==> ranges[i] == CountBase(|lists[i]|, Size(old(pools), PortType(i)))
    {
      hide Lists, Names, AddPorts;
      ranges := [];
      for j := 0 to |lists|
        invariant Valid() && pools == AddPortLists(old(pools), k, lists[..j])
        invariant |ranges| == j
        invariant forall i :: 0 <= i < j ==> ranges[i] == CountBase(|lists[i]|, Size(old(pools), PortType(i)))
      {
        LaterPortTypeUntouched(old(pools), k, lists[..j]);
        ranges := ranges + [CountBase(|lists[j]|, Next(counters, PortType(j)))];
        WalkPorts(k, j, lists[j]);
        assert lists[..j + 1][..j] == lists[..j];
      }
      assert lists[..|lists|] == lists;
    }

    method WalkUnit(k: Kind, u: Unit)
      requires Valid() && |u.ports| <= 6
      modifies this
      ensures Valid() && pools == AddUnit(old(pools), k, u)
    {
      hide Lists, Names, AddPortLists, Put, PutAll, UnitBody;
      var controls := CountBase(|u.controls|, Next(counters, CONTROL));
      EmitLeaves(CONTROL, u.controls);
      var ranges := WalkPortLists(k, u.ports);
      UnitBodyFromRanges(old(pools), u, ranges, controls);
      Emit(UnitType(k), Body(u.head, ranges + [controls], u.tail), u.symbol);
    }

    method WalkUnits(k: Kind, us: seq<Unit>)
      requires Valid() && forall u <- us :: WfUnit(u)
      modifies this
      ensures Valid() && pools == AddUnits(old(pools), k, us)
    {
      hide Lists, Names, AddUnit;
      for i := 0 to |us|
        invariant Valid() && pools == AddUnits(old(pools), k, us[..i])
      {
        assert us[i] in us;
        WalkUnit(k, us[i]);
        assert us[..i + 1][..i] == us[..i];
      }
      assert us[..|us|] == us;
    }

    method WalkOwners(t: nat, os: seq<Owner>)
      requires Valid()
      modifies this
      ensures Valid() && pools == AddOwners(old(pools), t, os)
    {
      hide Lists, Names;
      for i := 0 to |os|
        invariant Valid() && pools == AddOwners(old(pools), t, os[..i])
      {
        var range := OwnerRange(os[i], Next(counters, CONTROL));
        EmitLeaves(CONTROL, os[i].controls);
        Emit(t, Body(os[i].head, [range], os[i].tail), os[i].symbol);
        assert os[..i + 1][..i] == os[..i];
      }
      assert os[..|os|] == os;
    }

    /** LOCALE is emitted before its STRINGS, PTP_INSTANCE after its PTP_PORTs. */
    method WalkGroups(t: nat, m: nat, gs: seq<Group>)
      requires Valid() && t != m
      modifies this
      ensures Valid() && pools == AddGroups(old(pools), t, m, gs)
    {
      hide Lists, Names, Put, PutAll;
      for i := 0 to |gs|
        invariant Valid() && pools == AddGroups(old(pools), t, m, gs[..i])
      {
        ParentLast(pools, t, m, gs[i]);
        var body := Body(gs[i].head, [Range(|gs[i].members|, Next(counters, m))], []);
        if t == LOCALE {
          Emit(t, body, gs[i].symbol);
          EmitLeaves(m, gs[i].members);
        } else {
          EmitLeaves(m, gs[i].members);
          Emit(t, body, gs[i].symbol);
        }
        assert gs[..i + 1][..i] == gs[..i];
      }
      assert gs[..|gs|] == gs;
    }

    method WalkFlat(c: Configuration, ts: seq<nat>)
      requires Valid()
      modifies this
      ensures Valid() && pools == AddFlat(old(pools), c, ts)
    {
      hide Lists, Names, PutAll;
      for i := 0 to |ts|
        invariant Valid() && pools == AddFlat(old(pools), c, ts[..i])
      {
        EmitLeaves(ts[i], if ts[i] in c.flat then c.flat[ts[i]] else []);
        assert ts[..i + 1][..i] == ts[..i];
      }
      assert ts[..|ts|] == ts;
    }

    method Walk(c: Configuration)
      requires Valid() && pools == EMPTY && WfConfiguration(c)
      modifies this
      ensures Valid() && pools == AddConfiguration(c)
    {
      hide Lists, Names, AddUnits, AddOwners, AddGroups, AddFlat, PutAll, WfUnit, WfOwner, WfGroup;
      EmitLeaves(CONTROL, c.controls);
      WalkFlat(c, STREAMS_AND_JACKS);
      WalkOwners(AVB_INTERFACE, c.interfaces);
      WalkFlat(c, CLOCKS);
      WalkGroups(LOCALE, STRINGS, c.locales);
      WalkFlat(c, SIGNALS);
      WalkOwners(CONTROL_BLOCK, c.blocks);
      WalkFlat(c, OBJECTS);
      WalkGroups(PTP_INSTANCE, PTP_PORT, c.ptpInstances);
      OrderDoesNotMatter(c);
      WalkUnits(Audio, c.audioUnits);
      WalkUnits(Video, c.videoUnits);
      WalkUnits(Sensor, c.sensorUnits);
    }
  }
}
