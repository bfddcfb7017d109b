/** Decompiling what the walk allocated gives every unit, port, cluster, map and control back. */
module RoundTripUnits {
  import opened Wire
  import opened AemModel
  import opened Pools
  import opened Unflatten
  import opened NormalForm
  import opened Counts

  /** T holds, for every type below the configuration, exactly the descriptors of the pools F. */
  ghost predicate Holds(T: Types, F: Pools) {
    && (forall t: nat, i: nat :: t >= 2 ==> (i in Bucket(T, t) <==> i < Size(F, t)))
    && (forall t: nat, i: nat :: t >= 2 && i < Size(F, t) ==> Bucket(T, t)[i] == At(F, t)[i].body)
  }

  lemma SliceInit(s: seq<Item>, base: nat, leaves: seq<Leaf>)
    requires leaves != [] && base + |leaves| <= |s| && s[base..base + |leaves|] == LeafItems(leaves)
    ensures s[base..base + |leaves| - 1] == LeafItems(leaves[..|leaves| - 1])
    ensures s[base + |leaves| - 1].body == Body([], [], leaves[|leaves| - 1].octets)
  {
    var t := s[base..base + |leaves|];
    assert forall i :: 0 <= i < |leaves| ==> t[i] == LeafItems(leaves)[i];
    assert s[base..base + |leaves| - 1] == t[..|leaves| - 1];
    assert s[base + |leaves| - 1] == t[|leaves| - 1];
  }

  /** A range that lies inside a pool of leaves comes back as that stretch of the pool. */
  lemma {:induction false} TakeIsSlice(T: Types, F: Pools, t: nat, r: Range, leaves: seq<Leaf>)
    requires Holds(T, F) && t >= 2
    requires r.count == |leaves| && r.base + r.count <= Size(F, t)
    requires At(F, t)[r.base..r.base + r.count] == LeafItems(leaves)
    ensures TakeLeaves(T, t, r) == EraseLeaves(leaves)
    decreases r.count
  {
    if r.count > 0 {
      var i, init := r.base + r.count - 1, leaves[..|leaves| - 1];
      SliceInit(At(F, t), r.base, leaves);
      TakeIsSlice(T, F, t, Range(r.count - 1, r.base), init);
      assert Bucket(T, t)[i] == At(F, t)[i].body;
      assert EraseLeaves(leaves) == EraseLeaves(init) + [Leaf(leaves[|init|].octets, None)];
    }
  }

  lemma SliceOfPrefix<X>(a: seq<X>, b: seq<X>, f: seq<X>)
    requires a + b <= f
    ensures |a| + |b| <= |f| && f[|a|..|a| + |b|] == b
  {
    assert f[..|a| + |b|] == a + b;
    assert f[|a|..|a| + |b|] == f[..|a| + |b|][|a|..];
  }

  /** Leaves appended to P at their walk position are what their owner's range reads from F. */
  lemma TakeAppended(T: Types, F: Pools, P: Pools, t: nat, leaves: seq<Leaf>)
    requires Holds(T, F) && t >= 2
    requires At(P, t) + LeafItems(leaves) <= At(F, t)
    ensures TakeLeaves(T, t, CountBase(|leaves|, Size(P, t))) == EraseLeaves(leaves)
  {
    if leaves != [] {
      SliceOfPrefix(At(P, t), LeafItems(leaves), At(F, t));
      TakeIsSlice(T, F, t, CountBase(|leaves|, Size(P, t)), leaves);
    }
  }

  /** The descriptor a walk step appended is still at its index in F. */
  lemma LastPut(T: Types, F: Pools, P: Pools, t: nat, body: Body, symbol: Symbol)
    requires Holds(T, F) && t >= 2 && Extends(Put(P, t, body, symbol), F)
    ensures Size(P, t) in Bucket(T, t) && Bucket(T, t)[Size(P, t)] == body
  {
    assert At(Put(P, t, body, symbol), t) <= At(F, t);
    assert At(F, t)[Size(P, t)] == Item(body, symbol);
  }

  /** The control indices allocated between two walk positions. */
  ghost predicate ExactlyBetween(s: set<nat>, P: Pools, Q: Pools) {
    forall i: nat :: i in s <==> Size(P, CONTROL) <= i < Size(Q, CONTROL)
  }

  lemma BetweenJoin(P: Pools, Q: Pools, R: Pools, a: set<nat>, b: set<nat>)
    requires ExactlyBetween(a, P, Q) && ExactlyBetween(b, Q, R)
    requires Extends(P, Q) && Extends(Q, R)
    ensures ExactlyBetween(a + b, P, R)
  {
    assert At(P, CONTROL) <= At(Q, CONTROL) <= At(R, CONTROL);
  }

  // ---- ports ----

  lemma PortChildrenRoundTrip(T: Types, F: Pools, P: Pools, k: Kind, j: nat, p: Port)
    requires Holds(T, F) && j < 6 && WfPort(j, p)
    requires Extends(AddPort(P, k, j, p), F)
    ensures BuildPort(T, k, PortBody(P, k, j, p)) == ErasePort(p)
  {
    var Q := AddPort(P, k, j, p);
    PortPools(P, k, j, p);
    assert At(Q, CONTROL) <= At(F, CONTROL) && At(Q, ClusterType(k)) <= At(F, ClusterType(k))
           && At(Q, MapType(k)) <= At(F, MapType(k));
    TakeAppended(T, F, P, CONTROL, p.controls);
    TakeAppended(T, F, P, ClusterType(k), p.clusters);
    TakeAppended(T, F, P, MapType(k), p.maps);
  }

  /** What one port's step of the walk leaves behind in F. */
  lemma PortStep(T: Types, F: Pools, P: Pools, k: Kind, j: nat, p: Port)
    requires Holds(T, F) && j < 6 && WfPort(j, p)
    requires Extends(AddPort(P, k, j, p), F)
    ensures Size(P, PortType(j)) in Bucket(T, PortType(j))
    ensures Bucket(T, PortType(j))[Size(P, PortType(j))] == PortBody(P, k, j, p)
    ensures Size(AddPort(P, k, j, p), PortType(j)) == Size(P, PortType(j)) + 1
    ensures ExactlyBetween(Indices(RangeOf(PortBody(P, k, j, p), 0)), P, AddPort(P, k, j, p))
  {
    hide PutAll, Put, Holds, Extends, WfPort;
    LastPut(T, F, AddPortChildren(P, k, p), PortType(j), PortBody(P, k, j, p), p.symbol);
    PortPools(P, k, j, p);
  }

  lemma {:induction false} PortsRoundTrip(T: Types, F: Pools, P: Pools, k: Kind, j: nat, ps: seq<Port>)
    requires Holds(T, F) && j < 6 && forall p <- ps :: WfPort(j, p)
    requires Extends(AddPorts(P, k, j, ps), F)
    ensures Size(AddPorts(P, k, j, ps), PortType(j)) == Size(P, PortType(j)) + |ps|
    ensures BuildPorts(T, k, PortType(j), Range(|ps|, Size(P, PortType(j)))) == ErasePorts(ps)
    ensures ExactlyBetween(PortsClaim(T, PortType(j), Range(|ps|, Size(P, PortType(j)))), P, AddPorts(P, k, j, ps))
  {
    hide Holds, Extends, WfPort, AddPort, PortBody, BuildPort, ErasePort, ErasePorts, PortsClaim, BuildPorts;
    if ps == [] {
      NoPorts(T, k, PortType(j), Size(P, PortType(j)));
    } else {
      var init, p := ps[..|ps| - 1], ps[|ps| - 1];
      assert p in ps;
      var Q := AddPorts(P, k, j, init);
      PortGrows(Q, k, j, p);
      ExtendsTransitive(Q, AddPort(Q, k, j, p), F);
      PortsRoundTrip(T, F, P, k, j, init);
      PortStep(T, F, Q, k, j, p);
      PortChildrenRoundTrip(T, F, Q, k, j, p);
      PortsSnoc(T, k, PortType(j), Range(|ps|, Size(P, PortType(j))), PortBody(Q, k, j, p), ps);
      PortsGrow(P, k, j, init);
      BetweenJoin(P, Q, AddPort(Q, k, j, p), PortsClaim(T, PortType(j), Range(|init|, Size(P, PortType(j)))),
                  Indices(RangeOf(PortBody(Q, k, j, p), 0)));
    }
  }

  lemma NoPorts(T: Types, k: Kind, t: nat, base: nat)
    ensures BuildPorts(T, k, t, Range(0, base)) == ErasePorts([]) && PortsClaim(T, t, Range(0, base)) == {}
  {
  }

  lemma PortsSnoc(T: Types, k: Kind, t: nat, r: Range, last: Body, ps: seq<Port>)
    requires ps != [] && r.count == |ps|
    requires r.base + |ps| - 1 in Bucket(T, t) && Bucket(T, t)[r.base + |ps| - 1] == last
    requires BuildPort(T, k, last) == ErasePort(ps[|ps| - 1])
    requires BuildPorts(T, k, t, Range(r.count - 1, r.base)) == ErasePorts(ps[..|ps| - 1])
    ensures BuildPorts(T, k, t, r) == ErasePorts(ps)
    ensures PortsClaim(T, t, r) == PortsClaim(T, t, Range(r.count - 1, r.base)) + Indices(RangeOf(last, 0))
  {
    assert ErasePorts(ps) == ErasePorts(ps[..|ps| - 1]) + [ErasePort(ps[|ps| - 1])];
  }

  // ---- units ----

  /** The body b carries, for each port list of u, the range allocated from P on. */
  ghost predicate PortRanges(b: Body, P: Pools, lists: seq<seq<Port>>) {
    forall j :: 0 <= j < |lists| ==> RangeOf(b, j) == CountBase(|lists[j]|, Size(P, PortType(j)))
  }

  lemma PortListStep(T: Types, F: Pools, Q: Pools, k: Kind, j: nat, ps: seq<Port>, r: Range)
    requires Holds(T, F) && j < 6 && forall p <- ps :: WfPort(j, p)
    requires Extends(AddPorts(Q, k, j, ps), F) && r == CountBase(|ps|, Size(Q, PortType(j)))
    ensures BuildPorts(T, k, PortType(j), r) == ErasePorts(ps)
    ensures ExactlyBetween(PortsClaim(T, PortType(j), r), Q, AddPorts(Q, k, j, ps))
    ensures Extends(Q, AddPorts(Q, k, j, ps)) && Extends(Q, F)
  {
    PortsGrow(Q, k, j, ps);
    ExtendsTransitive(Q, AddPorts(Q, k, j, ps), F);
    PortsRoundTrip(T, F, Q, k, j, ps);
  }

  /** Every port list, from a walk position P after the unit's own controls. */
  lemma {:induction false} PortListsRoundTrip(T: Types, F: Pools, P: Pools, k: Kind, lists: seq<seq<Port>>, b: Body)
    requires Holds(T, F) && |lists| <= 6
    requires forall j :: 0 <= j < |lists| ==> forall p <- lists[j] :: WfPort(j, p)
    requires PortRanges(b, P, lists)
    requires Extends(AddPortLists(P, k, lists), F)
    ensures forall j :: 0 <= j < |lists| ==> BuildPorts(T, k, PortType(j), RangeOf(b, j)) == ErasePorts(lists[j])
    ensures ExactlyBetween(PortListsClaim(T, b, |lists|), P, AddPortLists(P, k, lists))
  {
    if lists != [] {
      var j := |lists| - 1;
      var init, ps := lists[..j], lists[j];
      var Q := AddPortLists(P, k, init);
      LaterPortTypeUntouched(P, k, init);
      PortListStep(T, F, Q, k, j, ps, RangeOf(b, j));
      PortListsRoundTrip(T, F, P, k, init, b);
      PortListsGrow(P, k, init);
      BetweenJoin(P, Q, AddPorts(Q, k, j, ps), PortListsClaim(T, b, j), PortsClaim(T, PortType(j), RangeOf(b, j)));
    }
  }

  lemma UnitRanges(P: Pools, u: Unit)
    requires |u.ports| == 6
    ensures PortRanges(UnitBody(P, u), PutAll(P, CONTROL, u.controls), u.ports)
    ensures RangeOf(UnitBody(P, u), 6) == CountBase(|u.controls|, Size(P, CONTROL))
  {
    var P1 := PutAll(P, CONTROL, u.controls);
    assert forall j :: 0 <= j < 6 ==> At(P1, PortType(j)) == At(P, PortType(j));
  }

  /** Everything below a unit, from a body that carries its ranges. */
  lemma UnitChildrenRoundTrip(T: Types, F: Pools, P: Pools, k: Kind, u: Unit, b: Body)
    requires Holds(T, F) && WfUnit(u) && Extends(AddUnitChildren(P, k, u), F)
    requires PortRanges(b, PutAll(P, CONTROL, u.controls), u.ports)
    requires RangeOf(b, 6) == CountBase(|u.controls|, Size(P, CONTROL))
    ensures forall j :: 0 <= j < 6 ==> BuildPorts(T, k, PortType(j), RangeOf(b, j)) == ErasePorts(u.ports[j])
    ensures TakeLeaves(T, CONTROL, RangeOf(b, 6)) == EraseLeaves(u.controls)
    ensures ExactlyBetween(UnitClaims(T, b), P, AddUnitChildren(P, k, u))
  {
    hide Holds, Extends, PortRanges, WfPort, AddPortLists, BuildPorts, ErasePorts, TakeLeaves, PortListsClaim, PutAll;
    var P1 := PutAll(P, CONTROL, u.controls);
    PutAllGrows(P, CONTROL, u.controls);
    PutAllAt(P, CONTROL, u.controls, CONTROL);
    PortListsGrow(P1, k, u.ports);
    ExtendsTransitive(P1, AddPortLists(P1, k, u.ports), F);
    ExtendsAt(P1, F, CONTROL);
    TakeAppended(T, F, P, CONTROL, u.controls);
    PortListsRoundTrip(T, F, P1, k, u.ports, b);
    BetweenJoin(P, P1, AddUnitChildren(P, k, u), Indices(RangeOf(b, 6)), PortListsClaim(T, b, 6));
  }

  lemma UnitRoundTrip(T: Types, F: Pools, P: Pools, k: Kind, u: Unit)
    requires Holds(T, F) && WfUnit(u) && Extends(AddUnitChildren(P, k, u), F)
    ensures BuildUnit(T, k, UnitBody(P, u)) == EraseUnit(u)
    ensures ExactlyBetween(UnitClaims(T, UnitBody(P, u)), P, AddUnitChildren(P, k, u))
  {
    UnitRanges(P, u);
    UnitChildrenRoundTrip(T, F, P, k, u, UnitBody(P, u));
    assert BuildUnit(T, k, UnitBody(P, u)).ports == EraseUnit(u).ports;
  }
}
