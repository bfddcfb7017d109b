/** Descriptors of different types do not affect each other's indices: lists that own nothing may be walked before
    or after the interfaces, locales and control blocks they stand between. */
module WalkOrder {
  import opened Wire
  import opened AemModel
  import opened Pools

  lemma PutAllPut(P: Pools, a: nat, x: seq<Leaf>, t: nat, b: Body, s: Symbol)
    requires a != t
    ensures Put(PutAll(P, a, x), t, b, s) == PutAll(Put(P, t, b, s), a, x)
  {
  }

  lemma PutAllPutAll(P: Pools, a: nat, x: seq<Leaf>, b: nat, y: seq<Leaf>)
    requires a != b
    ensures PutAll(PutAll(P, a, x), b, y) == PutAll(PutAll(P, b, y), a, x)
  {
  }

  /** A parent may be emitted before or after its members. */
  lemma ParentLast(P: Pools, t: nat, m: nat, g: Group)
    requires t != m
    ensures Put(PutAll(P, m, g.members), t, GroupBody(P, m, g), g.symbol) == AddGroup(P, t, m, g)
  {
    hide Put, PutAll;
    PutAllPut(P, m, g.members, t, GroupBody(P, m, g), g.symbol);
  }

  lemma OwnerCommutes(P: Pools, a: nat, x: seq<Leaf>, t: nat, o: Owner)
    requires a != t && a != CONTROL
    ensures AddOwner(PutAll(P, a, x), t, o) == PutAll(AddOwner(P, t, o), a, x)
  {
    hide Put, PutAll;
    PutAllAt(P, a, x, CONTROL);
    PutAllPutAll(P, a, x, CONTROL, o.controls);
    PutAllPut(PutAll(P, CONTROL, o.controls), a, x, t, OwnerBody(P, o), o.symbol);
  }

  lemma {:induction false} OwnersCommute(P: Pools, a: nat, x: seq<Leaf>, t: nat, os: seq<Owner>)
    requires a != t && a != CONTROL
    ensures AddOwners(PutAll(P, a, x), t, os) == PutAll(AddOwners(P, t, os), a, x)
  {
    hide PutAll, AddOwner;
    if os != [] {
      OwnersCommute(P, a, x, t, os[..|os| - 1]);
      OwnerCommutes(AddOwners(P, t, os[..|os| - 1]), a, x, t, os[|os| - 1]);
    }
  }

  lemma GroupCommutes(P: Pools, a: nat, x: seq<Leaf>, t: nat, m: nat, g: Group)
    requires a != t && a != m
    ensures AddGroup(PutAll(P, a, x), t, m, g) == PutAll(AddGroup(P, t, m, g), a, x)
  {
    hide Put, PutAll;
    PutAllAt(P, a, x, m);
    PutAllPut(P, a, x, t, GroupBody(P, m, g), g.symbol);
    PutAllPutAll(Put(P, t, GroupBody(P, m, g), g.symbol), a, x, m, g.members);
  }

  lemma {:induction false} GroupsCommute(P: Pools, a: nat, x: seq<Leaf>, t: nat, m: nat, gs: seq<Group>)
    requires a != t && a != m
    ensures AddGroups(PutAll(P, a, x), t, m, gs) == PutAll(AddGroups(P, t, m, gs), a, x)
  {
    hide PutAll, AddGroup;
    if gs != [] {
      GroupsCommute(P, a, x, t, m, gs[..|gs| - 1]);
      GroupCommutes(AddGroups(P, t, m, gs[..|gs| - 1]), a, x, t, m, gs[|gs| - 1]);
    }
  }

  lemma {:induction false} FlatOverOwners(P: Pools, c: Configuration, ts: seq<nat>, t: nat, os: seq<Owner>)
    requires t !in ts && CONTROL !in ts
    ensures AddFlat(AddOwners(P, t, os), c, ts) == AddOwners(AddFlat(P, c, ts), t, os)
  {
    hide PutAll, AddOwners;
    if ts != [] {
      var a, init := ts[|ts| - 1], ts[..|ts| - 1];
      FlatOverOwners(P, c, init, t, os);
      OwnersCommute(AddFlat(P, c, init), a, if a in c.flat then c.flat[a] else [], t, os);
    }
  }

  lemma {:induction false} FlatOverGroups(P: Pools, c: Configuration, ts: seq<nat>, t: nat, m: nat, gs: seq<Group>)
    requires t !in ts && m !in ts
    ensures AddFlat(AddGroups(P, t, m, gs), c, ts) == AddGroups(AddFlat(P, c, ts), t, m, gs)
  {
    hide PutAll, AddGroups;
    if ts != [] {
      var a, init := ts[|ts| - 1], ts[..|ts| - 1];
      FlatOverGroups(P, c, init, t, m, gs);
      GroupsCommute(AddFlat(P, c, init), a, if a in c.flat then c.flat[a] else [], t, m, gs);
    }
  }

  lemma {:induction false} FlatJoins(P: Pools, c: Configuration, a: seq<nat>, b: seq<nat>)
    ensures AddFlat(AddFlat(P, c, a), c, b) == AddFlat(P, c, a + b)
  {
    hide PutAll;
    if b == [] {
      assert a + b == a;
    } else {
      FlatJoins(P, c, a, b[..|b| - 1]);
      assert (a + b)[..|a + b| - 1] == a + b[..|b| - 1];
    }
  }

  // The lists that own nothing, as the walk meets them

  const STREAMS_AND_JACKS: seq<nat> := [STREAM_INPUT, STREAM_OUTPUT, JACK_INPUT, JACK_OUTPUT]
  const CLOCKS: seq<nat> := [CLOCK_SOURCE, CLOCK_DOMAIN]
  const SIGNALS: seq<nat> := [SIGNAL_SELECTOR, MATRIX]
  const OBJECTS: seq<nat> := [MEMORY_OBJECT, TIMING]

  /** Everything before the units, in the order it is walked. */
  ghost function InWalkOrder(c: Configuration): (Q: Pools) {
    var P1 := AddFlat(PutAll(EMPTY, CONTROL, c.controls), c, STREAMS_AND_JACKS);
    var P2 := AddFlat(AddOwners(P1, AVB_INTERFACE, c.interfaces), c, CLOCKS);
    var P3 := AddFlat(AddGroups(P2, LOCALE, STRINGS, c.locales), c, SIGNALS);
    var P4 := AddFlat(AddOwners(P3, CONTROL_BLOCK, c.blocks), c, OBJECTS);
    AddGroups(P4, PTP_INSTANCE, PTP_PORT, c.ptpInstances)
  }

  lemma WalkOrderIsFlatTypes()
    ensures STREAMS_AND_JACKS + (CLOCKS + (SIGNALS + OBJECTS)) == FLAT_TYPES
  {
  }

  /** The order of the lists does not matter. */
  lemma OrderDoesNotMatter(c: Configuration)
    ensures InWalkOrder(c) == AddTopLevel(c)
  {
    hide PutAll, AddFlat, AddOwners, AddGroups;
    var P0 := PutAll(EMPTY, CONTROL, c.controls);
    var P1 := AddFlat(P0, c, STREAMS_AND_JACKS);
    var Q1 := AddOwners(P1, AVB_INTERFACE, c.interfaces);
    var P2 := AddFlat(Q1, c, CLOCKS);
    var Q2 := AddGroups(P2, LOCALE, STRINGS, c.locales);
    var P3 := AddFlat(Q2, c, SIGNALS);
    FlatOverOwners(P3, c, OBJECTS, CONTROL_BLOCK, c.blocks);
    FlatJoins(Q2, c, SIGNALS, OBJECTS);
    FlatOverGroups(P2, c, SIGNALS + OBJECTS, LOCALE, STRINGS, c.locales);
    FlatJoins(Q1, c, CLOCKS, SIGNALS + OBJECTS);
    FlatOverOwners(P1, c, CLOCKS + (SIGNALS + OBJECTS), AVB_INTERFACE, c.interfaces);
    FlatJoins(P0, c, STREAMS_AND_JACKS, CLOCKS + (SIGNALS + OBJECTS));
    WalkOrderIsFlatTypes();
  }
}
