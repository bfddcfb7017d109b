/** What decompiling keeps of a tree, once its descriptors hold the octets their parsers keep: everything except
    symbols, which are erased, and the inline controls of interfaces and control blocks, which end up at
    configuration level while their owners keep the allocated count and base. */
module NormalForm {
  import opened Wire
  import opened AemModel
  import opened Pools

  function EraseLeaves(s: seq<Leaf>): (r: seq<Leaf>)
    ensures |r| == |s| && forall i :: 0 <= i < |r| ==> r[i] == Leaf(s[i].octets, None)
  {
    seq(|s|, i requires 0 <= i < |s| => Leaf(s[i].octets, None))
  }

  function ErasePort(p: Port): (r: Port) {
    Port(p.head, p.tail, EraseLeaves(p.controls), EraseLeaves(p.clusters), EraseLeaves(p.maps), None)
  }

  function ErasePorts(s: seq<Port>): (r: seq<Port>)
    ensures |r| == |s| && forall i :: 0 <= i < |r| ==> r[i] == ErasePort(s[i])
  {
    seq(|s|, i requires 0 <= i < |s| => ErasePort(s[i]))
  }

  function EraseUnit(u: Unit): (r: Unit) {
    Unit(u.head, u.tail, EraseLeaves(u.controls),
         seq(|u.ports|, j requires 0 <= j < |u.ports| => ErasePorts(u.ports[j])), None)
  }

  function EraseUnits(s: seq<Unit>): (r: seq<Unit>)
    ensures |r| == |s| && forall i :: 0 <= i < |r| ==> r[i] == EraseUnit(s[i])
  {
    seq(|s|, i requires 0 <= i < |s| => EraseUnit(s[i]))
  }

  function EraseGroups(s: seq<Group>): (r: seq<Group>)
    ensures |r| == |s| && forall i :: 0 <= i < |r| ==> r[i] == Group(s[i].head, EraseLeaves(s[i].members), None)
  {
    seq(|s|, i requires 0 <= i < |s| => Group(s[i].head, EraseLeaves(s[i].members), None))
  }

  /** All inline controls of a list of owners, in order. */
  function Inlined(os: seq<Owner>): (r: seq<Leaf>) {
    if os == [] then [] else Inlined(os[..|os| - 1]) + os[|os| - 1].controls
  }

  function NormalOwner(o: Owner, base: nat): (r: Owner) {
    Owner(o.head, OwnerRange(o, base).count, OwnerRange(o, base).base, o.tail, [], None)
  }

  /** `base` is the control index the walk has reached before the first of these owners. */
  function NormalOwners(os: seq<Owner>, base: nat): (r: seq<Owner>)
    ensures |r| == |os|
  {
    if os == [] then [] else
      var init := os[..|os| - 1];
      NormalOwners(init, base) + [NormalOwner(os[|os| - 1], base + |Inlined(init)|)]
  }

  function NormalConfiguration(c: Configuration): (r: Configuration)
    requires WfConfiguration(c)
  {
    Configuration(c.head, EraseLeaves(c.controls + Inlined(c.interfaces) + Inlined(c.blocks)),
                  map t <- FLAT_TYPES :: EraseLeaves(c.flat[t]),
                  NormalOwners(c.interfaces, |c.controls|), EraseGroups(c.locales),
                  NormalOwners(c.blocks, |c.controls| + |Inlined(c.interfaces)|), EraseGroups(c.ptpInstances),
                  EraseUnits(c.audioUnits), EraseUnits(c.videoUnits), EraseUnits(c.sensorUnits), None)
  }

  lemma NormalFormWellFormed(c: Configuration)
    requires WfConfiguration(c)
    ensures WfConfiguration(NormalConfiguration(c))
  {
    var n := NormalConfiguration(c);
    OwnersWellFormed(AVB_INTERFACE, c.interfaces, |c.controls|);
    OwnersWellFormed(CONTROL_BLOCK, c.blocks, |c.controls| + |Inlined(c.interfaces)|);
    UnitsWellFormed(c.audioUnits);
    UnitsWellFormed(c.videoUnits);
    UnitsWellFormed(c.sensorUnits);
    assert forall g <- n.locales :: WfGroup(LOCALE, g) by {
      assert forall i :: 0 <= i < |n.locales| ==> c.locales[i] in c.locales && n.locales[i].head == c.locales[i].head;
    }
    assert forall g <- n.ptpInstances :: WfGroup(PTP_INSTANCE, g) by {
      assert forall i :: 0 <= i < |n.ptpInstances| ==>
        c.ptpInstances[i] in c.ptpInstances && n.ptpInstances[i].head == c.ptpInstances[i].head;
    }
  }

  lemma UnitsWellFormed(us: seq<Unit>)
    requires forall u <- us :: WfUnit(u)
    ensures forall u <- EraseUnits(us) :: WfUnit(u)
  {
    forall u <- EraseUnits(us) ensures WfUnit(u) {
      var i :| 0 <= i < |us| && u == EraseUnit(us[i]);
      assert us[i] in us;
      forall j | 0 <= j < 6 ensures forall p <- u.ports[j] :: WfPort(j, p) {
        assert forall n :: 0 <= n < |u.ports[j]| ==> us[i].ports[j][n] in us[i].ports[j] && u.ports[j][n] == ErasePort(us[i].ports[j][n]);
      }
    }
  }

  lemma {:induction false} OwnersWellFormed(t: nat, os: seq<Owner>, base: nat)
    requires forall o <- os :: WfOwner(t, o)
    ensures forall o <- NormalOwners(os, base) :: WfOwner(t, o)
  {
    if os != [] {
      OwnersWellFormed(t, os[..|os| - 1], base);
      assert os[|os| - 1] in os;
    }
  }
}
