/** The walk over a configuration as nine stages, and which stage emits which types. */
module Stages {
  import opened Wire
  import opened AemModel
  import opened Pools
  import opened Counts
  import opened Codec

  function KindOf(n: nat): Kind { if n == 6 then Audio else if n == 7 then Video else Sensor }

  function UnitsOf(c: Configuration, n: nat): seq<Unit> {
    if n == 6 then c.audioUnits else if n == 7 then c.videoUnits else c.sensorUnits
  }

  /** The pools after the first n stages. */
  ghost function Stage(c: Configuration, n: nat): (P: Pools) {
    if n == 0 then EMPTY else
      var P := Stage(c, n - 1);
      match n
      case 1 => PutAll(P, CONTROL, c.controls)
      case 2 => AddFlat(P, c, FLAT_TYPES)
      case 3 => AddOwners(P, AVB_INTERFACE, c.interfaces)
      case 4 => AddGroups(P, LOCALE, STRINGS, c.locales)
      case 5 => AddOwners(P, CONTROL_BLOCK, c.blocks)
      case 6 => AddGroups(P, PTP_INSTANCE, PTP_PORT, c.ptpInstances)
      case _ => AddUnits(P, KindOf(n - 1), UnitsOf(c, n - 1))
  }

  lemma StagesAreTheWalk(c: Configuration)
    ensures Stage(c, 6) == AddTopLevel(c) && Stage(c, 9) == AddConfiguration(c)
  {
    hide AddUnits, AddOwners, AddGroups, AddFlat, PutAll;
    var P1 := PutAll(EMPTY, CONTROL, c.controls);
    assert Stage(c, 0) == EMPTY;
    assert Stage(c, 1) == P1;
    assert Stage(c, 2) == AddFlat(P1, c, FLAT_TYPES);
    assert Stage(c, 3) == AddOwners(Stage(c, 2), AVB_INTERFACE, c.interfaces);
    assert Stage(c, 4) == AddGroups(Stage(c, 3), LOCALE, STRINGS, c.locales);
    assert Stage(c, 5) == AddOwners(Stage(c, 4), CONTROL_BLOCK, c.blocks);
    assert Stage(c, 6) == AddGroups(Stage(c, 5), PTP_INSTANCE, PTP_PORT, c.ptpInstances);
    assert Stage(c, 7) == AddUnits(Stage(c, 6), Audio, c.audioUnits);
    assert Stage(c, 8) == AddUnits(Stage(c, 7), Video, c.videoUnits);
    assert Stage(c, 9) == AddUnits(Stage(c, 8), Sensor, c.sensorUnits);
  }

  predicate Touches(n: nat, t: nat) {
    match n
    case 0 => t == CONTROL
    case 1 => t in FLAT_TYPES
    case 2 => t == CONTROL || t == AVB_INTERFACE
    case 3 => t == LOCALE || t == STRINGS
    case 4 => t == CONTROL || t == CONTROL_BLOCK
    case 5 => t == PTP_INSTANCE || t == PTP_PORT
    case _ => t in {UnitType(KindOf(n)), CONTROL, ClusterType(KindOf(n)), MapType(KindOf(n))}
              || STREAM_PORT_INPUT <= t <= INTERNAL_PORT_OUTPUT
  }

  lemma StageGrows(c: Configuration, n: nat)
    requires n < 9
    ensures Extends(Stage(c, n), Stage(c, n + 1))
  {
    hide AddUnits, AddOwners, AddGroups, AddFlat;
    var P := Stage(c, n);
    match n {
      case 0 =>
      case 1 => FlatGrows(P, c, FLAT_TYPES);
      case 2 => OwnersGrow(P, AVB_INTERFACE, c.interfaces);
      case 3 => GroupsGrow(P, LOCALE, STRINGS, c.locales);
      case 4 => OwnersGrow(P, CONTROL_BLOCK, c.blocks);
      case 5 => GroupsGrow(P, PTP_INSTANCE, PTP_PORT, c.ptpInstances);
      case _ => UnitsGrow(P, KindOf(n), UnitsOf(c, n));
    }
  }

  lemma {:induction false} StagesGrow(c: Configuration, i: nat, n: nat)
    requires i <= n <= 9
    ensures Extends(Stage(c, i), Stage(c, n))
    decreases n
  {
    hide Stage;
    if i < n {
      StagesGrow(c, i, n - 1);
      StageGrows(c, n - 1);
      ExtendsTransitive(Stage(c, i), Stage(c, n - 1), Stage(c, n));
    }
  }

  lemma StageSkips(c: Configuration, n: nat, t: nat)
    requires WfConfiguration(c) && n < 9 && !Touches(n, t)
    ensures At(Stage(c, n + 1), t) == At(Stage(c, n), t)
  {
    hide AddUnits, AddOwners, AddGroups, AddFlat;
    var P := Stage(c, n);
    StageGrows(c, n);
    match n {
      case 0 =>
      case 1 => FlatCounted(P, c, FLAT_TYPES, t); FlatCountOther(c, FLAT_TYPES, t);
      case 2 => OwnersCounted(P, AVB_INTERFACE, c.interfaces, t); OwnersCountOther(AVB_INTERFACE, c.interfaces, t);
      case 3 => GroupsCounted(P, LOCALE, STRINGS, c.locales, t); GroupsCountOther(LOCALE, STRINGS, c.locales, t);
      case 4 => OwnersCounted(P, CONTROL_BLOCK, c.blocks, t); OwnersCountOther(CONTROL_BLOCK, c.blocks, t);
      case 5 => GroupsCounted(P, PTP_INSTANCE, PTP_PORT, c.ptpInstances, t); GroupsCountOther(PTP_INSTANCE, PTP_PORT, c.ptpInstances, t);
      case _ => UnitsCounted(P, KindOf(n), UnitsOf(c, n), t); UnitsCountOther(KindOf(n), UnitsOf(c, n), t);
    }
    Untouched(P, Stage(c, n + 1), t);
  }

  /** A type keeps its pool over stages that do not touch it. */
  lemma {:induction false} StagesSkip(c: Configuration, i: nat, n: nat, t: nat)
    requires WfConfiguration(c) && i <= n <= 9 && forall m: nat :: i <= m < n ==> !Touches(m, t)
    ensures At(Stage(c, n), t) == At(Stage(c, i), t)
    decreases n
  {
    hide Stage;
    if i < n {
      StagesSkip(c, i, n - 1, t);
      StageSkips(c, n - 1, t);
    }
  }

  lemma StartsEmpty(c: Configuration, t: nat)
    ensures At(Stage(c, 0), t) == []
  {
    EmptySizes(t);
  }

  /** A type only stage n touches starts empty there and is complete after it. */
  lemma OneStage(c: Configuration, n: nat, t: nat)
    requires WfConfiguration(c) && n < 9 && forall m: nat :: m < 9 && m != n ==> !Touches(m, t)
    ensures At(Stage(c, n), t) == [] && At(AddConfiguration(c), t) == At(Stage(c, n + 1), t)
  {
    hide Stage, AddConfiguration, Touches, WfConfiguration;
    StagesSkip(c, 0, n, t);
    StartsEmpty(c, t);
    StagesSkip(c, n + 1, 9, t);
    StagesAreTheWalk(c);
  }

  lemma {:induction false} StageEncodable(c: Configuration, n: nat)
    requires WfConfiguration(c) && n <= 9 && Fits(Stage(c, n))
    ensures AllEncodable(Stage(c, n))
  {
    hide Fits, AllEncodable, AddUnits, AddOwners, AddGroups, AddFlat, PutAll, WfUnit, WfOwner, WfGroup;
    if n == 0 {
      EmptyEncodable();
    } else {
      var P := Stage(c, n - 1);
      StageGrows(c, n - 1);
      FitsEarlier(P, Stage(c, n));
      StageEncodable(c, n - 1);
      match n - 1 {
        case 0 => PutAllEncodable(P, CONTROL, c.controls);
        case 1 => FlatEncodable(P, c, FLAT_TYPES);
        case 2 => OwnersEncodable(P, AVB_INTERFACE, c.interfaces);
        case 3 => GroupsEncodable(P, LOCALE, STRINGS, c.locales);
        case 4 => OwnersEncodable(P, CONTROL_BLOCK, c.blocks);
        case 5 => GroupsEncodable(P, PTP_INSTANCE, PTP_PORT, c.ptpInstances);
        case _ => UnitsEncodable(P, KindOf(n - 1), UnitsOf(c, n - 1));
      }
    }
  }

  lemma EmptyEncodable()
    ensures AllEncodable(EMPTY)
  {
    forall t ensures At(EMPTY, t) == [] {
      EmptySizes(t);
    }
  }

  /** Once the counts fit, everything the walk emits can be written. */
  lemma ConfigurationEncodable(c: Configuration)
    requires WfConfiguration(c) && Fits(AddConfiguration(c))
    ensures AllEncodable(AddConfiguration(c))
  {
    hide Stage, AddConfiguration, Fits, AllEncodable;
    StagesAreTheWalk(c);
    StageEncodable(c, 9);
  }
}
