/** The numeric codes of the enumerators: their positions in the declared orders. */
module Enumerators {
  import opened Wrappers
  import opened Evidence
  import opened Model
  import opened Ordering
  import opened Codec

  // ----- Enumerators: the position in the declared order -----

  const KINDS: seq<MemberKind> :=
    [MemberKind.Node, Accelerator, CpuPackage, MemoryDomain, Nic, Dpu, MemberKind.Switch, StorageEndpoint,
     PowerDomain, CoolingDomain]
  const CLASSES: seq<RelationshipClass> :=
    [Contains, AttachedTo, ConnectedTo, ReachableThrough, SameNode, SameNumaDomain, SameSwitchDomain, SamePowerDomain,
     SameCoolingDomain, SameFailureDomain, StorageLocal, NicLocal, AcceleratorPeer]
  const RACK_LIFECYCLES: seq<RackLifecycle> :=
    [Undeclared, RackLifecycle.Declared, Discovering, Partial, RackLifecycle.Ready, RackLifecycle.Degraded,
     RackLifecycle.RevalidationRequired, RackLifecycle.Retired]
  const LIFECYCLES: seq<MemberLifecycle> :=
    [MemberLifecycle.Unknown, MemberLifecycle.Declared, Present, Unavailable, MemberLifecycle.Superseded, Removed,
     MemberLifecycle.Retired]
  const PUBLISHER_STATES: seq<PublisherState> := [PublisherState.Unknown, Registered, Active, Lost, Fenced]
  const HEALTH_STATES: seq<HealthState> :=
    [HealthState.Unknown, Healthy, HealthState.Degraded, Unhealthy, NotApplicable]
  const READINESS_STATES: seq<ReadinessState> := [ReadinessState.Unknown, ReadinessState.Ready, NotReady]
  const REACHABILITY_STATES: seq<ReachabilityState> := [ReachabilityState.Unknown, Reachable, Unreachable]
  const THROTTLE_STATES: seq<ThrottleState> := [ThrottleState.Unknown, Unthrottled, Throttled, SeverelyThrottled]
  const REASONS: seq<RevalidationReason> :=
    [NoReason, OwnerProcessLost, CoordinatorRestarted, EvidenceExpired, RevalidationReason.Superseded]
  const DOMAIN_KINDS: seq<FailureDomainKind> :=
    [FailureDomainKind.Unknown, FailureDomainKind.Node, Chassis, PowerFeed, Pdu, FailureDomainKind.Switch, NetworkPath,
     FailureDomainKind.CoolingZone, StorageEnclosure, Rack, Other]
  const UNITS: seq<QuantityUnit> :=
    [NoUnit, Watts, Celsius, QuantityUnit.Bytes, Count, BytesPerSecond, GigabitsPerSecond, Megahertz, Volts, Amperes]
  const PROVENANCES: seq<Provenance> :=
    [Provenance.Unknown, Measured, Reported, Derived, Estimated, Synthetic, Reconstructed]
  const DURABILITIES: seq<Durability> := [Durable, Ephemeral]

  function Code<T(==)>(table: seq<T>, x: T): nat {
    if table == [] || table[0] == x then 0 else 1 + Code(table[1..], x)
  }

  function Pick<T>(table: seq<T>, v: Value): T
    requires table != []
  {
    if v.Num? && v.n < |table| then table[v.n] else table[0]
  }

  ghost predicate IsTable<T(!new)>(table: seq<T>) {
    NoRepeats(table) && table != [] && forall x: T :: x in table
  }

  /** Codes and enumerators correspond one to one. */
  ghost predicate Codes<T(!new)>(table: seq<T>) {
    && table != []
    && (forall x: T {:trigger Code(table, x)} :: Pick(table, Num(Code(table, x))) == x)
    && forall v: Value {:trigger Pick(table, v)} :: v.Num? && v.n < |table| ==> Num(Code(table, Pick(table, v))) == v
  }

  lemma {:induction false} CodeFinds<T>(table: seq<T>, x: T)
    requires x in table
    ensures Code(table, x) < |table| && table[Code(table, x)] == x
  {
    if table[0] != x {
      assert table == [table[0]] + table[1..];
      CodeFinds(table[1..], x);
    }
  }

  lemma TableCodes<T(!new)>(table: seq<T>)
    requires IsTable(table)
    ensures Codes(table)
  {
    forall x: T
      ensures Pick(table, Num(Code(table, x))) == x
    {
      CodeFinds(table, x);
    }
    forall v: Value | v.Num? && v.n < |table|
      ensures Num(Code(table, Pick(table, v))) == v
    {
      CodeFinds(table, table[v.n]);
    }
  }

  lemma KindCodes()
    ensures Codes(KINDS)
  {
    hide Codes;
    forall x: MemberKind ensures x in KINDS {
      match x { case Node => case Accelerator => case CpuPackage => case MemoryDomain => case Nic => case Dpu =>
        case Switch => case StorageEndpoint => case PowerDomain => case CoolingDomain => }
    }
    TableCodes(KINDS);
  }

  lemma ClassCodes()
    ensures Codes(CLASSES)
  {
    hide Codes;
    forall x: RelationshipClass ensures x in CLASSES {
      match x { case Contains => case AttachedTo => case ConnectedTo => case ReachableThrough => case SameNode =>
        case SameNumaDomain => case SameSwitchDomain => case SamePowerDomain => case SameCoolingDomain =>
        case SameFailureDomain => case StorageLocal => case NicLocal => case AcceleratorPeer => }
    }
    TableCodes(CLASSES);
  }

  lemma LifecycleCodes()
    ensures Codes(LIFECYCLES)
  {
    hide Codes;
    forall x: MemberLifecycle ensures x in LIFECYCLES {
      match x { case Unknown => case Declared => case Present => case Unavailable => case Superseded => case Removed =>
        case Retired => }
    }
    TableCodes(LIFECYCLES);
  }

  lemma StateCodes()
    ensures Codes(HEALTH_STATES) && Codes(READINESS_STATES) && Codes(REACHABILITY_STATES) && Codes(THROTTLE_STATES)
  {
    hide Codes;
    forall x: HealthState ensures x in HEALTH_STATES {
      match x { case Unknown => case Healthy => case Degraded => case Unhealthy => case NotApplicable => }
    }
    forall x: ReadinessState ensures x in READINESS_STATES {
      match x { case Unknown => case Ready => case NotReady => }
    }
    forall x: ReachabilityState ensures x in REACHABILITY_STATES {
      match x { case Unknown => case Reachable => case Unreachable => }
    }
    forall x: ThrottleState ensures x in THROTTLE_STATES {
      match x { case Unknown => case Unthrottled => case Throttled => case SeverelyThrottled => }
    }
    TableCodes(HEALTH_STATES);
    TableCodes(READINESS_STATES);
    TableCodes(REACHABILITY_STATES);
    TableCodes(THROTTLE_STATES);
  }

  lemma StampCodes()
    ensures Codes(PROVENANCES) && Codes(DURABILITIES) && Codes(UNITS)
  {
    hide Codes;
    forall x: Provenance ensures x in PROVENANCES {
      match x { case Unknown => case Measured => case Reported => case Derived => case Estimated => case Synthetic =>
        case Reconstructed => }
    }
    forall x: Durability ensures x in DURABILITIES {
      match x { case Durable => case Ephemeral => }
    }
    forall x: QuantityUnit ensures x in UNITS {
      match x { case NoUnit => case Watts => case Celsius => case Bytes => case Count => case BytesPerSecond =>
        case GigabitsPerSecond => case Megahertz => case Volts => case Amperes => }
    }
    TableCodes(PROVENANCES);
    TableCodes(DURABILITIES);
    TableCodes(UNITS);
  }

  lemma AuthorityCodes()
    ensures Codes(RACK_LIFECYCLES) && Codes(PUBLISHER_STATES) && Codes(REASONS)
  {
    hide Codes;
    forall x: RackLifecycle ensures x in RACK_LIFECYCLES {
      match x { case Undeclared => case Declared => case Discovering => case Partial => case Ready => case Degraded =>
        case RevalidationRequired => case Retired => }
    }
    forall x: PublisherState ensures x in PUBLISHER_STATES {
      match x { case Unknown => case Registered => case Active => case Lost => case Fenced => }
    }
    forall x: RevalidationReason ensures x in REASONS {
      match x { case NoReason => case OwnerProcessLost => case CoordinatorRestarted => case EvidenceExpired =>
        case Superseded => }
    }
    TableCodes(RACK_LIFECYCLES);
    TableCodes(PUBLISHER_STATES);
    TableCodes(REASONS);
  }

  lemma DomainKindCodes()
    ensures Codes(DOMAIN_KINDS)
  {
    hide Codes;
    forall x: FailureDomainKind ensures x in DOMAIN_KINDS {
      match x { case Unknown => case Node => case Chassis => case PowerFeed => case Pdu => case Switch =>
        case NetworkPath => case CoolingZone => case StorageEnclosure => case Rack => case Other => }
    }
    TableCodes(DOMAIN_KINDS);
  }

  lemma AllCodes()
    ensures Codes(KINDS) && Codes(CLASSES) && Codes(LIFECYCLES) && Codes(DOMAIN_KINDS)
    ensures Codes(RACK_LIFECYCLES) && Codes(PUBLISHER_STATES) && Codes(REASONS)
    ensures Codes(HEALTH_STATES) && Codes(READINESS_STATES) && Codes(REACHABILITY_STATES) && Codes(THROTTLE_STATES)
    ensures Codes(PROVENANCES) && Codes(DURABILITIES) && Codes(UNITS)
  {
    hide Codes;
    KindCodes();
    ClassCodes();
    LifecycleCodes();
    StateCodes();
    StampCodes();
    AuthorityCodes();
    DomainKindCodes();
  }

  lemma KindAtRank(k: MemberKind)
    ensures KindRank(k) < |KINDS| && KINDS[KindRank(k)] == k
  {
  }

  lemma ClassAtRank(c: RelationshipClass)
    ensures ClassRank(c) < |CLASSES| && CLASSES[ClassRank(c)] == c
  {
  }

  /** Keys are ordered by the codes their kinds and classes are written as. */
  lemma RanksAreCodes(k: MemberKind, c: RelationshipClass)
    ensures KindRank(k) == Code(KINDS, k) && ClassRank(c) == Code(CLASSES, c)
  {
    hide Code, KindRank, ClassRank;
    KindCodes();
    ClassCodes();
    KindAtRank(k);
    ClassAtRank(c);
    assert Pick(KINDS, Num(KindRank(k))) == k && Pick(CLASSES, Num(ClassRank(c))) == c;
  }
}
