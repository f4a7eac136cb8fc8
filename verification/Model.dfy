/** The records of a rack. */
module Model {
  import opened Bytes
  import opened Wrappers
  import opened Evidence

  // ----- Identities -----

  const MAX_IDENTITY_LENGTH: nat := 128

  predicate IsIdentityChar(c: byte) {
    || 0x30 <= c <= 0x39   // digits
    || 0x61 <= c <= 0x7A   // lower case
    || 0x41 <= c <= 0x5A   // upper case
    || c == 0x2D || c == 0x5F || c == 0x2E || c == 0x3A || c == 0x40 || c == 0x2B
  }

  /** A bounded, non-empty string of identity characters without two dots in a row. */
  predicate IsIdentity(id: Text) {
    && 0 < |id| <= MAX_IDENTITY_LENGTH
    && (forall i :: 0 <= i < |id| ==> IsIdentityChar(id[i]))
    && id != [0x2E]
    && forall i :: 0 <= i < |id| - 1 ==> !(id[i] == 0x2E && id[i + 1] == 0x2E)
  }

  predicate IsLabel(text: Text) {
    && 0 < |text| <= MAX_IDENTITY_LENGTH
    && forall i :: 0 <= i < |text| ==> 0x20 <= text[i] <= 0x7E
  }

  datatype MemberKind =
    Node | Accelerator | CpuPackage | MemoryDomain | Nic | Dpu | Switch | StorageEndpoint | PowerDomain | CoolingDomain

  datatype MemberKey = MemberKey(kind: MemberKind, id: Text)

  datatype RelationshipClass =
    | Contains | AttachedTo | ConnectedTo | ReachableThrough | SameNode | SameNumaDomain | SameSwitchDomain
    | SamePowerDomain | SameCoolingDomain | SameFailureDomain | StorageLocal | NicLocal | AcceleratorPeer

  predicate IsSymmetric(c: RelationshipClass) {
    || c.ConnectedTo? || c.SameNode? || c.SameNumaDomain? || c.SameSwitchDomain? || c.SamePowerDomain?
    || c.SameCoolingDomain? || c.SameFailureDomain? || c.AcceleratorPeer?
  }

  datatype RelationshipKey = RelationshipKey(cls: RelationshipClass, from: MemberKey, to: MemberKey)

  // ----- States -----

  datatype RackLifecycle =
    Undeclared | Declared | Discovering | Partial | Ready | Degraded | RevalidationRequired | Retired

  datatype MemberLifecycle = Unknown | Declared | Present | Unavailable | Superseded | Removed | Retired

  predicate IsCurrentMember(l: MemberLifecycle) { l.Present? || l.Unavailable? }

  datatype PublisherState = Unknown | Registered | Active | Lost | Fenced

  datatype HealthState = Unknown | Healthy | Degraded | Unhealthy | NotApplicable

  predicate IsPositiveHealth(h: HealthState) { h.Healthy? || h.NotApplicable? }

  datatype ReadinessState = Unknown | Ready | NotReady

  datatype ReachabilityState = Unknown | Reachable | Unreachable

  datatype ThrottleState = Unknown | Unthrottled | Throttled | SeverelyThrottled

  datatype RevalidationReason = NoReason | OwnerProcessLost | CoordinatorRestarted | EvidenceExpired | Superseded

  datatype FailureDomainKind =
    Unknown | Node | Chassis | PowerFeed | Pdu | Switch | NetworkPath | CoolingZone | StorageEnclosure | Rack | Other

  datatype QuantityUnit =
    NoUnit | Watts | Celsius | Bytes | Count | BytesPerSecond | GigabitsPerSecond | Megahertz | Volts | Amperes

  type Health = EvidenceValue<HealthState>
  type Readiness = EvidenceValue<ReadinessState>
  type Reachability = EvidenceValue<ReachabilityState>
  type Throttling = EvidenceValue<ThrottleState>

  const NO_HEALTH: Health := EvidenceValue(HealthState.Unknown, NO_EVIDENCE)
  const NO_READINESS: Readiness := EvidenceValue(ReadinessState.Unknown, NO_EVIDENCE)
  const NO_REACHABILITY: Reachability := EvidenceValue(ReachabilityState.Unknown, NO_EVIDENCE)

  // ----- Quantities: a double is its 64 bits -----

  datatype Quantity = Quantity(value: u64, unit: QuantityUnit, uncertainty: Option<u64>, stamp: Stamp)

  predicate IsFinite(bits: u64) { (bits / 0x10_0000_0000_0000) % 2048 != 2047 }

  predicate IsNotANumber(bits: u64) { !IsFinite(bits) && bits % 0x10_0000_0000_0000 != 0 }

  /** Below zero: the sign bit is set on anything but a zero. */
  predicate IsNegative(bits: u64) { bits > 0x8000_0000_0000_0000 }

  // ----- Members -----

  datatype CapabilityRef = CapabilityRef(id: Text, stamp: Stamp, value: Option<Text>)

  /** One optional attribute of a detail record. */
  datatype Field =
    | Absent
    | TextField(text: Text)
    | NumberField(number: u64)
    | QuantityField(quantity: Quantity)

  /** A detail record: the attributes of its kind, in their declared order. */
  datatype MemberDetails = NoDetails | Details(kind: MemberKind, fields: seq<Field>)

  predicate DetailsMatchKind(kind: MemberKind, details: MemberDetails) {
    details.Details? ==> details.kind == kind
  }

  datatype MemberRecord = MemberRecord(
    key: MemberKey,
    lifecycle: MemberLifecycle,
    generation: u64,
    publicationGeneration: u64,
    stamp: Stamp,
    revalidationReason: RevalidationReason,
    ownerWorker: Option<Text>,
    ownerBoot: Option<Text>,
    parent: Option<MemberKey>,
    failureDomains: seq<Text>,
    powerDomain: Option<Text>,
    coolingDomain: Option<Text>,
    switchDomain: Option<Text>,
    health: Health,
    readiness: Readiness,
    reachability: Reachability,
    capabilities: seq<CapabilityRef>,
    details: MemberDetails,
    source: Option<Text>)
  {
    function Revalidate(required: bool, reason: RevalidationReason): MemberRecord {
      this.(stamp := stamp.(revalidationRequired := required), revalidationReason := reason)
    }
  }

  datatype RelationshipRecord = RelationshipRecord(
    key: RelationshipKey,
    stamp: Stamp,
    generation: u64,
    ownerWorker: Option<Text>,
    ownerBoot: Option<Text>,
    link: Option<Text>,
    capacity: Option<Quantity>,
    source: Option<Text>)

  datatype FailureDomainRecord = FailureDomainRecord(
    id: Text,
    kind: FailureDomainKind,
    lifecycle: MemberLifecycle,
    parents: seq<Text>,
    generation: u64,
    stamp: Stamp,
    ownerWorker: Option<Text>,
    ownerBoot: Option<Text>,
    labelText: Option<Text>,
    source: Option<Text>)

  datatype PowerDomainBudget = PowerDomainBudget(
    domain: Text, limit: Option<Quantity>, observedDraw: Option<Quantity>, headroom: Option<Quantity>)

  datatype PowerEnvelope = PowerEnvelope(
    generation: u64,
    rackLimit: Option<Quantity>,
    rackObservedDraw: Option<Quantity>,
    rackHeadroom: Option<Quantity>,
    domainBudgets: seq<PowerDomainBudget>,
    stamp: Stamp,
    ownerWorker: Option<Text>,
    ownerBoot: Option<Text>,
    source: Option<Text>)

  datatype CoolingZone = CoolingZone(
    zone: Text,
    designThermalLimit: Option<Quantity>,
    observedTemperature: Option<Quantity>,
    coolingCapacity: Option<Quantity>,
    thermalHeadroom: Option<Quantity>,
    throttling: Option<Throttling>)

  datatype CoolingEnvelope = CoolingEnvelope(
    generation: u64,
    zones: seq<CoolingZone>,
    stamp: Stamp,
    ownerWorker: Option<Text>,
    ownerBoot: Option<Text>,
    source: Option<Text>)

  // ----- Authority -----

  datatype AuthorityToken = AuthorityToken(
    coordinatorEpoch: u64, boot: Option<Text>, publicationGeneration: Option<u64>, rack: Option<Text>)

  datatype PublisherRecord = PublisherRecord(
    worker: Text,
    boot: Text,
    coordinatorEpoch: u64,
    publicationGeneration: u64,
    state: PublisherState,
    registeredAt: i64,
    lastSeenAt: i64,
    leaseMillis: i64,
    labelText: Option<Text>,
    acceptedMutations: u64,
    rejectedMutations: u64)

  datatype FencedBootRecord = FencedBootRecord(
    boot: Text, worker: Option<Text>, fencedUnderEpoch: u64, fencedAt: i64, reason: RevalidationReason)

  datatype RackRecord = RackRecord(
    id: Text, epoch: Text, generation: u64, retired: bool, labelText: Option<Text>, declaredAt: i64)

  datatype GenerationSet = GenerationSet(
    rack: u64,
    membership: u64,
    topology: u64,
    failureDomains: u64,
    constraints: u64,
    power: u64,
    cooling: u64,
    health: u64,
    capabilities: u64,
    coordinatorEpoch: u64)

  datatype RackSnapshot = RackSnapshot(
    id: Text,
    generation: u64,
    publicationGeneration: u64,
    createdAt: i64,
    rack: Text,
    rackEpoch: Text,
    generations: GenerationSet,
    lifecycle: RackLifecycle,
    members: seq<MemberRecord>,
    relationships: seq<RelationshipRecord>,
    failureDomains: seq<FailureDomainRecord>,
    power: Option<PowerEnvelope>,
    cooling: Option<CoolingEnvelope>,
    digest: string)

  /** What the digest of a snapshot is computed over. */
  function WithoutDigest(x: RackSnapshot): RackSnapshot {
    x.(digest := "")
  }

  // ----- Configuration -----

  datatype Limits = Limits(
    maxFrameBytes: nat,
    maxPayloadBytes: nat,
    maxStringBytes: nat,
    maxCollectionItems: nat,
    maxMembers: nat,
    maxRelationships: nat,
    maxFailureDomains: nat,
    maxCapabilitiesPerMember: nat,
    maxFailureDomainsPerMember: nat,
    maxConnections: nat,
    maxPersistedBytes: nat,
    maxRetainedSnapshots: nat,
    maxFencedBoots: nat,
    publisherLeaseMillis: i64)

  datatype ReadinessContract = ReadinessContract(
    minNodes: nat,
    minAccelerators: nat,
    minDistinctFailureDomains: nat,
    requireTopology: bool,
    requireFailureDomains: bool,
    requirePowerEnvelope: bool,
    requireCoolingEnvelope: bool,
    requireAllMembersCurrent: bool,
    requireMemberHealth: bool,
    requireActivePublisher: bool,
    requirePhysicalProvenance: bool)

  /** The authoritative records of one rack; everything else the program keeps is derived from them. */
  datatype Core = Core(
    rack: Option<RackRecord>,
    members: map<MemberKey, MemberRecord>,
    relationships: map<RelationshipKey, RelationshipRecord>,
    failureDomains: map<Text, FailureDomainRecord>,
    power: Option<PowerEnvelope>,
    cooling: Option<CoolingEnvelope>,
    publishers: map<Text, PublisherRecord>,
    fencedBoots: map<Text, FencedBootRecord>,
    snapshots: map<u64, RackSnapshot>,
    generations: GenerationSet,
    snapshotGeneration: u64,
    operatorPublication: u64)
}
