/** The coordinator as a state machine on values: what every mutation does to the authoritative records. */
module Machine {
  import opened Bytes
  import opened Wrappers
  import opened Evidence
  import opened Model
  import opened Ordering
  import opened Graph
  import opened RackReadiness

  datatype Outcome =
    | Accepted | NoChange | RejectStaleCoordinatorEpoch | RejectStaleWorkerBoot | RejectStaleGeneration
    | RejectNotAuthorized | RejectConflict | RejectInvalidRelationship | RejectUnknownParent | RejectRetired
    | RejectInvalidInput | RejectLimitExceeded | RejectUnknownRack | RejectNotRegistered | RejectUnknownMember
    | RejectRackRetired
  {
    predicate IsRejection() { !Accepted? && !NoChange? }
  }

  /** Configuration, and the two computations the model leaves open: the digest and double subtraction. */
  datatype Env = Env(
    limits: Limits,
    contract: ReadinessContract,
    digest: RackSnapshot -> string,
    subtract: (u64, u64) -> u64)

  datatype WithdrawScope = All | OfHealth | OfReadiness | OfReachability | OfCapabilities | OfDetails

  datatype Event =
    | RegisterPublisher(
        rack: Option<Text>, worker: Option<Text>, boot: Option<Text>, epoch: u64, labelText: Option<Text>)
    | DeclareRack(authority: AuthorityToken, rackEpoch: Option<Text>, labelText: Option<Text>, redeclare: bool)
    | PublishMember(
        authority: AuthorityToken, record: MemberRecord, expectedGeneration: Option<u64>, supersede: bool)
    | PublishRelationship(
        authority: AuthorityToken, relationship: RelationshipRecord, expectedGeneration: Option<u64>)
    | PublishFailureDomain(
        authority: AuthorityToken, domain: FailureDomainRecord, expectedGeneration: Option<u64>)
    | PublishPower(authority: AuthorityToken, power: PowerEnvelope, expectedGeneration: Option<u64>)
    | PublishCooling(authority: AuthorityToken, cooling: CoolingEnvelope, expectedGeneration: Option<u64>)
    | PublishHealth(
        authority: AuthorityToken, member: MemberKey, health: Health, readiness: Readiness, publishReadiness: bool,
        expectedGeneration: Option<u64>)
    | PublishCapability(authority: AuthorityToken, member: MemberKey, capability: Option<CapabilityRef>)
    | WithdrawEvidence(authority: AuthorityToken, member: MemberKey, scope: WithdrawScope)
    | WithdrawRelationship(authority: AuthorityToken, key: RelationshipKey)
    | MarkUnavailable(authority: AuthorityToken, member: MemberKey, reason: RevalidationReason)
    | RetireMember(authority: AuthorityToken, member: MemberKey)
    | RetireRack(authority: AuthorityToken)
    | RevalidateMembers(authority: AuthorityToken, members: seq<MemberKey>, all: bool)
    | Heartbeat(authority: AuthorityToken)
    | FencePublisher(epoch: u64, boot: Option<Text>, reason: RevalidationReason)
    | ExpirePublishers
    | PublishSnapshot(authority: AuthorityToken)

  datatype Step = Step(state: Core, outcome: Outcome)

  // ----- Validation of what a request carries -----

  const MAX_TTL_MILLIS: int := 86_400_000

  predicate ValidEvidence(stamp: Stamp) {
    && 0 <= stamp.ttl <= MAX_TTL_MILLIS
    && !(stamp.durability.Ephemeral? && stamp.ttl == 0)
    && (stamp.HasEvidence() <==> stamp.observedAt > 0)
  }

  predicate ValidQuantity(q: Quantity, unit: QuantityUnit) {
    && !q.unit.NoUnit?
    && IsFinite(q.value) && !IsNegative(q.value)
    && q.unit == unit
    && (q.uncertainty.Some? ==> IsFinite(q.uncertainty.value) && !IsNegative(q.uncertainty.value))
    && ValidEvidence(q.stamp)
  }

  predicate ValidIfPresent(q: Option<Quantity>, unit: QuantityUnit) {
    q.Some? ==> ValidQuantity(q.value, unit)
  }

  predicate ValidCapability(c: CapabilityRef) {
    IsIdentity(c.id) && (c.value.Some? ==> IsLabel(c.value.value)) && ValidEvidence(c.stamp)
  }

  predicate ValidMemberRecord(r: MemberRecord, limits: Limits) {
    && IsIdentity(r.key.id)
    && DetailsMatchKind(r.key.kind, r.details)
    && (r.source.Some? ==> IsLabel(r.source.value))
    && |r.failureDomains| <= limits.maxFailureDomainsPerMember
    && |r.capabilities| <= limits.maxCapabilitiesPerMember
    && ValidEvidence(r.stamp)
    && !(r.lifecycle.Present? && !r.stamp.HasEvidence())
    && (r.health.stamp.HasEvidence() ==> ValidEvidence(r.health.stamp))
    && (r.readiness.stamp.HasEvidence() ==> ValidEvidence(r.readiness.stamp))
    && (r.reachability.stamp.HasEvidence() ==> ValidEvidence(r.reachability.stamp))
    && forall i :: 0 <= i < |r.capabilities| ==> ValidCapability(r.capabilities[i])
  }

  // ----- Authority -----

  datatype Authority = Granted(publisher: Option<Text>) | Denied(outcome: Outcome)

  predicate IsOutdated(p: PublisherState) { p.Lost? || p.Fenced? }

  function CheckAuthority(s: Core, token: AuthorityToken, rackScoped: bool): Authority {
    if token.coordinatorEpoch != s.generations.coordinatorEpoch then Denied(RejectStaleCoordinatorEpoch)
    else if rackScoped && s.rack.None? then Denied(RejectUnknownRack)
    else if rackScoped && token.rack.None? then Denied(RejectInvalidInput)
    else if rackScoped && token.rack.value != s.rack.value.id then Denied(RejectUnknownRack)
    else if s.rack.Some? && s.rack.value.retired then Denied(RejectRackRetired)
    else if token.boot.None? then Granted(None)
    else CheckPublisher(s, token.boot.value, token.publicationGeneration)
  }

  function CheckPublisher(s: Core, boot: Text, expected: Option<u64>): Authority {
    if boot in s.fencedBoots then Denied(RejectStaleWorkerBoot)
    else if boot !in s.publishers then Denied(RejectNotRegistered)
    else if IsOutdated(s.publishers[boot].state) then Denied(RejectStaleWorkerBoot)
    else if s.publishers[boot].coordinatorEpoch != s.generations.coordinatorEpoch then
      Denied(RejectStaleCoordinatorEpoch)
    else if expected.Some? && expected.value < s.publishers[boot].publicationGeneration then
      Denied(RejectStaleGeneration)
    else if expected.Some? && expected.value > s.publishers[boot].publicationGeneration then Denied(RejectConflict)
    else Granted(Some(boot))
  }

  predicate OwnerConflict(owner: Option<Text>, token: AuthorityToken) {
    token.boot.Some? && owner.Some? && owner.value != token.boot.value
  }

  /** A mutation count is a machine word: it wraps. */
  function Bump(n: u64): u64 { if n == U64_MAX then 0 else n + 1 }

  function NoteRejection(s: Core, publisher: Option<Text>): Core {
    if publisher.None? || publisher.value !in s.publishers then s
    else
      var p := s.publishers[publisher.value];
      s.(publishers := s.publishers[publisher.value := p.(rejectedMutations := Bump(p.rejectedMutations))])
  }

  function AdvancePublication(s: Core, publisher: Option<Text>): Core {
    if publisher.None? then s.(operatorPublication := Advance(s.operatorPublication))
    else if publisher.value !in s.publishers then s
    else
      var p := s.publishers[publisher.value];
      s.(publishers := s.publishers[publisher.value := p.(
           publicationGeneration := Advance(p.publicationGeneration),
           state := PublisherState.Active,
           acceptedMutations := Bump(p.acceptedMutations))])
  }

  function Reject(s: Core, publisher: Option<Text>, o: Outcome): Step {
    Step(NoteRejection(s, publisher), o)
  }

  /** Ends an authorized request: the commit, nothing at all, or a counted refusal. */
  function Conclude(s: Core, publisher: Option<Text>, o: Outcome, committed: Core): Step {
    if o.Accepted? then Step(committed, Accepted)
    else if o.NoChange? then Step(s, NoChange)
    else Reject(s, publisher, o)
  }

  /** The publication generation a record published under this authority carries. */
  function StampPublication(s: Core, publisher: Option<Text>, r: MemberRecord): MemberRecord {
    if publisher.None? || publisher.value !in s.publishers then r
    else r.(publicationGeneration := s.publishers[publisher.value].publicationGeneration)
  }

  function WorkerOf(s: Core, boot: Option<Text>, otherwise: Option<Text>): Option<Text> {
    if boot.Some? && boot.value in s.publishers then Some(s.publishers[boot.value].worker) else otherwise
  }

  function OwnerOf(boot: Option<Text>, otherwise: Option<Text>): Option<Text> {
    if boot.Some? then boot else otherwise
  }

  // ----- Registration and declaration -----

  function Register(s: Core, limits: Limits, e: Event, now: i64): Step
    requires e.RegisterPublisher?
  {
    if e.rack.None? || e.worker.None? || e.boot.None? then Step(s, RejectInvalidInput)
    else if e.epoch != s.generations.coordinatorEpoch then Step(s, RejectStaleCoordinatorEpoch)
    else if s.rack.None? then Step(s, RejectUnknownRack)
    else if e.rack.value != s.rack.value.id then Step(s, RejectUnknownRack)
    else if s.rack.value.retired then Step(s, RejectRackRetired)
    else if e.boot.value in s.fencedBoots then Step(s, RejectStaleWorkerBoot)
    else if |s.publishers| >= limits.maxConnections && e.boot.value !in s.publishers then Step(s, RejectLimitExceeded)
    else if e.boot.value in s.publishers then
      var p := s.publishers[e.boot.value];
      if IsOutdated(p.state) then Step(s, RejectStaleWorkerBoot)
      else if p.worker != e.worker.value then Step(s, RejectNotAuthorized)
      else
        Step(s.(publishers := s.publishers[e.boot.value := p.(lastSeenAt := now, state := PublisherState.Active)]),
             NoChange)
    else if e.labelText.Some? && !IsLabel(e.labelText.value) then Step(s, RejectInvalidInput)
    else
      var p := PublisherRecord(e.worker.value, e.boot.value, s.generations.coordinatorEpoch, 1, PublisherState.Active,
                               now, now, limits.publisherLeaseMillis, e.labelText, 0, 0);
      Step(s.(publishers := s.publishers[e.boot.value := p]), Accepted)
  }

  /** A new rack incarnation: every earlier observation must be republished. */
  function Redeclared(s: Core, epoch: Text, labelText: Option<Text>, generation: u64, now: i64): Core
    requires s.rack.Some?
  {
    s.(rack := Some(s.rack.value.(epoch := epoch, generation := generation, labelText := labelText, declaredAt := now)),
       members := map k | k in s.members :: s.members[k].Revalidate(true, RevalidationReason.Superseded),
       relationships := map k | k in s.relationships ::
         s.relationships[k].(stamp := s.relationships[k].stamp.(revalidationRequired := true)),
       failureDomains := map d | d in s.failureDomains ::
         s.failureDomains[d].(stamp := s.failureDomains[d].stamp.(revalidationRequired := true)),
       generations := s.generations.(rack := generation))
  }

  function Declare(s: Core, e: Event, now: i64): Step
    requires e.DeclareRack?
  {
    if e.rackEpoch.None? then Step(s, RejectInvalidInput)
    else if !IsIdentity(e.rackEpoch.value) then Step(s, RejectInvalidInput)
    else if e.labelText.Some? && !IsLabel(e.labelText.value) then Step(s, RejectInvalidInput)
    else if e.authority.rack.None? then Step(s, RejectInvalidInput)
    else match CheckAuthority(s, e.authority, false)
      case Denied(o) => Step(s, o)
      case Granted(_) =>
        if s.rack.None? then
          Step(s.(rack := Some(RackRecord(e.authority.rack.value, e.rackEpoch.value, 1, false, e.labelText, now)),
                  generations := s.generations.(rack := 1)),
               Accepted)
        else if s.rack.value.id != e.authority.rack.value then Step(s, RejectConflict)
        else if s.rack.value.epoch == e.rackEpoch.value then
          if e.labelText.Some? && s.rack.value.labelText != e.labelText then Step(s, RejectConflict)
          else Step(s, NoChange)
        else if !e.redeclare then Step(s, RejectConflict)
        else if Next(s.rack.value.generation).None? then Step(s, RejectLimitExceeded)
        else
          Step(Redeclared(s, e.rackEpoch.value, e.labelText, Next(s.rack.value.generation).value, now), Accepted)
  }

  // ----- Members -----

  function SameMemberContent(a: MemberRecord, b: MemberRecord): bool {
    a.(generation := 0, publicationGeneration := 0) == b.(generation := 0, publicationGeneration := 0)
  }

  /** How a publication for an existing member relates to the record it would replace. */
  function JudgeReplacement(existing: MemberRecord, e: Event): Outcome
    requires e.PublishMember?
  {
    var r := e.record;
    if existing.lifecycle.Retired? && !r.lifecycle.Retired? then RejectRetired
    else if OwnerConflict(existing.ownerBoot, e.authority) then RejectNotAuthorized
    else if e.expectedGeneration.Some? then
      if e.expectedGeneration.value < existing.generation then RejectStaleGeneration
      else if e.expectedGeneration.value > existing.generation then RejectConflict
      else Accepted
    else if r.generation != 0 then
      if r.generation < existing.generation then RejectStaleGeneration
      else if r.generation == existing.generation then
        if SameMemberContent(existing, r) then NoChange else RejectConflict
      else if (existing.generation == U64_MAX || r.generation > existing.generation + 1) && !e.supersede then
        RejectConflict
      else Accepted
    else if SameMemberContent(existing, r) then NoChange
    else Accepted
  }

  /** A publication of a retired identity carries no live observation. */
  function WithoutLiveEvidence(r: MemberRecord): MemberRecord {
    r.(stamp := r.stamp.(observedAt := 0, ttl := 0),
       health := NO_HEALTH, readiness := NO_READINESS, reachability := NO_REACHABILITY)
  }

  function Normalized(r: MemberRecord): MemberRecord {
    if r.lifecycle.Retired? then WithoutLiveEvidence(r) else r
  }

  /** Whether the records a member refers to exist, and its parent edge closes no cycle. */
  ghost function JudgeReferences(s: Core, r: MemberRecord): Outcome {
    if r.parent.Some? && r.parent.value == r.key then RejectInvalidRelationship
    else if r.parent.Some? && r.parent.value !in s.members then RejectUnknownParent
    else if r.parent.Some? && Reaches(ParentGraph(s.members), r.parent.value, r.key) then RejectInvalidRelationship
    else JudgeDomainReferences(s, r)
  }

  function JudgeDomainReferences(s: Core, r: MemberRecord): Outcome {
    if exists i :: 0 <= i < |r.failureDomains| && r.failureDomains[i] !in s.failureDomains then RejectUnknownParent
    else if r.powerDomain.Some? && MemberKey(PowerDomain, r.powerDomain.value) !in s.members then RejectUnknownParent
    else if r.coolingDomain.Some? && MemberKey(CoolingDomain, r.coolingDomain.value) !in s.members then
      RejectUnknownParent
    else if r.switchDomain.Some? && MemberKey(MemberKind.Switch, r.switchDomain.value) !in s.members then
      RejectUnknownParent
    else Accepted
  }

  function PreviousGeneration(s: Core, key: MemberKey): u64 {
    if key in s.members then s.members[key].generation else 0
  }

  /** The generation a publication is committed under: the requested one if that is ahead, else the next one. */
  function TargetGeneration(previous: u64, requested: u64): u64 {
    if requested > previous then requested else Advance(previous)
  }

  function Committed(s: Core, token: AuthorityToken, publisher: Option<Text>, r: MemberRecord, generation: u64)
    : MemberRecord
  {
    StampPublication(s, publisher, r.(
      generation := generation,
      ownerBoot := OwnerOf(token.boot, r.ownerBoot),
      ownerWorker := WorkerOf(s, token.boot, r.ownerWorker)))
  }

  function FirstIfUnset(generation: u64): u64 { if generation == 0 then 1 else generation }

  function PutMember(s: Core, r: MemberRecord): Core {
    s.(members := s.members[r.key := r])
  }

  function AdvanceMembership(s: Core): Core {
    s.(generations := s.generations.(membership := Advance(s.generations.membership)))
  }

  ghost function JudgeMember(s: Core, limits: Limits, e: Event): Outcome
    requires e.PublishMember?
  {
    var r := e.record;
    if !ValidMemberRecord(r, limits) then RejectInvalidInput
    else if r.ownerBoot.Some? && e.authority.boot.Some? && r.ownerBoot.value != e.authority.boot.value then
      RejectNotAuthorized
    else if r.key !in s.members && |s.members| >= limits.maxMembers then RejectLimitExceeded
    else if r.key in s.members && !JudgeReplacement(s.members[r.key], e).Accepted? then
      JudgeReplacement(s.members[r.key], e)
    else if !JudgeReferences(s, Normalized(r)).Accepted? then JudgeReferences(s, Normalized(r))
    else if TargetGeneration(PreviousGeneration(s, r.key), r.generation) == PreviousGeneration(s, r.key) then
      RejectLimitExceeded
    else Accepted
  }

  function CommitMember(s: Core, token: AuthorityToken, publisher: Option<Text>, record: MemberRecord): Core {
    var target := TargetGeneration(PreviousGeneration(s, record.key), record.generation);
    var s1 := PutMember(s, Committed(s, token, publisher, Normalized(record), target));
    var g := s1.generations;
    AdvancePublication(
      s1.(generations := g.(membership := Advance(g.membership),
                            health := FirstIfUnset(g.health),
                            capabilities := FirstIfUnset(g.capabilities))),
      publisher)
  }

  ghost function PublishMemberStep(s: Core, limits: Limits, e: Event): Step
    requires e.PublishMember?
  {
    match CheckAuthority(s, e.authority, true)
    case Denied(o) => Step(s, o)
    case Granted(publisher) =>
      Conclude(s, publisher, JudgeMember(s, limits, e), CommitMember(s, e.authority, publisher, e.record))
  }

  // ----- Updates of one existing member -----

  function NextHealth(r: MemberRecord, e: Event): MemberRecord
    requires e.PublishHealth?
  {
    r.(health := if e.health.stamp.HasEvidence() then e.health else NO_HEALTH,
       readiness := if e.publishReadiness then e.readiness else r.readiness)
  }

  function JudgeHealth(r: MemberRecord, e: Event): Outcome
    requires e.PublishHealth?
  {
    if OwnerConflict(r.ownerBoot, e.authority) then RejectNotAuthorized
    else if e.expectedGeneration.Some? && e.expectedGeneration.value < r.generation then RejectStaleGeneration
    else if !ValidEvidence(e.health.stamp) then RejectInvalidInput
    else if e.publishReadiness && !ValidEvidence(e.readiness.stamp) then RejectInvalidInput
    else if r.generation == U64_MAX then RejectLimitExceeded
    else Accepted
  }

  function AdvanceHealth(s: Core): Core {
    s.(generations := s.generations.(health := Advance(s.generations.health)))
  }

  /** Replaces a member by a changed record under the next generation. */
  function Update(s: Core, publisher: Option<Text>, r: MemberRecord): Core {
    PutMember(s, StampPublication(s, publisher, r.(generation := Advance(r.generation))))
  }

  function HealthStep(s: Core, e: Event): Step
    requires e.PublishHealth?
  {
    match CheckAuthority(s, e.authority, true)
    case Denied(o) => Step(s, o)
    case Granted(publisher) =>
      if e.member !in s.members then Reject(s, publisher, RejectUnknownMember)
      else
        var r := s.members[e.member];
        Conclude(s, publisher, JudgeHealth(r, e),
                 AdvancePublication(AdvanceHealth(Update(s, publisher, NextHealth(r, e))), publisher))
  }

  /** The position of the first capability with this identity, or the length when there is none. */
  function CapabilityIndex(cs: seq<CapabilityRef>, id: Text): (i: nat)
    ensures i <= |cs|
    ensures i < |cs| ==> cs[i].id == id
    ensures forall j :: 0 <= j < i ==> cs[j].id != id
  {
    if cs == [] || cs[0].id == id then 0 else 1 + CapabilityIndex(cs[1..], id)
  }

  function WithCapability(cs: seq<CapabilityRef>, c: CapabilityRef): seq<CapabilityRef> {
    var i := CapabilityIndex(cs, c.id);
    if i < |cs| then cs[i := c] else cs + [c]
  }

  function Refreshed(c: CapabilityRef): CapabilityRef {
    c.(stamp := c.stamp.(revalidationRequired := false))
  }

  function JudgeCapability(r: MemberRecord, limits: Limits, e: Event): Outcome
    requires e.PublishCapability?
  {
    if OwnerConflict(r.ownerBoot, e.authority) then RejectNotAuthorized
    else if e.capability.None? || !ValidCapability(e.capability.value) then RejectInvalidInput
    else
      var c := Refreshed(e.capability.value);
      var i := CapabilityIndex(r.capabilities, c.id);
      if i < |r.capabilities| && r.capabilities[i] == c then NoChange
      else if i == |r.capabilities| && i >= limits.maxCapabilitiesPerMember then RejectLimitExceeded
      else if r.generation == U64_MAX then RejectLimitExceeded
      else Accepted
  }

  function NextCapabilities(r: MemberRecord, e: Event): MemberRecord
    requires e.PublishCapability?
  {
    if e.capability.None? then r
    else r.(capabilities := WithCapability(r.capabilities, Refreshed(e.capability.value)))
  }

  function AdvanceCapabilities(s: Core): Core {
    s.(generations := s.generations.(capabilities := Advance(s.generations.capabilities)))
  }

  function CapabilityStep(s: Core, limits: Limits, e: Event): Step
    requires e.PublishCapability?
  {
    match CheckAuthority(s, e.authority, true)
    case Denied(o) => Step(s, o)
    case Granted(publisher) =>
      if e.member !in s.members then Reject(s, publisher, RejectUnknownMember)
      else
        var r := s.members[e.member];
        Conclude(s, publisher, JudgeCapability(r, limits, e),
                 AdvancePublication(AdvanceCapabilities(Update(s, publisher, NextCapabilities(r, e))), publisher))
  }

  function Withdrawn(r: MemberRecord, scope: WithdrawScope): MemberRecord {
    match scope
    case All =>
      r.(stamp := r.stamp.(provenance := Provenance.Unknown, observedAt := 0, ttl := 0, revalidationRequired := false),
         revalidationReason := NoReason,
         lifecycle := MemberLifecycle.Declared,
         health := NO_HEALTH, readiness := NO_READINESS, reachability := NO_REACHABILITY,
         capabilities := [])
    case OfHealth => r.(health := NO_HEALTH)
    case OfReadiness => r.(readiness := NO_READINESS)
    case OfReachability => r.(reachability := NO_REACHABILITY)
    case OfCapabilities => r.(capabilities := [])
    case OfDetails => r.(details := NoDetails)
  }

  function JudgeWithdrawal(r: MemberRecord, e: Event): Outcome
    requires e.WithdrawEvidence?
  {
    if OwnerConflict(r.ownerBoot, e.authority) then RejectNotAuthorized
    else if r.generation == U64_MAX then RejectLimitExceeded
    else Accepted
  }

  function WithdrawStep(s: Core, e: Event): Step
    requires e.WithdrawEvidence?
  {
    match CheckAuthority(s, e.authority, true)
    case Denied(o) => Step(s, o)
    case Granted(publisher) =>
      if e.member !in s.members then Reject(s, publisher, RejectUnknownMember)
      else
        var r := s.members[e.member];
        Conclude(s, publisher, JudgeWithdrawal(r, e),
                 AdvancePublication(AdvanceMembership(Update(s, publisher, Withdrawn(r, e.scope))), publisher))
  }

  function JudgeUnavailable(r: MemberRecord, e: Event): Outcome
    requires e.MarkUnavailable?
  {
    if OwnerConflict(r.ownerBoot, e.authority) then RejectNotAuthorized
    else if r.lifecycle.Retired? then RejectRetired
    else if r.lifecycle.Unavailable? then NoChange
    else if r.generation == U64_MAX then RejectLimitExceeded
    else Accepted
  }

  function MadeUnavailable(r: MemberRecord, reason: RevalidationReason): MemberRecord {
    r.Revalidate(true, reason).(lifecycle := MemberLifecycle.Unavailable)
  }

  function MarkUnavailableStep(s: Core, e: Event): Step
    requires e.MarkUnavailable?
  {
    match CheckAuthority(s, e.authority, true)
    case Denied(o) => Step(s, o)
    case Granted(publisher) =>
      if e.member !in s.members then Reject(s, publisher, RejectUnknownMember)
      else
        var r := s.members[e.member];
        Conclude(s, publisher, JudgeUnavailable(r, e),
                 AdvancePublication(AdvanceMembership(Update(s, None, MadeUnavailable(r, e.reason))), publisher))
  }

  // ----- Retirement -----

  function Retirement(r: MemberRecord): MemberRecord {
    WithoutLiveEvidence(r.Revalidate(false, NoReason)).(
      lifecycle := MemberLifecycle.Retired, generation := Advance(r.generation))
  }

  function JudgeRetirement(r: MemberRecord): Outcome {
    if r.lifecycle.Retired? then NoChange
    else if r.generation == U64_MAX then RejectLimitExceeded
    else Accepted
  }

  predicate Touches(k: RelationshipKey, m: MemberKey) { k.from == m || k.to == m }

  function Detached(r: MemberRecord, parent: MemberKey): MemberRecord {
    if r.parent == Some(parent) then r.(parent := None) else r
  }

  function DetachedMembers(members: map<MemberKey, MemberRecord>, parent: MemberKey): map<MemberKey, MemberRecord> {
    map k | k in members :: Detached(members[k], parent)
  }

  /** Retirement withdraws the relationships of the member and detaches its children. */
  function RetiredMember(s: Core, member: MemberKey, r: MemberRecord): Core {
    var remaining := map k | k in s.relationships && !Touches(k, member) :: s.relationships[k];
    var g := s.generations;
    s.(members := DetachedMembers(s.members, member)[member := r],
       relationships := remaining,
       generations := g.(membership := Advance(g.membership),
                         topology := if remaining == s.relationships then g.topology else Advance(g.topology)))
  }

  function RetireMemberStep(s: Core, e: Event): Step
    requires e.RetireMember?
  {
    match CheckAuthority(s, e.authority, true)
    case Denied(o) => Step(s, o)
    case Granted(publisher) =>
      if e.member !in s.members then Reject(s, publisher, RejectUnknownMember)
      else
        var r := s.members[e.member];
        Conclude(s, publisher, JudgeRetirement(r),
                 AdvancePublication(RetiredMember(s, e.member, Retirement(r)), publisher))
  }

  function FencedRecord(s: Core, boot: Text, now: i64, reason: RevalidationReason): FencedBootRecord
    requires boot in s.publishers
  {
    FencedBootRecord(boot, Some(s.publishers[boot].worker), s.generations.coordinatorEpoch, now, reason)
  }

  function LeftByRack(r: MemberRecord): MemberRecord {
    if r.lifecycle.Present? then
      r.Revalidate(true, RevalidationReason.Superseded).(lifecycle := MemberLifecycle.Unavailable)
    else r
  }

  function RetiredRack(s: Core, generation: u64, now: i64): Core
    requires s.rack.Some?
  {
    s.(rack := Some(s.rack.value.(retired := true, generation := generation)),
       generations := s.generations.(rack := generation),
       members := map k | k in s.members :: LeftByRack(s.members[k]),
       publishers := map b | b in s.publishers :: s.publishers[b].(state := PublisherState.Lost),
       fencedBoots := s.fencedBoots
         + map b | b in s.publishers :: FencedRecord(s, b, now, RevalidationReason.Superseded))
  }

  function RetireRackStep(s: Core, e: Event, now: i64): Step
    requires e.RetireRack?
  {
    if s.rack.None? then Step(s, RejectUnknownRack)
    else if s.rack.value.retired then Step(s, NoChange)
    else match CheckAuthority(s, e.authority, true)
      case Denied(o) => Step(s, o)
      case Granted(publisher) =>
        if Next(s.rack.value.generation).None? then Step(s, RejectLimitExceeded)
        else
          Step(AdvancePublication(RetiredRack(s, s.rack.value.generation + 1, now), publisher), Accepted)
  }

  // ----- Revalidation: committed target by target -----

  function Revalidated(r: MemberRecord): MemberRecord
    requires r.generation < U64_MAX
  {
    r.Revalidate(false, NoReason).(generation := r.generation + 1)
  }

  datatype Progress = Progress(members: map<MemberKey, MemberRecord>, changed: bool, outcome: Outcome)

  /** Walks the targets; a target that fails ends the walk and leaves the earlier ones committed. */
  function RevalidateEach(
    members: map<MemberKey, MemberRecord>, targets: seq<MemberKey>, token: AuthorityToken, changed: bool): Progress
  {
    if targets == [] then Progress(members, changed, if changed then Accepted else NoChange)
    else
      var key := targets[0];
      if key !in members then Progress(members, changed, RejectUnknownMember)
      else if OwnerConflict(members[key].ownerBoot, token) then Progress(members, changed, RejectNotAuthorized)
      else if !members[key].stamp.revalidationRequired then RevalidateEach(members, targets[1..], token, changed)
      else if members[key].generation == U64_MAX then Progress(members, changed, RejectLimitExceeded)
      else RevalidateEach(members[key := Revalidated(members[key])], targets[1..], token, true)
  }

  ghost function Outstanding(members: map<MemberKey, MemberRecord>): seq<MemberKey> {
    MemberOrder();
    Ascending((set k | k in members && members[k].stamp.revalidationRequired), MemberLess)
  }

  ghost function RevalidateStep(s: Core, e: Event): Step
    requires e.RevalidateMembers?
  {
    match CheckAuthority(s, e.authority, true)
    case Denied(o) => Step(s, o)
    case Granted(publisher) =>
      var targets := if e.all then Outstanding(s.members) else e.members;
      var p := RevalidateEach(s.members, targets, e.authority, false);
      var s1 := s.(members := p.members);
      if p.outcome.Accepted? then Step(AdvancePublication(AdvanceMembership(s1), publisher), Accepted)
      else if p.outcome.NoChange? then Step(s1, NoChange)
      else Reject(s1, publisher, p.outcome)
  }

  // ----- Liveness and fencing -----

  function HeartbeatStep(s: Core, e: Event, now: i64): Step
    requires e.Heartbeat?
  {
    match CheckAuthority(s, e.authority, false)
    case Denied(o) => Step(s, o)
    case Granted(publisher) =>
      if publisher.None? || publisher.value !in s.publishers then Step(s, RejectNotRegistered)
      else
        var p := s.publishers[publisher.value].(lastSeenAt := now, state := PublisherState.Active);
        Step(s.(publishers := s.publishers[publisher.value := p]), Accepted)
  }

  function Demoted(stamp: Stamp): Stamp {
    if stamp.HasEvidence() && stamp.durability.Ephemeral? then stamp.(revalidationRequired := true) else stamp
  }

  function DemotedCapability(c: CapabilityRef): CapabilityRef {
    if c.stamp.durability.Ephemeral? then c.(stamp := c.stamp.(revalidationRequired := true)) else c
  }

  function FencedMember(r: MemberRecord, reason: RevalidationReason): MemberRecord {
    r.Revalidate(true, reason).(
      health := r.health.(stamp := Demoted(r.health.stamp)),
      readiness := r.readiness.(stamp := Demoted(r.readiness.stamp)),
      reachability := r.reachability.(stamp := Demoted(r.reachability.stamp)),
      capabilities := seq(|r.capabilities|, i requires 0 <= i < |r.capabilities| => DemotedCapability(r.capabilities[i])),
      generation := Advance(r.generation))
  }

  predicate IsOrphan(owner: Option<Text>, stamp: Stamp, boot: Text) {
    owner == Some(boot) && stamp.durability.Ephemeral?
  }

  function FencedZone(z: CoolingZone): CoolingZone {
    z.(observedTemperature := None, thermalHeadroom := None, throttling := None)
  }

  function FencedPower(p: PowerEnvelope, boot: Text): PowerEnvelope {
    if IsOrphan(p.ownerBoot, p.stamp, boot) then
      p.(stamp := p.stamp.(revalidationRequired := true), rackObservedDraw := None, rackHeadroom := None)
    else p
  }

  function FencedCooling(c: CoolingEnvelope, boot: Text): CoolingEnvelope {
    if IsOrphan(c.ownerBoot, c.stamp, boot) then
      c.(stamp := c.stamp.(revalidationRequired := true),
         zones := seq(|c.zones|, i requires 0 <= i < |c.zones| => FencedZone(c.zones[i])))
    else c
  }

  function FencedRelationship(r: RelationshipRecord, boot: Text): RelationshipRecord {
    if IsOrphan(r.ownerBoot, r.stamp, boot) then r.(stamp := r.stamp.(revalidationRequired := true)) else r
  }

  function FencedDomain(d: FailureDomainRecord, boot: Text): FailureDomainRecord {
    if IsOrphan(d.ownerBoot, d.stamp, boot) then d.(stamp := d.stamp.(revalidationRequired := true)) else d
  }

  /** Takes all authority from a boot and orphans everything it owns. */
  function FenceBoot(s: Core, boot: Text, reason: RevalidationReason, now: i64): Core
    requires boot in s.publishers
  {
    AdvanceMembership(
      s.(publishers := s.publishers[boot := s.publishers[boot].(state := PublisherState.Fenced)],
         fencedBoots := s.fencedBoots[boot := FencedRecord(s, boot, now, reason)],
         members := map k | k in s.members ::
           if s.members[k].ownerBoot == Some(boot) then FencedMember(s.members[k], reason) else s.members[k],
         relationships := map k | k in s.relationships :: FencedRelationship(s.relationships[k], boot),
         failureDomains := map d | d in s.failureDomains :: FencedDomain(s.failureDomains[d], boot),
         power := if s.power.Some? then Some(FencedPower(s.power.value, boot)) else None,
         cooling := if s.cooling.Some? then Some(FencedCooling(s.cooling.value, boot)) else None))
  }

  function FenceStep(s: Core, epoch: u64, boot: Option<Text>, reason: RevalidationReason, now: i64): Step {
    if boot.None? then Step(s, RejectInvalidInput)
    else if epoch != s.generations.coordinatorEpoch then Step(s, RejectStaleCoordinatorEpoch)
    else if boot.value !in s.publishers then
      if boot.value in s.fencedBoots then Step(s, NoChange) else Step(s, RejectNotRegistered)
    else if s.publishers[boot.value].state.Fenced? then Step(s, NoChange)
    else Step(FenceBoot(s, boot.value, reason, now), Accepted)
  }

  predicate IsExpired(p: PublisherRecord, now: i64) {
    && (p.state.Registered? || p.state.Active?)
    && p.lastSeenAt > 0 && p.leaseMillis > 0
    && now - p.lastSeenAt > p.leaseMillis
  }

  function FenceEach(s: Core, boots: seq<Text>, now: i64): Step
    decreases |boots|
  {
    if boots == [] then Step(s, NoChange)
    else
      var first := FenceStep(s, s.generations.coordinatorEpoch, Some(boots[0]), OwnerProcessLost, now);
      var rest := FenceEach(first.state, boots[1..], now);
      Step(rest.state, if first.outcome.Accepted? then Accepted else rest.outcome)
  }

  ghost function Expired(s: Core, now: i64): seq<Text> {
    TextOrder();
    Ascending((set b | b in s.publishers && IsExpired(s.publishers[b], now)), TextLess)
  }

  // ----- Topology, failure domains, envelopes -----

  function Canonical(k: RelationshipKey): RelationshipKey {
    if IsSymmetric(k.cls) && MemberLess(k.to, k.from) then RelationshipKey(k.cls, k.to, k.from) else k
  }

  function SameRelationshipContent(a: RelationshipRecord, b: RelationshipRecord): bool {
    a.(generation := 0) == b.(generation := 0)
  }

  ghost function JudgeRelationship(s: Core, limits: Limits, e: Event, r: RelationshipRecord): Outcome
    requires e.PublishRelationship?
  {
    if r.key.from == r.key.to then RejectInvalidRelationship
    else if !ValidEvidence(r.stamp) then RejectInvalidInput
    else if r.capacity.Some? && !ValidQuantity(r.capacity.value, r.capacity.value.unit) then RejectInvalidInput
    else if r.key.from !in s.members || r.key.to !in s.members then RejectUnknownParent
    else if r.key.cls.Contains?
         && (|| Reaches(ParentGraph(s.members), r.key.from, r.key.to)
             || Reaches(ContainsGraph(s.relationships), r.key.from, r.key.to)) then
      RejectInvalidRelationship
    else if |s.relationships| >= limits.maxRelationships && r.key !in s.relationships then RejectLimitExceeded
    else JudgeRelationshipReplacement(s, e, r)
  }

  function JudgeRelationshipReplacement(s: Core, e: Event, r: RelationshipRecord): Outcome
    requires e.PublishRelationship?
  {
    if r.key in s.relationships && OwnerConflict(s.relationships[r.key].ownerBoot, e.authority) then RejectNotAuthorized
    else if r.key in s.relationships && e.expectedGeneration.Some?
         && e.expectedGeneration.value < s.generations.topology then
      RejectStaleGeneration
    else if r.key in s.relationships && r.generation != 0 && r.generation < s.relationships[r.key].generation then
      RejectStaleGeneration
    else if r.key in s.relationships && SameRelationshipContent(s.relationships[r.key], r) then NoChange
    else if Next(s.generations.topology).None? then RejectLimitExceeded
    else Accepted
  }

  function CommitRelationship(s: Core, token: AuthorityToken, publisher: Option<Text>, r: RelationshipRecord): Core {
    var committed := r.(generation := Advance(s.generations.topology),
                        ownerBoot := OwnerOf(token.boot, r.ownerBoot),
                        ownerWorker := WorkerOf(s, publisher, r.ownerWorker));
    AdvancePublication(
      s.(relationships := s.relationships[r.key := committed],
         generations := s.generations.(topology := Advance(s.generations.topology))),
      publisher)
  }

  ghost function RelationshipStep(s: Core, limits: Limits, e: Event): Step
    requires e.PublishRelationship?
  {
    match CheckAuthority(s, e.authority, true)
    case Denied(o) => Step(s, o)
    case Granted(publisher) =>
      var r := e.relationship.(key := Canonical(e.relationship.key));
      Conclude(s, publisher, JudgeRelationship(s, limits, e, r), CommitRelationship(s, e.authority, publisher, r))
  }

  function JudgeRelationshipWithdrawal(s: Core, e: Event): Outcome
    requires e.WithdrawRelationship?
  {
    var key := Canonical(e.key);
    if key !in s.relationships then NoChange
    else if OwnerConflict(s.relationships[key].ownerBoot, e.authority) then RejectNotAuthorized
    else Accepted
  }

  function WithoutRelationship(s: Core, key: RelationshipKey): Core {
    s.(relationships := s.relationships - {key},
       generations := s.generations.(topology := Advance(s.generations.topology)))
  }

  function WithdrawRelationshipStep(s: Core, e: Event): Step
    requires e.WithdrawRelationship?
  {
    match CheckAuthority(s, e.authority, true)
    case Denied(o) => Step(s, o)
    case Granted(publisher) =>
      Conclude(s, publisher, JudgeRelationshipWithdrawal(s, e),
               AdvancePublication(WithoutRelationship(s, Canonical(e.key)), publisher))
  }

  function SameDomainContent(a: FailureDomainRecord, b: FailureDomainRecord): bool {
    a.(generation := 0) == b.(generation := 0)
  }

  /** The parents of a published domain: sorted, without repetitions. */
  ghost function UniqueParents(d: FailureDomainRecord): FailureDomainRecord {
    TextOrder();
    d.(parents := Ascending((set p | p in d.parents), TextLess))
  }

  /** The first parent edge, in order, that cannot be added. */
  ghost function JudgeParents(domains: map<Text, FailureDomainRecord>, id: Text, parents: seq<Text>): Outcome {
    if parents == [] then Accepted
    else if parents[0] == id then RejectInvalidRelationship
    else if parents[0] !in domains then RejectUnknownParent
    else if Reaches(DomainGraph(domains), parents[0], id) then RejectInvalidRelationship
    else JudgeParents(domains, id, parents[1..])
  }

  ghost function JudgeDomain(s: Core, limits: Limits, e: Event, d: FailureDomainRecord): Outcome
    requires e.PublishFailureDomain?
  {
    if !IsIdentity(d.id) then RejectInvalidInput
    else if d.labelText.Some? && !IsLabel(d.labelText.value) then RejectInvalidInput
    else if !ValidEvidence(d.stamp) then RejectInvalidInput
    else if !JudgeParents(s.failureDomains, d.id, d.parents).Accepted? then
      JudgeParents(s.failureDomains, d.id, d.parents)
    else if d.id !in s.failureDomains && |s.failureDomains| >= limits.maxFailureDomains then RejectLimitExceeded
    else JudgeDomainReplacement(s, e, d)
  }

  function JudgeDomainReplacement(s: Core, e: Event, d: FailureDomainRecord): Outcome
    requires e.PublishFailureDomain?
  {
    if d.id in s.failureDomains && s.failureDomains[d.id].lifecycle.Retired? && !d.lifecycle.Retired? then RejectRetired
    else if d.id in s.failureDomains && OwnerConflict(s.failureDomains[d.id].ownerBoot, e.authority) then
      RejectNotAuthorized
    else if d.id in s.failureDomains && e.expectedGeneration.Some?
         && e.expectedGeneration.value < s.generations.failureDomains then
      RejectStaleGeneration
    else if d.id in s.failureDomains && d.generation != 0 && d.generation < s.failureDomains[d.id].generation then
      RejectStaleGeneration
    else if d.id in s.failureDomains && SameDomainContent(s.failureDomains[d.id], d) then NoChange
    else if Next(s.generations.failureDomains).None? then RejectLimitExceeded
    else Accepted
  }

  function CommitDomain(s: Core, token: AuthorityToken, publisher: Option<Text>, d: FailureDomainRecord): Core {
    var committed := d.(generation := Advance(s.generations.failureDomains),
                        ownerBoot := OwnerOf(token.boot, d.ownerBoot),
                        ownerWorker := WorkerOf(s, publisher, d.ownerWorker));
    AdvancePublication(
      s.(failureDomains := s.failureDomains[d.id := committed],
         generations := s.generations.(failureDomains := Advance(s.generations.failureDomains))),
      publisher)
  }

  ghost function DomainStep(s: Core, limits: Limits, e: Event): Step
    requires e.PublishFailureDomain?
  {
    match CheckAuthority(s, e.authority, true)
    case Denied(o) => Step(s, o)
    case Granted(publisher) =>
      var d := UniqueParents(e.domain);
      Conclude(s, publisher, JudgeDomain(s, limits, e, d), CommitDomain(s, e.authority, publisher, d))
  }

  /** What is left of a limit after a load, when both are current, in one unit, and the load fits. */
  function Headroom(env: Env, limit: Option<Quantity>, load: Option<Quantity>, now: i64): Option<Quantity> {
    if limit.None? || load.None? then None
    else
      var a, b := limit.value, load.value;
      if a.unit != b.unit || !a.stamp.IsFreshAt(now) || !b.stamp.IsFreshAt(now) then None
      else
        var rest := env.subtract(a.value, b.value);
        if IsNotANumber(rest) || IsNegative(rest) then None
        else
          Some(Quantity(rest, a.unit, None, Stamp(
            Derived,
            if a.stamp.observedAt < b.stamp.observedAt then b.stamp.observedAt else a.stamp.observedAt,
            if b.stamp.ttl < a.stamp.ttl then b.stamp.ttl else a.stamp.ttl,
            Ephemeral, false)))
  }

  function DerivedPower(env: Env, p: PowerEnvelope, now: i64): PowerEnvelope {
    p.(rackHeadroom := Headroom(env, p.rackLimit, p.rackObservedDraw, now),
       domainBudgets := seq(|p.domainBudgets|, i requires 0 <= i < |p.domainBudgets| =>
         p.domainBudgets[i].(headroom := Headroom(env, p.domainBudgets[i].limit, p.domainBudgets[i].observedDraw, now))))
  }

  function DerivedCooling(env: Env, c: CoolingEnvelope, now: i64): CoolingEnvelope {
    c.(zones := seq(|c.zones|, i requires 0 <= i < |c.zones| =>
         c.zones[i].(thermalHeadroom := Headroom(env, c.zones[i].coolingCapacity, c.zones[i].designThermalLimit, now))))
  }

  function JudgePower(s: Core, e: Event): Outcome
    requires e.PublishPower?
  {
    var p := e.power;
    if !ValidEvidence(p.stamp) then RejectInvalidInput
    else if !ValidIfPresent(p.rackLimit, Watts) then RejectInvalidInput
    else if p.rackObservedDraw.Some? && !ValidQuantity(p.rackObservedDraw.value, p.rackObservedDraw.value.unit) then
      RejectInvalidInput
    else if s.power.Some? && e.expectedGeneration.Some? && e.expectedGeneration.value < s.generations.power then
      RejectStaleGeneration
    else if s.power.Some? && p.generation != 0 && p.generation < s.power.value.generation then RejectStaleGeneration
    else if Next(s.generations.power).None? then RejectLimitExceeded
    else Accepted
  }

  function CommitPower(env: Env, s: Core, token: AuthorityToken, publisher: Option<Text>, p: PowerEnvelope, now: i64)
    : Core
  {
    var g := s.generations;
    var committed := p.(generation := Advance(g.power),
                        stamp := p.stamp.(revalidationRequired := false),
                        ownerBoot := OwnerOf(token.boot, p.ownerBoot),
                        ownerWorker := WorkerOf(s, publisher, p.ownerWorker));
    AdvancePublication(
      s.(power := Some(DerivedPower(env, committed, now)),
         generations := g.(power := Advance(g.power), constraints := Advance(g.constraints))),
      publisher)
  }

  function PowerStep(env: Env, s: Core, e: Event, now: i64): Step
    requires e.PublishPower?
  {
    match CheckAuthority(s, e.authority, true)
    case Denied(o) => Step(s, o)
    case Granted(publisher) =>
      Conclude(s, publisher, JudgePower(s, e), CommitPower(env, s, e.authority, publisher, e.power, now))
  }

  /** The first zone, in order, that cannot be accepted. */
  function JudgeZones(s: Core, zones: seq<CoolingZone>): Outcome {
    if zones == [] then Accepted
    else
      var z := zones[0];
      if MemberKey(CoolingDomain, z.zone) !in s.members then RejectUnknownParent
      else if !ValidIfPresent(z.designThermalLimit, Watts) then RejectInvalidInput
      else if !ValidIfPresent(z.coolingCapacity, Watts) then RejectInvalidInput
      else if !ValidIfPresent(z.observedTemperature, Celsius) then RejectInvalidInput
      else if z.throttling.Some? && !ValidEvidence(z.throttling.value.stamp) then RejectInvalidInput
      else JudgeZones(s, zones[1..])
  }

  function JudgeCooling(s: Core, e: Event): Outcome
    requires e.PublishCooling?
  {
    var c := e.cooling;
    if !ValidEvidence(c.stamp) then RejectInvalidInput
    else if !JudgeZones(s, c.zones).Accepted? then JudgeZones(s, c.zones)
    else if s.cooling.Some? && e.expectedGeneration.Some? && e.expectedGeneration.value < s.generations.cooling then
      RejectStaleGeneration
    else if s.cooling.Some? && c.generation != 0 && c.generation < s.cooling.value.generation then
      RejectStaleGeneration
    else if Next(s.generations.cooling).None? then RejectLimitExceeded
    else Accepted
  }

  /** Inserts a zone in front of the first zone that is not below it. */
  function InsertZone(z: CoolingZone, zones: seq<CoolingZone>): (r: seq<CoolingZone>)
    ensures |r| == |zones| + 1
  {
    if zones == [] || !TextLess(zones[0].zone, z.zone) then [z] + zones
    else [zones[0]] + InsertZone(z, zones[1..])
  }

  function SortZones(zones: seq<CoolingZone>): (r: seq<CoolingZone>)
    ensures |r| == |zones|
  {
    if zones == [] then [] else InsertZone(zones[0], SortZones(zones[1..]))
  }

  function CommitCooling(
    env: Env, s: Core, token: AuthorityToken, publisher: Option<Text>, c: CoolingEnvelope, now: i64): Core
  {
    var g := s.generations;
    var committed := c.(generation := Advance(g.cooling),
                        zones := SortZones(c.zones),
                        stamp := c.stamp.(revalidationRequired := false),
                        ownerBoot := OwnerOf(token.boot, c.ownerBoot),
                        ownerWorker := WorkerOf(s, publisher, c.ownerWorker));
    AdvancePublication(
      s.(cooling := Some(DerivedCooling(env, committed, now)),
         generations := g.(cooling := Advance(g.cooling), constraints := Advance(g.constraints))),
      publisher)
  }

  function CoolingStep(env: Env, s: Core, e: Event, now: i64): Step
    requires e.PublishCooling?
  {
    match CheckAuthority(s, e.authority, true)
    case Denied(o) => Step(s, o)
    case Granted(publisher) =>
      Conclude(s, publisher, JudgeCooling(s, e), CommitCooling(env, s, e.authority, publisher, e.cooling, now))
  }

  // ----- Snapshots -----

  function Decimal(n: nat): Text {
    if n < 10 then [0x30 + (n as byte)] else Decimal(n / 10) + [0x30 + ((n % 10) as byte)]
  }

  const SNAPSHOT_PREFIX: Text := [0x73, 0x6E, 0x61, 0x70, 0x2D]

  function SnapshotId(rack: Text, generation: u64): Text {
    SNAPSHOT_PREFIX + rack + [0x2D] + Decimal(generation)
  }

  ghost function MembersInOrder(members: map<MemberKey, MemberRecord>): seq<MemberRecord> {
    MemberOrder();
    InOrder(members, MemberLess)
  }

  ghost function RelationshipsInOrder(relationships: map<RelationshipKey, RelationshipRecord>)
    : seq<RelationshipRecord>
  {
    RelationshipOrder();
    InOrder(relationships, RelationshipLess)
  }

  ghost function DomainsInOrder(domains: map<Text, FailureDomainRecord>): seq<FailureDomainRecord> {
    TextOrder();
    InOrder(domains, TextLess)
  }

  ghost function BuildSnapshot(env: Env, s: Core, id: Text, generation: u64, publication: u64, now: i64): RackSnapshot
    requires s.rack.Some?
  {
    var snapshot := RackSnapshot(
      id, generation, publication, now, s.rack.value.id, s.rack.value.epoch, s.generations,
      Lifecycle(s, env.contract, now), MembersInOrder(s.members), RelationshipsInOrder(s.relationships),
      DomainsInOrder(s.failureDomains), s.power, s.cooling, "");
    snapshot.(digest := env.digest(snapshot))
  }

  /** Drops the oldest retained snapshot when the limit is reached, then retains the new one. */
  ghost function Retain(snapshots: map<u64, RackSnapshot>, limit: nat, generation: u64, snapshot: RackSnapshot)
    : map<u64, RackSnapshot>
  {
    CounterOrder();
    (if |snapshots| >= limit && snapshots != map[] then snapshots - {Least<nat>(snapshots.Keys, CounterLess)} else snapshots)
      [generation := snapshot]
  }

  function SnapshotPublication(s: Core, publisher: Option<Text>): u64 {
    if publisher.Some? && publisher.value in s.publishers then s.publishers[publisher.value].publicationGeneration
    else FirstIfUnset(s.operatorPublication)
  }

  ghost function SnapshotStep(env: Env, s: Core, e: Event, now: i64): Step
    requires e.PublishSnapshot?
  {
    match CheckAuthority(s, e.authority, true)
    case Denied(o) => Step(s, o)
    case Granted(publisher) =>
      if s.snapshotGeneration == U64_MAX then Step(s, RejectLimitExceeded)
      else
        var generation := s.snapshotGeneration + 1;
        var id := SnapshotId(s.rack.value.id, generation);
        if !IsIdentity(id) then Step(s, RejectInvalidInput)
        else
          var snapshot := BuildSnapshot(env, s, id, generation, SnapshotPublication(s, publisher), now);
          Step(AdvancePublication(
                 s.(snapshotGeneration := generation,
                    snapshots := Retain(s.snapshots, env.limits.maxRetainedSnapshots, generation, snapshot)),
                 publisher),
               Accepted)
  }

  datatype SnapshotStatus = Current | StaleSnapshot | UnknownRack | Invalid

  /** Whether a snapshot still describes the present: intact, of this rack, and bound to the current generations. */
  function ValidateSnapshot(env: Env, s: Core, snapshot: RackSnapshot): SnapshotStatus {
    if env.digest(WithoutDigest(snapshot)) != snapshot.digest then Invalid
    else if s.rack.None? || s.rack.value.id != snapshot.rack then UnknownRack
    else if snapshot.generations == s.generations && s.rack.value.epoch == snapshot.rackEpoch then Current
    else StaleSnapshot
  }

  // ----- Runs -----

  ghost function Apply(env: Env, s: Core, e: Event, now: i64): Step {
    match e
    case RegisterPublisher(_, _, _, _, _) => Register(s, env.limits, e, now)
    case DeclareRack(_, _, _, _) => Declare(s, e, now)
    case PublishMember(_, _, _, _) => PublishMemberStep(s, env.limits, e)
    case PublishRelationship(_, _, _) => RelationshipStep(s, env.limits, e)
    case PublishFailureDomain(_, _, _) => DomainStep(s, env.limits, e)
    case PublishPower(_, _, _) => PowerStep(env, s, e, now)
    case PublishCooling(_, _, _) => CoolingStep(env, s, e, now)
    case PublishHealth(_, _, _, _, _, _) => HealthStep(s, e)
    case PublishCapability(_, _, _) => CapabilityStep(s, env.limits, e)
    case WithdrawEvidence(_, _, _) => WithdrawStep(s, e)
    case WithdrawRelationship(_, _) => WithdrawRelationshipStep(s, e)
    case MarkUnavailable(_, _, _) => MarkUnavailableStep(s, e)
    case RetireMember(_, _) => RetireMemberStep(s, e)
    case RetireRack(_) => RetireRackStep(s, e, now)
    case RevalidateMembers(_, _, _) => RevalidateStep(s, e)
    case Heartbeat(_) => HeartbeatStep(s, e, now)
    case FencePublisher(epoch, boot, reason) => FenceStep(s, epoch, boot, reason, now)
    case ExpirePublishers => FenceEach(s, Expired(s, now), now)
    case PublishSnapshot(_) => SnapshotStep(env, s, e, now)
  }

  /** One request and the clock reading it is processed at. */
  datatype Timed = Timed(event: Event, now: i64)

  /** The state after the first `n` requests of a run. */
  ghost function At(env: Env, s: Core, run: seq<Timed>, n: nat): Core
    requires n <= |run|
    decreases n, 0
  {
    if n == 0 then s else StepAt(env, s, run, n - 1).state
  }

  /** What request `n` of a run did. */
  ghost function StepAt(env: Env, s: Core, run: seq<Timed>, n: nat): Step
    requires n < |run|
    decreases n, 1
  {
    Apply(env, At(env, s, run, n), run[n].event, run[n].now)
  }

  const NO_GENERATIONS := GenerationSet(0, 0, 0, 0, 0, 0, 0, 0, 0, 0)

  /** A fresh coordinator: nothing declared, epoch one. */
  const INITIAL := Core(None, map[], map[], map[], None, None, map[], map[], map[],
                        NO_GENERATIONS.(coordinatorEpoch := 1), 0, 0)
}
