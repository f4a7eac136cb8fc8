/** Failure-domain closures, the readiness contract, and the lifecycle derived from them. */
module RackReadiness {
  import opened Wrappers
  import opened Evidence
  import opened Model
  import opened Graph

  // ----- The graphs a rack describes -----

  /** An edge from every failure domain to each of its parents. */
  ghost function DomainGraph(domains: map<Text, FailureDomainRecord>): Edges<Text> {
    set d, p | d in domains && p in domains[d].parents :: (d, p)
  }

  /** An edge from every member to the parent it names. */
  ghost function ParentGraph(members: map<MemberKey, MemberRecord>): Edges<MemberKey> {
    set k | k in members && members[k].parent.Some? :: (k, members[k].parent.value)
  }

  /** An edge from every contained member to its container. */
  ghost function ContainsGraph(relationships: map<RelationshipKey, RelationshipRecord>): Edges<MemberKey> {
    set k | k in relationships && k.cls.Contains? :: (k.to, k.from)
  }

  /** The failure domains a member belongs to, directly or through parent domains. */
  ghost function DomainsOf(s: Core, key: MemberKey): set<Text> {
    if key !in s.members then {} else DomainClosure(s.failureDomains, s.members[key].failureDomains)
  }

  ghost function DomainClosure(domains: map<Text, FailureDomainRecord>, direct: seq<Text>): set<Text> {
    set d | d in Candidates(domains, direct) && ReachedFrom(domains, direct, d)
  }

  ghost function Candidates(domains: map<Text, FailureDomainRecord>, direct: seq<Text>): set<Text> {
    (set x | x in direct) + Nodes(DomainGraph(domains))
  }

  ghost predicate ReachedFrom(domains: map<Text, FailureDomainRecord>, direct: seq<Text>, d: Text) {
    exists x :: x in direct && Reaches(DomainGraph(domains), x, d)
  }

  // ----- The contract -----

  datatype Deficit =
    | RackNotDeclared | RackIsRetired | InsufficientNodes | InsufficientAccelerators | InsufficientFailureDomains
    | MembersNotCurrent | MemberHealthUnknown | TopologyRequired | FailureDomainsRequired | PowerEnvelopeRequired
    | PowerEnvelopeNotCurrent | CoolingEnvelopeRequired | CoolingEnvelopeNotCurrent | NoActivePublisher

  predicate HasCurrentEvidence(r: MemberRecord, now: i64, contract: ReadinessContract) {
    && r.lifecycle.Present?
    && r.stamp.IsFreshAt(now)
    && (contract.requirePhysicalProvenance ==> IsPhysical(r.stamp.provenance))
  }

  ghost function Qualifying(s: Core, contract: ReadinessContract, now: i64, kind: MemberKind): set<MemberKey> {
    set k | k in s.members && k.kind == kind && HasCurrentEvidence(s.members[k], now, contract)
  }

  ghost function CoveredDomains(s: Core, contract: ReadinessContract, now: i64): set<Text> {
    set k, d | k in Qualifying(s, contract, now, MemberKind.Node) && d in DomainsOf(s, k) :: d
  }

  predicate IsStaleMember(r: MemberRecord, now: i64) {
    IsCurrentMember(r.lifecycle) && !r.stamp.IsFreshAt(now)
  }

  predicate LacksHealth(r: MemberRecord, now: i64) {
    IsCurrentMember(r.lifecycle) && !(r.health.stamp.HasEvidence() && r.health.stamp.IsFreshAt(now))
  }

  /** Whether one clause of the contract is violated at time `now`. */
  ghost predicate Violates(s: Core, contract: ReadinessContract, now: i64, d: Deficit) {
    if s.rack.None? then d.RackNotDeclared?
    else if s.rack.value.retired then d.RackIsRetired?
    else match d
      case RackNotDeclared => false
      case RackIsRetired => false
      case InsufficientNodes => |Qualifying(s, contract, now, MemberKind.Node)| < contract.minNodes
      case InsufficientAccelerators => |Qualifying(s, contract, now, MemberKind.Accelerator)| < contract.minAccelerators
      case InsufficientFailureDomains => |CoveredDomains(s, contract, now)| < contract.minDistinctFailureDomains
      case MembersNotCurrent =>
        contract.requireAllMembersCurrent && exists k :: k in s.members && IsStaleMember(s.members[k], now)
      case MemberHealthUnknown =>
        contract.requireMemberHealth && exists k :: k in s.members && LacksHealth(s.members[k], now)
      case TopologyRequired => contract.requireTopology && s.relationships == map[]
      case FailureDomainsRequired => contract.requireFailureDomains && s.failureDomains == map[]
      case PowerEnvelopeRequired => contract.requirePowerEnvelope && s.power.None?
      case PowerEnvelopeNotCurrent =>
        contract.requirePowerEnvelope && s.power.Some? && !s.power.value.stamp.IsFreshAt(now)
      case CoolingEnvelopeRequired => contract.requireCoolingEnvelope && s.cooling.None?
      case CoolingEnvelopeNotCurrent =>
        contract.requireCoolingEnvelope && s.cooling.Some? && !s.cooling.value.stamp.IsFreshAt(now)
      case NoActivePublisher =>
        contract.requireActivePublisher && forall b :: b in s.publishers ==> !s.publishers[b].state.Active?
  }

  ghost predicate Satisfied(s: Core, contract: ReadinessContract, now: i64) {
    forall d {:trigger Violates(s, contract, now, d)} :: !Violates(s, contract, now, d)
  }

  // ----- The lifecycle -----

  predicate NeedsRevalidation(s: Core) {
    || (exists k :: k in s.members && s.members[k].stamp.revalidationRequired)
    || (exists k :: k in s.relationships && s.relationships[k].stamp.revalidationRequired)
    || (exists d :: d in s.failureDomains && s.failureDomains[d].stamp.revalidationRequired)
  }

  predicate IsDegradedMember(r: MemberRecord, now: i64) {
    && IsCurrentMember(r.lifecycle)
    && (|| r.lifecycle.Unavailable?
        || (r.health.stamp.HasEvidence() && r.health.stamp.IsFreshAt(now) && !IsPositiveHealth(r.health.value))
        || (r.readiness.stamp.HasEvidence() && r.readiness.stamp.IsFreshAt(now) && r.readiness.value.NotReady?))
  }

  ghost function Lifecycle(s: Core, contract: ReadinessContract, now: i64): RackLifecycle {
    if s.rack.None? then RackLifecycle.Undeclared
    else if s.rack.value.retired then RackLifecycle.Retired
    else if NeedsRevalidation(s) then RackLifecycle.RevalidationRequired
    else if Satisfied(s, contract, now) then
      if exists k :: k in s.members && IsDegradedMember(s.members[k], now) then RackLifecycle.Degraded
      else RackLifecycle.Ready
    else if s.members == map[] then RackLifecycle.Declared
    else if exists k :: k in s.members && IsCurrentMember(s.members[k].lifecycle) then RackLifecycle.Partial
    else RackLifecycle.Discovering
  }

  // ----- Time -----

  /** No observation that readiness reads was made after `t`. */
  ghost predicate ObservedBy(s: Core, t: i64) {
    && (forall k :: k in s.members ==>
          s.members[k].stamp.observedAt <= t && s.members[k].health.stamp.observedAt <= t)
    && (s.power.Some? ==> s.power.value.stamp.observedAt <= t)
    && (s.cooling.Some? ==> s.cooling.value.stamp.observedAt <= t)
  }

  lemma SubsetIsNoLarger<T>(a: set<T>, b: set<T>)
    requires a <= b
    ensures |a| <= |b|
  {
    assert b == a + (b - a);
  }

  lemma QualifyingOnlyShrinks(s: Core, contract: ReadinessContract, t: i64, later: i64, kind: MemberKind)
    requires ObservedBy(s, t) && t <= later
    ensures Qualifying(s, contract, later, kind) <= Qualifying(s, contract, t, kind)
  {
    forall k | k in Qualifying(s, contract, later, kind)
      ensures k in Qualifying(s, contract, t, kind)
    {
      FreshnessOnlyFades(s.members[k].stamp, t, later);
    }
  }

  lemma FreshMembersFade(s: Core, t: i64, later: i64)
    requires ObservedBy(s, t) && t <= later
    ensures forall k :: k in s.members && IsStaleMember(s.members[k], t) ==> IsStaleMember(s.members[k], later)
    ensures forall k :: k in s.members && LacksHealth(s.members[k], t) ==> LacksHealth(s.members[k], later)
  {
    forall k | k in s.members
      ensures IsStaleMember(s.members[k], t) ==> IsStaleMember(s.members[k], later)
      ensures LacksHealth(s.members[k], t) ==> LacksHealth(s.members[k], later)
    {
      var r := s.members[k];
      if r.stamp.IsFreshAt(later) {
        FreshnessOnlyFades(r.stamp, t, later);
      }
      if r.health.stamp.IsFreshAt(later) {
        FreshnessOnlyFades(r.health.stamp, t, later);
      }
    }
  }

  lemma ViolationsPersist(s: Core, contract: ReadinessContract, t: i64, later: i64, d: Deficit)
    requires ObservedBy(s, t) && t <= later && Violates(s, contract, t, d)
    ensures Violates(s, contract, later, d)
  {
    QualifyingOnlyShrinks(s, contract, t, later, MemberKind.Node);
    QualifyingOnlyShrinks(s, contract, t, later, MemberKind.Accelerator);
    SubsetIsNoLarger(Qualifying(s, contract, later, MemberKind.Node), Qualifying(s, contract, t, MemberKind.Node));
    SubsetIsNoLarger(Qualifying(s, contract, later, MemberKind.Accelerator),
                     Qualifying(s, contract, t, MemberKind.Accelerator));
    SubsetIsNoLarger(CoveredDomains(s, contract, later), CoveredDomains(s, contract, t));
    FreshMembersFade(s, t, later);
    if s.power.Some? && s.power.value.stamp.IsFreshAt(later) {
      FreshnessOnlyFades(s.power.value.stamp, t, later);
    }
    if s.cooling.Some? && s.cooling.value.stamp.IsFreshAt(later) {
      FreshnessOnlyFades(s.cooling.value.stamp, t, later);
    }
    hide Qualifying, CoveredDomains, IsStaleMember, LacksHealth, Stamp.IsFreshAt, ObservedBy;
  }

  /** Time alone never makes a quiet rack ready: a contract met later was met before. */
  lemma TimeNeverMakesReady(s: Core, contract: ReadinessContract, t: i64, later: i64)
    requires ObservedBy(s, t) && t <= later && Satisfied(s, contract, later)
    ensures Satisfied(s, contract, t)
  {
    hide Violates;
    forall d
      ensures !Violates(s, contract, t, d)
    {
      if Violates(s, contract, t, d) {
        ViolationsPersist(s, contract, t, later, d);
      }
    }
  }

  /** The clock alone can take a rack out of {Ready, Degraded}, never into it. */
  lemma ClockNeverEntersReady(s: Core, contract: ReadinessContract, t: i64, later: i64)
    requires ObservedBy(s, t) && t <= later
    requires Lifecycle(s, contract, later).Ready? || Lifecycle(s, contract, later).Degraded?
    ensures Lifecycle(s, contract, t).Ready? || Lifecycle(s, contract, t).Degraded?
  {
    hide Satisfied, NeedsRevalidation, ObservedBy;
    TimeNeverMakesReady(s, contract, t, later);
  }

  /** Under a contract that wants physical evidence of at least one node, a synthetic rack is never ready. */
  lemma SyntheticIsNeverReady(s: Core, contract: ReadinessContract, now: i64)
    requires contract.requirePhysicalProvenance && contract.minNodes >= 1
    requires forall k :: k in s.members ==> !IsPhysical(s.members[k].stamp.provenance)
    ensures !Satisfied(s, contract, now)
    ensures !Lifecycle(s, contract, now).Ready? && !Lifecycle(s, contract, now).Degraded?
  {
    assert Qualifying(s, contract, now, MemberKind.Node) == {};
    var d := if s.rack.None? then RackNotDeclared else if s.rack.value.retired then RackIsRetired else InsufficientNodes;
    assert Violates(s, contract, now, d);
  }
}
