/** The invariant check, violation by violation: every kind of damage it names, and none besides. */
module Damage {
  import opened Wrappers
  import opened Evidence
  import opened Model
  import opened Graph
  import opened RackReadiness
  import opened Scans
  import opened Invariants

  /** The violations of records; the ninth kind, indexes that are not those of a rebuild, is about the indexes alone. */
  datatype Violation =
    | RackGenerationUnset | MemberKeyMismatch | MemberGenerationUnset | RetiredMemberCurrent | MemberLimitExceeded
    | MemberSelfParent | MemberParentMissing | MemberFailureDomainLimit | MemberCapabilityLimit
    | MemberFailureDomainMissing | ContainmentCycle | RelationshipSelfLink | RelationshipEndpointMissing
    | RelationshipGenerationUnset | RelationshipGenerationAhead | FailureDomainKeyMismatch | FailureDomainParentMissing
    | FailureDomainSelfParent | FailureDomainGenerationAhead | FailureDomainCycle | FencedPublisherActive
    | PublisherStaleEpoch | RetiredRackHasPresentMember | PowerHeadroomUnsupported | PowerGenerationUnset
    | PowerGenerationAhead | CoolingGenerationUnset | CoolingGenerationAhead | CoolingHeadroomUnsupported
    | SnapshotGenerationMismatch | SnapshotRackGenerationAhead | SnapshotMembershipAhead

  ghost predicate ShowsInMembers(s: Core, limits: Limits, now: i64, v: Violation) {
    var m := s.members;
    match v
    case MemberKeyMismatch => exists k :: k in m && m[k].key != k
    case MemberGenerationUnset => exists k :: k in m && m[k].generation == 0
    case RetiredMemberCurrent => exists k :: k in m && m[k].lifecycle.Retired? && m[k].stamp.IsFreshAt(now)
    case MemberLimitExceeded => |m| > limits.maxMembers && exists k :: k in m
    case MemberSelfParent => exists k :: k in m && m[k].parent == Some(k)
    case MemberParentMissing => exists k :: k in m && m[k].parent.Some? && m[k].parent.value !in m
    case MemberFailureDomainLimit => exists k :: k in m && |m[k].failureDomains| > limits.maxFailureDomainsPerMember
    case MemberCapabilityLimit => exists k :: k in m && |m[k].capabilities| > limits.maxCapabilitiesPerMember
    case MemberFailureDomainMissing => exists k, d :: k in m && d in m[k].failureDomains && d !in s.failureDomains
    case RetiredRackHasPresentMember =>
      s.rack.Some? && s.rack.value.retired && exists k :: k in m && m[k].lifecycle.Present?
    case _ => false
  }

  ghost predicate ShowsInTopology(s: Core, v: Violation) {
    var r, f := s.relationships, s.failureDomains;
    match v
    case ContainmentCycle => !Acyclic(ParentGraph(s.members))
    case RelationshipSelfLink => exists k :: k in r && k.from == k.to
    case RelationshipEndpointMissing => exists k :: k in r && (k.from !in s.members || k.to !in s.members)
    case RelationshipGenerationUnset => exists k :: k in r && r[k].generation == 0
    case RelationshipGenerationAhead => exists k :: k in r && r[k].generation > s.generations.topology
    case FailureDomainKeyMismatch => exists d :: d in f && f[d].id != d
    case FailureDomainParentMissing => exists d, p :: d in f && p in f[d].parents && p !in f
    case FailureDomainSelfParent => exists d :: d in f && d in f[d].parents
    case FailureDomainGenerationAhead => exists d :: d in f && f[d].generation > s.generations.failureDomains
    case FailureDomainCycle => !ParentsOnce(f) || !SinglePaths(DomainGraph(f))
    case _ => false
  }

  ghost predicate ShowsElsewhere(s: Core, v: Violation) {
    match v
    case RackGenerationUnset => s.rack.Some? && s.rack.value.generation == 0
    case FencedPublisherActive =>
      exists b :: b in s.publishers && b in s.fencedBoots
                  && (s.publishers[b].state.Active? || s.publishers[b].state.Registered?)
    case PublisherStaleEpoch =>
      exists b :: b in s.publishers && s.publishers[b].state.Active?
                  && s.publishers[b].coordinatorEpoch != s.generations.coordinatorEpoch
    case PowerHeadroomUnsupported =>
      s.power.Some? && s.power.value.rackHeadroom.Some?
      && (s.power.value.rackLimit.None? || s.power.value.rackObservedDraw.None?)
    case PowerGenerationUnset => s.power.Some? && s.power.value.generation == 0
    case PowerGenerationAhead => s.power.Some? && s.power.value.generation > s.generations.power
    case CoolingGenerationUnset => s.cooling.Some? && s.cooling.value.generation == 0
    case CoolingGenerationAhead => s.cooling.Some? && s.cooling.value.generation > s.generations.cooling
    case CoolingHeadroomUnsupported =>
      s.cooling.Some?
      && exists z :: z in s.cooling.value.zones && z.thermalHeadroom.Some?
                     && (z.coolingCapacity.None? || z.designThermalLimit.None?)
    case SnapshotGenerationMismatch => exists g :: g in s.snapshots && s.snapshots[g].generation != g
    case SnapshotRackGenerationAhead =>
      exists g :: g in s.snapshots && s.snapshots[g].generations.rack > s.generations.rack
    case SnapshotMembershipAhead =>
      exists g :: g in s.snapshots && s.snapshots[g].generations.membership > s.generations.membership
    case _ => false
  }

  ghost predicate Shows(s: Core, limits: Limits, now: i64, v: Violation) {
    ShowsInMembers(s, limits, now, v) || ShowsInTopology(s, v) || ShowsElsewhere(s, v)
  }

  lemma MembersPassIff(s: Core, limits: Limits, now: i64)
    ensures (forall v :: !ShowsInMembers(s, limits, now, v)) <==>
              && (forall k :: k in s.members ==> MemberPasses(s, limits, now, k))
              && (s.rack.Some? && s.rack.value.retired ==> forall k :: k in s.members ==>
                !s.members[k].lifecycle.Present?)
  {
    if forall v :: !ShowsInMembers(s, limits, now, v) {
      forall k | k in s.members
        ensures MemberPasses(s, limits, now, k)
      {
        UndamagedMemberPasses(s, limits, now, k);
      }
      assert !ShowsInMembers(s, limits, now, RetiredRackHasPresentMember);
    }
    if forall k :: k in s.members ==> MemberPasses(s, limits, now, k) {
      forall v: Violation | !v.RetiredRackHasPresentMember?
        ensures !ShowsInMembers(s, limits, now, v)
      {
        PassingMembersShowNothing(s, limits, now, v);
      }
    }
    hide MemberPasses;
  }

  lemma UndamagedMemberPasses(s: Core, limits: Limits, now: i64, k: MemberKey)
    requires (forall v :: !ShowsInMembers(s, limits, now, v)) && k in s.members
    ensures MemberPasses(s, limits, now, k)
  {
    MemberCounters(s, limits, now, k);
    MemberReferences(s, limits, now, k);
    hide ShowsInMembers, Stamp.IsFreshAt;
  }

  lemma MemberCounters(s: Core, limits: Limits, now: i64, k: MemberKey)
    requires (forall v :: !ShowsInMembers(s, limits, now, v)) && k in s.members
    ensures s.members[k].key == k && s.members[k].generation != 0 && |s.members| <= limits.maxMembers
    ensures !(s.members[k].lifecycle.Retired? && s.members[k].stamp.IsFreshAt(now))
    ensures |s.members[k].failureDomains| <= limits.maxFailureDomainsPerMember
    ensures |s.members[k].capabilities| <= limits.maxCapabilitiesPerMember
  {
    hide Stamp.IsFreshAt;
    assert !ShowsInMembers(s, limits, now, MemberKeyMismatch) && !ShowsInMembers(s, limits, now, MemberGenerationUnset);
    assert !ShowsInMembers(s, limits, now, RetiredMemberCurrent) && !ShowsInMembers(s, limits, now, MemberLimitExceeded);
    assert !ShowsInMembers(s, limits, now, MemberFailureDomainLimit);
    assert !ShowsInMembers(s, limits, now, MemberCapabilityLimit);
  }

  lemma MemberReferences(s: Core, limits: Limits, now: i64, k: MemberKey)
    requires (forall v :: !ShowsInMembers(s, limits, now, v)) && k in s.members
    ensures s.members[k].parent.Some? ==> s.members[k].parent.value != k && s.members[k].parent.value in s.members
    ensures forall d :: d in s.members[k].failureDomains ==> d in s.failureDomains
  {
    hide Stamp.IsFreshAt;
    assert !ShowsInMembers(s, limits, now, MemberSelfParent) && !ShowsInMembers(s, limits, now, MemberParentMissing);
    assert !ShowsInMembers(s, limits, now, MemberFailureDomainMissing);
  }

  lemma PassingMembersShowNothing(s: Core, limits: Limits, now: i64, v: Violation)
    requires forall k :: k in s.members ==> MemberPasses(s, limits, now, k)
    requires !v.RetiredRackHasPresentMember?
    ensures !ShowsInMembers(s, limits, now, v)
  {
    hide MemberPasses, Stamp.IsFreshAt;
    forall k | k in s.members {
      PassingMember(s, limits, now, k);
    }
  }

  lemma PassingMember(s: Core, limits: Limits, now: i64, k: MemberKey)
    requires k in s.members && MemberPasses(s, limits, now, k)
    ensures s.members[k].key == k && s.members[k].generation != 0 && |s.members| <= limits.maxMembers
    ensures !(s.members[k].lifecycle.Retired? && s.members[k].stamp.IsFreshAt(now))
    ensures s.members[k].parent.Some? ==> s.members[k].parent.value != k && s.members[k].parent.value in s.members
    ensures |s.members[k].failureDomains| <= limits.maxFailureDomainsPerMember
    ensures |s.members[k].capabilities| <= limits.maxCapabilitiesPerMember
    ensures forall d :: d in s.members[k].failureDomains ==> d in s.failureDomains
  {
  }

  ghost predicate TopologyPasses(s: Core) {
    && (forall k :: k in s.relationships ==> RelationshipPasses(s, k))
    && (forall d :: d in s.failureDomains ==> DomainPasses(s, d))
    && Acyclic(ParentGraph(s.members)) && ParentsOnce(s.failureDomains) && SinglePaths(DomainGraph(s.failureDomains))
  }

  lemma TopologyPassesIff(s: Core)
    ensures (forall v :: !ShowsInTopology(s, v)) <==> TopologyPasses(s)
  {
    hide Acyclic, ParentsOnce, SinglePaths;
    if forall v :: !ShowsInTopology(s, v) {
      UndamagedTopologyPasses(s);
    }
    if TopologyPasses(s) {
      forall v
        ensures !ShowsInTopology(s, v)
      {
        PassingTopologyShowsNothing(s, v);
      }
    }
    hide TopologyPasses;
  }

  lemma UndamagedTopologyPasses(s: Core)
    requires forall v :: !ShowsInTopology(s, v)
    ensures TopologyPasses(s)
  {
    UndamagedRelationshipsPass(s);
    UndamagedDomainsPass(s);
    assert !ShowsInTopology(s, ContainmentCycle) && !ShowsInTopology(s, FailureDomainCycle);
    hide Acyclic, ParentsOnce, SinglePaths, RelationshipPasses, DomainPasses;
  }

  lemma UndamagedRelationshipsPass(s: Core)
    requires forall v :: !ShowsInTopology(s, v)
    ensures forall k :: k in s.relationships ==> RelationshipPasses(s, k)
  {
    hide Acyclic, ParentsOnce, SinglePaths;
    assert !ShowsInTopology(s, RelationshipSelfLink) && !ShowsInTopology(s, RelationshipEndpointMissing);
    assert !ShowsInTopology(s, RelationshipGenerationUnset) && !ShowsInTopology(s, RelationshipGenerationAhead);
  }

  lemma UndamagedDomainsPass(s: Core)
    requires forall v :: !ShowsInTopology(s, v)
    ensures forall d :: d in s.failureDomains ==> DomainPasses(s, d)
  {
    hide Acyclic, ParentsOnce, SinglePaths;
    assert !ShowsInTopology(s, FailureDomainKeyMismatch) && !ShowsInTopology(s, FailureDomainParentMissing);
    assert !ShowsInTopology(s, FailureDomainSelfParent) && !ShowsInTopology(s, FailureDomainGenerationAhead);
  }

  lemma PassingTopologyShowsNothing(s: Core, v: Violation)
    requires TopologyPasses(s)
    ensures !ShowsInTopology(s, v)
  {
    hide Acyclic, ParentsOnce, SinglePaths;
  }

  ghost predicate RestPasses(s: Core) {
    && (s.rack.Some? ==> s.rack.value.generation != 0) && EnvelopesPass(s)
    && (forall b :: b in s.publishers ==> PublisherPasses(s, b))
    && forall g :: g in s.snapshots ==> SnapshotPasses(s, g)
  }

  lemma RestPassesIff(s: Core)
    ensures (forall v :: !ShowsElsewhere(s, v)) <==> RestPasses(s)
  {
    if forall v :: !ShowsElsewhere(s, v) {
      UndamagedRestPasses(s);
    }
    if RestPasses(s) {
      forall v
        ensures !ShowsElsewhere(s, v)
      {
        PassingRestShowsNothing(s, v);
      }
    }
    hide RestPasses;
  }

  lemma UndamagedRestPasses(s: Core)
    requires forall v :: !ShowsElsewhere(s, v)
    ensures RestPasses(s)
  {
    UndamagedProcessesPass(s);
    UndamagedEnvelopesPass(s);
    UndamagedSnapshotsPass(s);
    hide EnvelopesPass, PublisherPasses, SnapshotPasses;
    assert !ShowsElsewhere(s, RackGenerationUnset);
  }

  lemma UndamagedProcessesPass(s: Core)
    requires forall v :: !ShowsElsewhere(s, v)
    ensures forall b :: b in s.publishers ==> PublisherPasses(s, b)
  {
    assert !ShowsElsewhere(s, FencedPublisherActive) && !ShowsElsewhere(s, PublisherStaleEpoch);
  }

  lemma UndamagedEnvelopesPass(s: Core)
    requires forall v :: !ShowsElsewhere(s, v)
    ensures EnvelopesPass(s)
  {
    assert !ShowsElsewhere(s, PowerHeadroomUnsupported) && !ShowsElsewhere(s, PowerGenerationUnset);
    assert !ShowsElsewhere(s, PowerGenerationAhead) && !ShowsElsewhere(s, CoolingGenerationUnset);
    assert !ShowsElsewhere(s, CoolingGenerationAhead) && !ShowsElsewhere(s, CoolingHeadroomUnsupported);
  }

  lemma UndamagedSnapshotsPass(s: Core)
    requires forall v :: !ShowsElsewhere(s, v)
    ensures forall g :: g in s.snapshots ==> SnapshotPasses(s, g)
  {
    forall g | g in s.snapshots
      ensures SnapshotPasses(s, g)
    {
      UndamagedSnapshotPasses(s, g);
    }
    hide ShowsElsewhere, SnapshotPasses;
  }

  lemma UndamagedSnapshotPasses(s: Core, g: u64)
    requires g in s.snapshots && !ShowsElsewhere(s, SnapshotGenerationMismatch)
    requires !ShowsElsewhere(s, SnapshotRackGenerationAhead) && !ShowsElsewhere(s, SnapshotMembershipAhead)
    ensures SnapshotPasses(s, g)
  {
  }

  lemma PassingRestShowsNothing(s: Core, v: Violation)
    requires RestPasses(s)
    ensures !ShowsElsewhere(s, v)
  {
  }

  /** Records pass the check exactly when they show none of the violations it names. */
  lemma PassesIff(s: Core, limits: Limits, now: i64)
    ensures Passes(s, limits, now) <==> forall v :: !Shows(s, limits, now, v)
  {
    hide ShowsInMembers, ShowsInTopology, ShowsElsewhere, EnvelopesPass, MemberPasses, RelationshipPasses, DomainPasses,
      PublisherPasses, SnapshotPasses, Acyclic, ParentsOnce, SinglePaths;
    MembersPassIff(s, limits, now);
    TopologyPassesIff(s);
    RestPassesIff(s);
    if forall v :: !Shows(s, limits, now, v) {
      forall v
        ensures !ShowsInMembers(s, limits, now, v) && !ShowsInTopology(s, v) && !ShowsElsewhere(s, v)
      {
        assert !Shows(s, limits, now, v);
      }
    }
  }
}
