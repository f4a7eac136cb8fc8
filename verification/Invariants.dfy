/** The invariant check: what passing means, exactly, and what it overlooks. */
module Invariants {
  import opened Wrappers
  import opened Evidence
  import opened Model
  import opened Graph
  import opened Indexes
  import opened RackReadiness
  import opened Machine
  import opened Structure
  import opened State
  import opened Scans

  // ----- What the check asks of the records -----

  predicate MemberPasses(s: Core, limits: Limits, now: i64, k: MemberKey)
    requires k in s.members
  {
    var r := s.members[k];
    && r.key == k && r.generation != 0
    && !(r.lifecycle.Retired? && !r.stamp.revalidationRequired && r.stamp.IsFreshAt(now))
    && |s.members| <= limits.maxMembers
    && (r.parent.Some? ==> r.parent.value != k && r.parent.value in s.members)
    && |r.failureDomains| <= limits.maxFailureDomainsPerMember
    && |r.capabilities| <= limits.maxCapabilitiesPerMember
    && forall i :: 0 <= i < |r.failureDomains| ==> r.failureDomains[i] in s.failureDomains
  }

  predicate RelationshipPasses(s: Core, k: RelationshipKey)
    requires k in s.relationships
  {
    && k.from != k.to && k.from in s.members && k.to in s.members
    && 0 < s.relationships[k].generation <= s.generations.topology
  }

  predicate DomainPasses(s: Core, d: Text)
    requires d in s.failureDomains
  {
    var r := s.failureDomains[d];
    && r.id == d && r.generation <= s.generations.failureDomains
    && forall i :: 0 <= i < |r.parents| ==> r.parents[i] in s.failureDomains && r.parents[i] != d
  }

  predicate PublisherPasses(s: Core, b: Text)
    requires b in s.publishers
  {
    var p := s.publishers[b];
    && !(b in s.fencedBoots && (p.state.Active? || p.state.Registered?))
    && (p.state.Active? ==> p.coordinatorEpoch == s.generations.coordinatorEpoch)
  }

  predicate EnvelopesPass(s: Core) {
    && (s.power.Some? ==>
          && (s.power.value.rackHeadroom.Some? ==>
                s.power.value.rackLimit.Some? && s.power.value.rackObservedDraw.Some?)
          && 0 < s.power.value.generation <= s.generations.power)
    && (s.cooling.Some? ==>
          && 0 < s.cooling.value.generation <= s.generations.cooling
          && forall i :: 0 <= i < |s.cooling.value.zones| ==>
               s.cooling.value.zones[i].thermalHeadroom.Some? ==>
                 s.cooling.value.zones[i].coolingCapacity.Some? && s.cooling.value.zones[i].designThermalLimit.Some?)
  }

  predicate SnapshotPasses(s: Core, g: u64)
    requires g in s.snapshots
  {
    && s.snapshots[g].generation == g
    && s.snapshots[g].generations.rack <= s.generations.rack
    && s.snapshots[g].generations.membership <= s.generations.membership
  }

  predicate RackPasses(s: Core) {
    && (s.rack.Some? ==> s.rack.value.generation != 0)
    && (s.rack.Some? && s.rack.value.retired ==> forall k :: k in s.members ==> !s.members[k].lifecycle.Present?)
  }

  predicate RecordsPass(s: Core, limits: Limits, now: i64) {
    && RackPasses(s) && EnvelopesPass(s)
    && (forall k :: k in s.members ==> MemberPasses(s, limits, now, k))
    && (forall k :: k in s.relationships ==> RelationshipPasses(s, k))
    && (forall d :: d in s.failureDomains ==> DomainPasses(s, d))
    && (forall b :: b in s.publishers ==> PublisherPasses(s, b))
    && forall g :: g in s.snapshots ==> SnapshotPasses(s, g)
  }

  /** What passing the check means. */
  ghost predicate Passes(s: Core, limits: Limits, now: i64) {
    && RecordsPass(s, limits, now)
    && Acyclic(ParentGraph(s.members))
    && ParentsOnce(s.failureDomains) && SinglePaths(DomainGraph(s.failureDomains))
  }

  /** The indexes are what a rebuild yields, down to which buckets exist. */
  ghost predicate IndexesExact(state: RackState)
    reads state
  {
    && state.MembersIndexed(state.members)
    && Agrees(state.relationshipsByMember, StoredRefs(state.relationships))
    && Agrees(state.childrenByDomain, DomainParentRefs(state.failureDomains))
    && ExactBuckets(state.membersByFailureDomain, state.members, state.failureDomains)
  }

  predicate SameIndexes(a: RackState, b: RackState)
    reads a, b
  {
    && a.relationshipsByMember == b.relationshipsByMember && a.membersByKind == b.membersByKind
    && a.membersByFailureDomain == b.membersByFailureDomain && a.membersByPowerDomain == b.membersByPowerDomain
    && a.membersByCoolingDomain == b.membersByCoolingDomain && a.membersByOwnerBoot == b.membersByOwnerBoot
    && a.childrenByParent == b.childrenByParent && a.childrenByDomain == b.childrenByDomain
  }

  lemma ExactIndexesAreSame(a: RackState, b: RackState)
    requires IndexesExact(b) && a.members == b.members && a.relationships == b.relationships
    requires a.failureDomains == b.failureDomains
    ensures IndexesExact(a) <==> SameIndexes(a, b)
  {
    hide Agrees, ExactBuckets;
    if IndexesExact(a) {
      AgreementIsUnique(a.relationshipsByMember, b.relationshipsByMember, StoredRefs(a.relationships));
      AgreementIsUnique(a.membersByKind, b.membersByKind, KindRefs(a.members));
      AgreementIsUnique(a.membersByPowerDomain, b.membersByPowerDomain, PowerRefs(a.members));
      AgreementIsUnique(a.membersByCoolingDomain, b.membersByCoolingDomain, CoolingRefs(a.members));
      AgreementIsUnique(a.membersByOwnerBoot, b.membersByOwnerBoot, OwnerRefs(a.members));
      AgreementIsUnique(a.childrenByParent, b.childrenByParent, ParentRefs(a.members));
      AgreementIsUnique(a.childrenByDomain, b.childrenByDomain, DomainParentRefs(a.failureDomains));
      BucketsAreUnique(a.membersByFailureDomain, b.membersByFailureDomain, a.members, a.failureDomains);
    }
  }

  /** Rebuilds the indexes of a copy and compares them with the maintained ones. */
  method IndexesMatchRebuilt(state: RackState) returns (same: bool)
    requires forall k :: k in state.members ==> state.members[k].key == k
    requires forall d :: d in state.failureDomains ==> state.failureDomains[d].id == d
    ensures same <==> IndexesExact(state)
  {
    hide RackState.MembersIndexed, Agrees, ExactBuckets, RackState.Valid, RackState.DomainIndexComplete, DomainSound;
    var copy := new RackState();
    copy.members := state.members;
    copy.relationships := state.relationships;
    copy.failureDomains := state.failureDomains;
    copy.RebuildIndexes();
    ExactIndexesAreSame(state, copy);
    same := SameIndexes(state, copy);
  }

  /**
   * Decides whether the records are consistent, the parent chains end, no failure domain is reached in two ways,
   * and the indexes are exact. It never asks whether a relationship sits under its own key.
   */
  method CheckInvariants(state: RackState, limits: Limits, now: i64) returns (passes: bool)
    ensures passes <==> Passes(state.Value(), limits, now) && IndexesExact(state)
  {
    hide RackPasses, EnvelopesPass, PublisherPasses, SnapshotPasses, RelationshipPasses, IndexesExact, Acyclic,
      ParentsOnce, SinglePaths, Stamp.IsFreshAt;
    var s := state.Value();
    if !RecordsPass(s, limits, now) {
      return false;
    }
    var chains := ParentChainsAcyclic(state.members);
    var domains := DomainsScanClean(state.failureDomains);
    var indexes := IndexesMatchRebuilt(state);
    passes := chains && domains && indexes;
  }

  /** Passing implies everything the structural invariant says, except that the CONTAINS graph is acyclic. */
  lemma PassingIsStructured(state: RackState, limits: Limits, now: i64)
    requires Passes(state.Value(), limits, now) && IndexesExact(state)
    requires forall k :: k in state.relationships ==> state.relationships[k].key == k
    ensures MembersStructured(state.members, state.failureDomains) && DomainsStructured(state.failureDomains)
    ensures state.Indexed() && state.DomainIndexComplete()
    ensures Acyclic(ContainsGraph(state.relationships)) && (forall k :: k in state.relationships ==> Canonical(k) == k) ==>
              state.Valid()
  {
    hide Acyclic, SinglePaths, RackState.MembersIndexed, Agrees, Stamp.IsFreshAt, Canonical;
    var s := state.Value();
    SinglePathsAreAcyclic(DomainGraph(s.failureDomains));
    StoredUnderTheirKeys(state.relationships);
    forall k, d | k in s.members && d in s.members[k].failureDomains
      ensures d in s.failureDomains
    {
      assert MemberPasses(s, limits, now, k);
      var i :| 0 <= i < |s.members[k].failureDomains| && s.members[k].failureDomains[i] == d;
    }
    forall d, p | d in s.failureDomains && p in s.failureDomains[d].parents
      ensures p in s.failureDomains
    {
      assert DomainPasses(s, d);
      var i :| 0 <= i < |s.failureDomains[d].parents| && s.failureDomains[d].parents[i] == p;
    }
    assert forall k :: k in s.members ==> MemberPasses(s, limits, now, k);
    assert forall k :: k in s.relationships ==> RelationshipPasses(s, k);
  }

  // ----- Where the check says more or less than its name -----

  /** An acyclic diamond of well-formed domains does not pass: the check asks for single paths, not for acyclicity. */
  lemma DiamondFails(s: Core, limits: Limits, now: i64, top: Text, left: Text, right: Text, base: Text)
    requires {top, left, right, base} <= s.failureDomains.Keys
    requires left != right
    requires left in s.failureDomains[base].parents && right in s.failureDomains[base].parents
    requires top in s.failureDomains[left].parents && top in s.failureDomains[right].parents
    ensures !Passes(s, limits, now)
  {
    var g := DomainGraph(s.failureDomains);
    var p, q := [base, left, top], [base, right, top];
    assert (base, left) in g && (left, top) in g && (base, right) in g && (right, top) in g;
    assert Path(g, p) && Path(g, q) && p[1] != q[1];
  }

  function Plain(id: Text, parents: seq<Text>): FailureDomainRecord {
    FailureDomainRecord(id, FailureDomainKind.Other, MemberLifecycle.Declared, parents, 1, NO_EVIDENCE, None, None, None,
                        None)
  }

  /** Such diamonds exist, and keep the structural invariant. */
  lemma DiamondsAreStructured(a: Text, b: Text, c: Text, d: Text) returns (domains: map<Text, FailureDomainRecord>)
    requires a != b && a != c && a != d && b != c && b != d && c != d
    ensures domains.Keys == {a, b, c, d} && domains[d].parents == [b, c]
    ensures domains[b].parents == domains[c].parents == [a]
    ensures DomainsStructured(domains)
  {
    domains := map[a := Plain(a, []), b := Plain(b, [a]), c := Plain(c, [a]), d := Plain(d, [b, c])];
    RankedIsAcyclic(DomainGraph(domains), (t: Text) => if t == a then 0 else if t == d then 2 else 1);
  }

  /** Two members that contain each other pass: the check never follows CONTAINS relationships. */
  lemma MutualContainmentPasses(s: Core, limits: Limits, now: i64, a: MemberKey, b: MemberKey, r: RelationshipRecord)
    requires Passes(s, limits, now) && a in s.members && b in s.members && a != b
    requires 0 < r.generation <= s.generations.topology
    ensures var there, back := RelationshipKey(Contains, a, b), RelationshipKey(Contains, b, a);
            var t := s.(relationships := s.relationships[there := r.(key := there)][back := r.(key := back)]);
            Passes(t, limits, now) && !Acyclic(ContainsGraph(t.relationships))
  {
    hide Acyclic, SinglePaths, ParentsOnce, RecordsPass, RelationshipPasses;
    var there, back := RelationshipKey(Contains, a, b), RelationshipKey(Contains, b, a);
    var t := s.(relationships := s.relationships[there := r.(key := there)][back := r.(key := back)]);
    OtherRelationshipsPass(s, t, limits, now, {there, back});
    var g := ContainsGraph(t.relationships);
    assert (there.to, there.from) in g && (back.to, back.from) in g;
    ReachesSelf(g, a);
    ReachesEdge(g, a, a, b);
    ReturnIsCycle(g, b, a);
  }

  lemma OtherRelationshipsPass(s: Core, t: Core, limits: Limits, now: i64, added: set<RelationshipKey>)
    requires RecordsPass(s, limits, now) && t == s.(relationships := t.relationships)
    requires t.relationships.Keys == s.relationships.Keys + added
    requires forall k :: k in s.relationships && k !in added ==> t.relationships[k] == s.relationships[k]
    requires forall k :: k in added ==>
               && k.from != k.to && k.from in s.members && k.to in s.members
               && 0 < t.relationships[k].generation <= s.generations.topology
    ensures RecordsPass(t, limits, now)
  {
    hide MemberPasses, RelationshipPasses, DomainPasses, PublisherPasses, SnapshotPasses, RackPasses, EnvelopesPass;
    forall k | k in t.members
      ensures MemberPasses(t, limits, now, k)
    {
      MemberStillPasses(s, t, limits, now, k);
    }
    forall k | k in t.relationships
      ensures RelationshipPasses(t, k)
    {
      RelationshipStillPasses(s, t, added, k);
    }
    OthersStillPass(s, t);
  }

  lemma MemberStillPasses(s: Core, t: Core, limits: Limits, now: i64, k: MemberKey)
    requires t == s.(relationships := t.relationships) && k in s.members && MemberPasses(s, limits, now, k)
    ensures MemberPasses(t, limits, now, k)
  {
  }

  lemma RelationshipStillPasses(s: Core, t: Core, added: set<RelationshipKey>, k: RelationshipKey)
    requires t == s.(relationships := t.relationships) && k in t.relationships
    requires k !in added ==> k in s.relationships && RelationshipPasses(s, k) && t.relationships[k] == s.relationships[k]
    requires k in added ==>
               && k.from != k.to && k.from in s.members && k.to in s.members
               && 0 < t.relationships[k].generation <= s.generations.topology
    ensures RelationshipPasses(t, k)
  {
  }

  lemma OthersStillPass(s: Core, t: Core)
    requires t == s.(relationships := t.relationships)
    ensures RackPasses(s) ==> RackPasses(t)
    ensures EnvelopesPass(s) ==> EnvelopesPass(t)
    ensures forall d :: d in s.failureDomains && DomainPasses(s, d) ==> DomainPasses(t, d)
    ensures forall b :: b in s.publishers && PublisherPasses(s, b) ==> PublisherPasses(t, b)
    ensures forall g :: g in s.snapshots && SnapshotPasses(s, g) ==> SnapshotPasses(t, g)
  {
  }
}
