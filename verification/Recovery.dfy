/** The conservative rewrite of a recovered state: nothing observed by a dead process is current again. */
module Recovery {
  import opened Wrappers
  import opened Evidence
  import opened Model
  import opened Machine
  import opened Structure
  import opened State
  import opened Fabric

  /** Whether a record must be asserted again before it is current. */
  predicate MustReturn(owner: Option<Text>, stamp: Stamp) {
    stamp.durability.Ephemeral? || owner.Some?
  }

  function RecoveredStamp(owner: Option<Text>, stamp: Stamp): Stamp {
    if MustReturn(owner, stamp) then stamp.(revalidationRequired := true) else stamp
  }

  function Kept<T>(e: EvidenceValue<T>, none: EvidenceValue<T>): EvidenceValue<T> {
    if e.stamp.durability.Ephemeral? then none else e
  }

  function RecoveredMember(r: MemberRecord): MemberRecord {
    r.(stamp := RecoveredStamp(r.ownerBoot, r.stamp),
       revalidationReason := if MustReturn(r.ownerBoot, r.stamp) then CoordinatorRestarted else r.revalidationReason,
       ownerBoot := None, ownerWorker := None,
       health := Kept(r.health, NO_HEALTH), readiness := Kept(r.readiness, NO_READINESS),
       reachability := Kept(r.reachability, NO_REACHABILITY),
       capabilities := seq(|r.capabilities|, i requires 0 <= i < |r.capabilities| => DemotedCapability(r.capabilities[i])))
  }

  function RecoveredRelationship(r: RelationshipRecord): RelationshipRecord {
    r.(stamp := RecoveredStamp(r.ownerBoot, r.stamp), ownerBoot := None, ownerWorker := None)
  }

  function RecoveredDomain(d: FailureDomainRecord): FailureDomainRecord {
    d.(stamp := RecoveredStamp(d.ownerBoot, d.stamp), ownerBoot := None, ownerWorker := None)
  }

  function RecoveredPower(p: PowerEnvelope): PowerEnvelope {
    var q := p.(stamp := RecoveredStamp(p.ownerBoot, p.stamp), ownerBoot := None, ownerWorker := None);
    if p.stamp.durability.Ephemeral? then
      q.(rackObservedDraw := None, rackHeadroom := None,
         domainBudgets := seq(|q.domainBudgets|, i requires 0 <= i < |q.domainBudgets| =>
           q.domainBudgets[i].(observedDraw := None, headroom := None)))
    else q
  }

  function RecoveredCooling(c: CoolingEnvelope): CoolingEnvelope {
    var q := c.(stamp := RecoveredStamp(c.ownerBoot, c.stamp), ownerBoot := None, ownerWorker := None);
    if c.stamp.durability.Ephemeral? then
      q.(zones := seq(|q.zones|, i requires 0 <= i < |q.zones| => FencedZone(q.zones[i])))
    else q
  }

  function RecoveredPublisher(p: PublisherRecord): PublisherRecord { p.(state := PublisherState.Lost) }

  function Recovered(s: Core, epoch: u64): Core {
    s.(publishers := map b | b in s.publishers :: RecoveredPublisher(s.publishers[b]),
       members := map k | k in s.members :: RecoveredMember(s.members[k]),
       relationships := map k | k in s.relationships :: RecoveredRelationship(s.relationships[k]),
       failureDomains := map d | d in s.failureDomains :: RecoveredDomain(s.failureDomains[d]),
       power := if s.power.Some? then Some(RecoveredPower(s.power.value)) else None,
       cooling := if s.cooling.Some? then Some(RecoveredCooling(s.cooling.value)) else None,
       generations := s.generations.(coordinatorEpoch := epoch))
  }

  // ----- The rewrite in place -----

  method RecoverRecords(state: RackState)
    modifies state`publishers, state`members, state`relationships, state`failureDomains, state`power, state`cooling
    ensures state.Value() == Recovered(old(state.Value()), state.generations.coordinatorEpoch)
  {
    hide RecoveredPublisher, RecoveredMember, RecoveredRelationship, RecoveredDomain, RecoveredPower, RecoveredCooling;
    ghost var s := state.Value();
    state.publishers := RewriteAll(state.publishers, RecoveredPublisher);
    state.members := RewriteAll(state.members, RecoveredMember);
    state.relationships := RewriteAll(state.relationships, RecoveredRelationship);
    state.failureDomains := RewriteAll(state.failureDomains, RecoveredDomain);
    if state.power.Some? {
      state.power := Some(RecoveredPower(state.power.value));
    }
    if state.cooling.Some? {
      state.cooling := Some(RecoveredCooling(state.cooling.value));
    }
    RewrittenRecords(s, state.publishers, state.members, state.relationships, state.failureDomains);
  }

  lemma RewrittenRecords(
    s: Core, publishers: map<Text, PublisherRecord>, members: map<MemberKey, MemberRecord>,
    relationships: map<RelationshipKey, RelationshipRecord>, domains: map<Text, FailureDomainRecord>)
    requires publishers.Keys == s.publishers.Keys
    requires forall b :: b in publishers ==> publishers[b] == RecoveredPublisher(s.publishers[b])
    requires members.Keys == s.members.Keys
    requires forall k :: k in members ==> members[k] == RecoveredMember(s.members[k])
    requires relationships.Keys == s.relationships.Keys
    requires forall k :: k in relationships ==> relationships[k] == RecoveredRelationship(s.relationships[k])
    requires domains.Keys == s.failureDomains.Keys
    requires forall d :: d in domains ==> domains[d] == RecoveredDomain(s.failureDomains[d])
    ensures forall epoch {:trigger Recovered(s, epoch)} ::
              var t := Recovered(s, epoch);
              && t.publishers == publishers && t.members == members && t.relationships == relationships
              && t.failureDomains == domains
  {
    hide RecoveredPublisher, RecoveredMember, RecoveredRelationship, RecoveredDomain, RecoveredPower, RecoveredCooling;
    forall epoch
      ensures var t := Recovered(s, epoch);
              && t.publishers == publishers && t.members == members && t.relationships == relationships
              && t.failureDomains == domains
    {
      var t := Recovered(s, epoch);
      assert t.publishers == publishers;
      assert t.members == members;
      assert t.relationships == relationships;
      assert t.failureDomains == domains;
    }
  }

  /** Rewrites a candidate state, moves it to the next epoch, and rebuilds its indexes. */
  method ApplyRecoveryPolicy(state: RackState, epoch: u64)
    requires forall k :: k in state.members ==> state.members[k].key == k
    requires forall k :: k in state.relationships ==> state.relationships[k].key == k
    requires forall d :: d in state.failureDomains ==> state.failureDomains[d].id == d
    modifies state
    ensures state.Value() == Recovered(old(state.Value()), epoch)
    ensures state.Indexed() && state.DomainIndexComplete() && state.HasExactBuckets()
  {
    hide Recovered, RackState.MembersIndexed, DomainSound, DomainComplete, ExactBuckets;
    ghost var s := state.Value();
    RecoverRecords(state);
    RecoveredKeys(s, state.generations.coordinatorEpoch);
    RecoveredEpoch(s, state.generations.coordinatorEpoch, epoch);
    state.generations := state.generations.(coordinatorEpoch := epoch);
    state.RebuildIndexes();
  }

  lemma RecoveredKeys(s: Core, epoch: u64)
    requires forall k :: k in s.members ==> s.members[k].key == k
    requires forall k :: k in s.relationships ==> s.relationships[k].key == k
    requires forall d :: d in s.failureDomains ==> s.failureDomains[d].id == d
    ensures var t := Recovered(s, epoch);
            && (forall k :: k in t.members ==> t.members[k].key == k)
            && (forall k :: k in t.relationships ==> t.relationships[k].key == k)
            && forall d :: d in t.failureDomains ==> t.failureDomains[d].id == d
  {
  }

  lemma RecoveredEpoch(s: Core, before: u64, after: u64)
    ensures Recovered(s, after) == Recovered(s, before).(generations := s.generations.(coordinatorEpoch := after))
    ensures Recovered(s, before).generations == s.generations.(coordinatorEpoch := before)
  {
  }

  // ----- What recovery guarantees -----

  /** After recovery no process is current, nothing has an owner, and nothing owned or ephemeral is ever fresh. */
  lemma RecoveryIsConservative(s: Core, epoch: u64, at: i64)
    ensures var t := Recovered(s, epoch);
            && (forall b :: b in t.publishers ==> t.publishers[b].state.Lost?)
            && (forall k :: k in t.members ==> t.members[k].ownerBoot.None? && t.members[k].ownerWorker.None?)
            && (forall k :: k in t.relationships ==> t.relationships[k].ownerBoot.None?)
            && (forall d :: d in t.failureDomains ==> t.failureDomains[d].ownerBoot.None?)
            && (t.power.Some? ==> t.power.value.ownerBoot.None?) && (t.cooling.Some? ==> t.cooling.value.ownerBoot.None?)
    ensures var t := Recovered(s, epoch);
            && (forall k :: k in s.members && MustReturn(s.members[k].ownerBoot, s.members[k].stamp) ==>
                  !t.members[k].stamp.IsFreshAt(at))
            && (forall k :: k in s.relationships && MustReturn(s.relationships[k].ownerBoot, s.relationships[k].stamp) ==>
                  !t.relationships[k].stamp.IsFreshAt(at))
            && (forall d :: d in s.failureDomains && MustReturn(s.failureDomains[d].ownerBoot, s.failureDomains[d].stamp) ==>
                  !t.failureDomains[d].stamp.IsFreshAt(at))
  {
    hide Kept, DemotedCapability;
  }

  /** Ephemeral observations do not outlive the coordinator: neither a member's, nor those of an envelope. */
  lemma ObservationsAreForgotten(s: Core, epoch: u64, at: i64)
    ensures var t := Recovered(s, epoch);
            && (s.power.Some? && MustReturn(s.power.value.ownerBoot, s.power.value.stamp) ==>
                  !t.power.value.stamp.IsFreshAt(at))
            && (s.cooling.Some? && MustReturn(s.cooling.value.ownerBoot, s.cooling.value.stamp) ==>
                  !t.cooling.value.stamp.IsFreshAt(at))
            && (s.power.Some? && s.power.value.stamp.durability.Ephemeral? ==>
                  && t.power.value.rackObservedDraw.None? && t.power.value.rackHeadroom.None?
                  && forall b :: b in t.power.value.domainBudgets ==> b.observedDraw.None? && b.headroom.None?)
            && (s.cooling.Some? && s.cooling.value.stamp.durability.Ephemeral? ==>
                  forall z :: z in t.cooling.value.zones ==>
                    z.observedTemperature.None? && z.thermalHeadroom.None? && z.throttling.None?)
    ensures var t := Recovered(s, epoch);
            forall k :: k in s.members ==>
              && (s.members[k].health.stamp.durability.Ephemeral? ==> !t.members[k].health.stamp.IsFreshAt(at))
              && (s.members[k].readiness.stamp.durability.Ephemeral? ==> !t.members[k].readiness.stamp.IsFreshAt(at))
              && (s.members[k].reachability.stamp.durability.Ephemeral? ==> !t.members[k].reachability.stamp.IsFreshAt(at))
              && forall c :: c in t.members[k].capabilities && c.stamp.durability.Ephemeral? ==> !c.stamp.IsFreshAt(at)
  {
    EnvelopesAreForgotten(s, at);
    hide RecoveredPower, RecoveredCooling, RecoveredRelationship, RecoveredDomain, RecoveredPublisher, RecoveredMember;
    forall k | k in s.members {
      MemberObservationsAreForgotten(s.members[k], at);
    }
  }

  lemma MemberObservationsAreForgotten(r: MemberRecord, at: i64)
    ensures var m := RecoveredMember(r);
            && (r.health.stamp.durability.Ephemeral? ==> !m.health.stamp.IsFreshAt(at))
            && (r.readiness.stamp.durability.Ephemeral? ==> !m.readiness.stamp.IsFreshAt(at))
            && (r.reachability.stamp.durability.Ephemeral? ==> !m.reachability.stamp.IsFreshAt(at))
            && forall c :: c in m.capabilities && c.stamp.durability.Ephemeral? ==> !c.stamp.IsFreshAt(at)
  {
  }

  lemma EnvelopesAreForgotten(s: Core, at: i64)
    ensures s.power.Some? ==>
              var p := RecoveredPower(s.power.value);
              && (MustReturn(s.power.value.ownerBoot, s.power.value.stamp) ==> !p.stamp.IsFreshAt(at))
              && (s.power.value.stamp.durability.Ephemeral? ==>
                    && p.rackObservedDraw.None? && p.rackHeadroom.None?
                    && forall b :: b in p.domainBudgets ==> b.observedDraw.None? && b.headroom.None?)
    ensures s.cooling.Some? ==>
              var c := RecoveredCooling(s.cooling.value);
              && (MustReturn(s.cooling.value.ownerBoot, s.cooling.value.stamp) ==> !c.stamp.IsFreshAt(at))
              && (s.cooling.value.stamp.durability.Ephemeral? ==>
                    forall z :: z in c.zones ==>
                      z.observedTemperature.None? && z.thermalHeadroom.None? && z.throttling.None?)
  {
  }

  lemma MemberRecoveredTwice(r: MemberRecord)
    ensures RecoveredMember(RecoveredMember(r)) == RecoveredMember(r)
  {
    var once := RecoveredMember(r);
    var twice := RecoveredMember(once);
    assert once.capabilities == twice.capabilities;
  }

  lemma PowerRecoveredTwice(p: PowerEnvelope)
    ensures RecoveredPower(RecoveredPower(p)) == RecoveredPower(p)
  {
    assert RecoveredPower(RecoveredPower(p)).domainBudgets == RecoveredPower(p).domainBudgets;
  }

  lemma CoolingRecoveredTwice(c: CoolingEnvelope)
    ensures RecoveredCooling(RecoveredCooling(c)) == RecoveredCooling(c)
  {
    assert RecoveredCooling(RecoveredCooling(c)).zones == RecoveredCooling(c).zones;
  }

  lemma TopologyRecoveredTwice()
    ensures forall r {:trigger RecoveredRelationship(r)} ::
              RecoveredRelationship(RecoveredRelationship(r)) == RecoveredRelationship(r)
    ensures forall d {:trigger RecoveredDomain(d)} :: RecoveredDomain(RecoveredDomain(d)) == RecoveredDomain(d)
    ensures forall p {:trigger RecoveredPublisher(p)} :: RecoveredPublisher(RecoveredPublisher(p)) == RecoveredPublisher(p)
  {
  }

  lemma RecordsRecoveredTwice(s: Core, first: u64, second: u64)
    ensures var t, u := Recovered(Recovered(s, first), second), Recovered(s, second);
            && t.members == u.members && t.relationships == u.relationships && t.failureDomains == u.failureDomains
            && t.publishers == u.publishers
  {
    hide RecoveredMember, RecoveredRelationship, RecoveredDomain, RecoveredPublisher, RecoveredPower, RecoveredCooling;
    TopologyRecoveredTwice();
    forall k | k in s.members {
      MemberRecoveredTwice(s.members[k]);
    }
    var t, u := Recovered(Recovered(s, first), second), Recovered(s, second);
    assert t.members == u.members;
    assert t.relationships == u.relationships;
    assert t.failureDomains == u.failureDomains;
    assert t.publishers == u.publishers;
  }

  /** Recovering again changes nothing but the epoch. */
  lemma RecoveryIsIdempotent(s: Core, first: u64, second: u64)
    ensures Recovered(Recovered(s, first), second) == Recovered(s, second)
  {
    hide RecoveredMember, RecoveredRelationship, RecoveredDomain, RecoveredPublisher, RecoveredPower, RecoveredCooling;
    RecordsRecoveredTwice(s, first, second);
    if s.power.Some? {
      PowerRecoveredTwice(s.power.value);
    }
    if s.cooling.Some? {
      CoolingRecoveredTwice(s.cooling.value);
    }
  }

  /** Recovery adds no edge, so it keeps every graph acyclic and every reference valid. */
  lemma RecoveryKeepsStructure(s: Core, epoch: u64)
    requires Structured(s)
    ensures Structured(Recovered(s, epoch))
  {
    RecoveryShrinks(s, epoch);
    hide Structured, Shrunk;
    ShrunkIsStructured(s, Recovered(s, epoch));
  }

  lemma RecoveryShrinks(s: Core, epoch: u64)
    ensures Shrunk(s, Recovered(s, epoch))
  {
    hide Kept, DemotedCapability, RecoveredStamp, RecoveredPower, RecoveredCooling;
  }
}
