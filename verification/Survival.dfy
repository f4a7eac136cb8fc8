/** What a restart keeps: exactly which records, observations and counters come back as they were. */
module Survival {
  import opened Wrappers
  import opened Evidence
  import opened Model
  import opened Machine
  import opened Processes
  import opened Recovery
  import opened Persistence
  import opened RackReadiness
  import opened Verdicts

  /** A durable record that belongs to no process outlives it. */
  predicate Endures(owner: Option<Text>, stamp: Stamp) { owner.None? && stamp.durability.Durable? }

  predicate Outlives(owner: Option<Text>, before: Stamp, after: Stamp) {
    after == if Endures(owner, before) then before else Marked(before)
  }

  /** A durable observation stays as it was made; of any other nothing is known any more. */
  predicate IsKept<T(==)>(before: EvidenceValue<T>, after: EvidenceValue<T>) {
    if before.stamp.durability.Durable? then after == before
    else after.stamp.provenance.Unknown? && !after.stamp.revalidationRequired
  }

  /** Key, lifecycle, generations, references and details come back; what was observed, as far as it is durable. */
  predicate MemberReturns(r: MemberRecord, m: MemberRecord) {
    && Outlives(r.ownerBoot, r.stamp, m.stamp)
    && m.revalidationReason == (if Endures(r.ownerBoot, r.stamp) then r.revalidationReason else CoordinatorRestarted)
    && IsKept(r.health, m.health) && IsKept(r.readiness, m.readiness) && IsKept(r.reachability, m.reachability)
    && LosesLives(r.capabilities, m.capabilities)
    && m == r.(stamp := m.stamp, revalidationReason := m.revalidationReason, ownerBoot := None, ownerWorker := None,
               health := m.health, readiness := m.readiness, reachability := m.reachability,
               capabilities := m.capabilities)
  }

  predicate PowerReturns(p: PowerEnvelope, q: PowerEnvelope) {
    && Outlives(p.ownerBoot, p.stamp, q.stamp) && |q.domainBudgets| == |p.domainBudgets|
    && var f := q.(stamp := p.stamp, ownerBoot := p.ownerBoot, ownerWorker := p.ownerWorker);
       if p.stamp.durability.Durable? then f == p && q.ownerBoot.None?
       else
         && q.ownerBoot.None? && f == p.(rackObservedDraw := None, rackHeadroom := None,
           domainBudgets := q.domainBudgets)
         && forall i :: 0 <= i < |p.domainBudgets| ==>
              q.domainBudgets[i] == p.domainBudgets[i].(observedDraw := None, headroom := None)
  }

  predicate CoolingReturns(c: CoolingEnvelope, d: CoolingEnvelope) {
    && Outlives(c.ownerBoot, c.stamp, d.stamp) && |d.zones| == |c.zones|
    && var f := d.(stamp := c.stamp, ownerBoot := c.ownerBoot, ownerWorker := c.ownerWorker);
       if c.stamp.durability.Durable? then f == c && d.ownerBoot.None?
       else
         && d.ownerBoot.None? && f == c.(zones := d.zones)
         && forall i :: 0 <= i < |c.zones| ==>
              d.zones[i] == c.zones[i].(observedTemperature := None, thermalHeadroom := None, throttling := None)
  }

  ghost predicate RecordsReturn(s: Core, t: Core) {
    && t.members.Keys == s.members.Keys && t.relationships.Keys == s.relationships.Keys
    && t.failureDomains.Keys == s.failureDomains.Keys
    && (forall k :: k in s.members ==> MemberReturns(s.members[k], t.members[k]))
    && (forall k :: k in s.relationships ==>
          var r, u := s.relationships[k], t.relationships[k];
          Outlives(r.ownerBoot, r.stamp, u.stamp) && u == r.(stamp := u.stamp, ownerBoot := None, ownerWorker := None))
    && (forall d :: d in s.failureDomains ==>
          var r, u := s.failureDomains[d], t.failureDomains[d];
          Outlives(r.ownerBoot, r.stamp, u.stamp) && u == r.(stamp := u.stamp, ownerBoot := None, ownerWorker := None))
    && (t.power.Some? <==> s.power.Some?) && (s.power.Some? ==> PowerReturns(s.power.value, t.power.value))
    && (t.cooling.Some? <==> s.cooling.Some?) && (s.cooling.Some? ==> CoolingReturns(s.cooling.value, t.cooling.value))
  }

  /** Processes come back lost, the epoch is the next one, and every other counter, fence and snapshot is as it was. */
  ghost predicate RestReturns(s: Core, t: Core) {
    && t.publishers.Keys == s.publishers.Keys
    && (forall b :: b in s.publishers ==> t.publishers[b] == s.publishers[b].(state := PublisherState.Lost))
    && t.generations == s.generations.(coordinatorEpoch := t.generations.coordinatorEpoch)
    && t.generations.coordinatorEpoch == s.generations.coordinatorEpoch + 1
    && t.rack == s.rack && t.fencedBoots == s.fencedBoots && t.snapshots == s.snapshots
    && t.snapshotGeneration == s.snapshotGeneration && t.operatorPublication == s.operatorPublication
  }

  lemma MemberComesBack(r: MemberRecord)
    ensures MemberReturns(r, RecoveredMember(r))
  {
  }

  lemma PowerComesBack(p: PowerEnvelope)
    ensures PowerReturns(p, RecoveredPower(p))
  {
  }

  lemma CoolingComesBack(c: CoolingEnvelope)
    ensures CoolingReturns(c, RecoveredCooling(c))
  {
  }

  lemma RestComesBack(s: Core)
    requires s.generations.coordinatorEpoch < U64_MAX
    ensures RestReturns(s, Recovered(s, s.generations.coordinatorEpoch + 1))
  {
    hide RecoveredMember, RecoveredRelationship, RecoveredDomain, RecoveredPower, RecoveredCooling;
  }

  lemma TopologyComesBack(s: Core, epoch: u64)
    ensures var t := Recovered(s, epoch);
            && t.relationships.Keys == s.relationships.Keys && t.failureDomains.Keys == s.failureDomains.Keys
            && (forall k :: k in s.relationships ==>
                  var r, u := s.relationships[k], t.relationships[k];
                  Outlives(r.ownerBoot, r.stamp, u.stamp) && u == r.(stamp := u.stamp, ownerBoot := None,
                    ownerWorker := None))
            && forall d :: d in s.failureDomains ==>
                 var r, u := s.failureDomains[d], t.failureDomains[d];
                 Outlives(r.ownerBoot, r.stamp, u.stamp) && u == r.(stamp := u.stamp, ownerBoot := None,
                   ownerWorker := None)
  {
    hide RecoveredMember, RecoveredPower, RecoveredCooling, RecoveredPublisher;
  }

  /** Recovery loses what it must and nothing else: each record, observation and counter is described exactly. */
  lemma RecoveryIsExact(s: Core)
    requires s.generations.coordinatorEpoch < U64_MAX
    ensures var t := Recovered(s, s.generations.coordinatorEpoch + 1); RecordsReturn(s, t) && RestReturns(s, t)
  {
    hide MemberReturns, PowerReturns, CoolingReturns, RecoveredMember, RecoveredPower, RecoveredCooling, RestReturns,
      RecoveredRelationship, RecoveredDomain, RecoveredPublisher, Outlives;
    RestComesBack(s);
    TopologyComesBack(s, s.generations.coordinatorEpoch + 1);
    forall k | k in s.members {
      MemberComesBack(s.members[k]);
    }
    if s.power.Some? {
      PowerComesBack(s.power.value);
    }
    if s.cooling.Some? {
      CoolingComesBack(s.cooling.value);
    }
  }

  /** The state a saved state is loaded as. */
  ghost predicate RestartsAs(env: Env, s: Core, now: i64, t: Core) {
    Restorable(env, s, now) && Loaded(env, SavedFile(env, s), now) == Some(t)
  }

  /** Whatever can be restored is, with exactly what recovery keeps. */
  lemma RestartIsExact(env: Env, s: Core, now: i64, t: Core)
    requires RestartsAs(env, s, now, t)
    ensures RecordsReturn(s, t) && RestReturns(s, t)
  {
    hide Restorable, Loaded, SavedFile, Recovered, RecordsReturn, RestReturns;
    LoadAfterSave(env, s, now);
    NextEpoch(env, s, now);
    RecoveryIsExact(s);
  }

  lemma RestartHappens(env: Env, s: Core, now: i64)
    requires Restorable(env, s, now)
    ensures exists t :: RestartsAs(env, s, now, t)
  {
    hide Restorable, Loaded, SavedFile, Recovered;
    LoadAfterSave(env, s, now);
    NextEpoch(env, s, now);
    assert RestartsAs(env, s, now, Recovered(s, s.generations.coordinatorEpoch + 1));
  }

  lemma OutlivesFresh(owner: Option<Text>, before: Stamp, after: Stamp, at: i64)
    requires Outlives(owner, before, after)
    ensures after.IsFreshAt(at) <==> Endures(owner, before) && before.IsFreshAt(at)
  {
  }

  lemma KeptFresh<T>(before: EvidenceValue<T>, after: EvidenceValue<T>, at: i64)
    requires IsKept(before, after)
    ensures after.stamp.IsFreshAt(at) <==> before.stamp.durability.Durable? && before.stamp.IsFreshAt(at)
  {
  }

  /** After a save and a load a member is fresh exactly when it was, if it is durable and unowned, and never else. */
  lemma FreshAfterRestart(env: Env, s: Core, now: i64, t: Core, k: MemberKey, contract: ReadinessContract, at: i64)
    requires RestartsAs(env, s, now, t) && k in s.members
    ensures var r := s.members[k];
            && k in t.members
            && (t.members[k].stamp.IsFreshAt(at) <==> Endures(r.ownerBoot, r.stamp) && r.stamp.IsFreshAt(at))
            && (HasCurrentEvidence(t.members[k], at, contract) <==>
                  Endures(r.ownerBoot, r.stamp) && HasCurrentEvidence(r, at, contract))
            && (t.members[k].health.stamp.IsFreshAt(at) <==>
                  r.health.stamp.durability.Durable? && r.health.stamp.IsFreshAt(at))
            && (t.members[k].readiness.stamp.IsFreshAt(at) <==>
                  r.readiness.stamp.durability.Durable? && r.readiness.stamp.IsFreshAt(at))
  {
    hide RestartsAs, Stamp.IsFreshAt, LosesLives;
    RestartIsExact(env, s, now, t);
    var r := s.members[k];
    assert MemberReturns(r, t.members[k]);
    hide RecordsReturn, RestReturns;
    OutlivesFresh(r.ownerBoot, r.stamp, t.members[k].stamp, at);
    KeptFresh(r.health, t.members[k].health, at);
    KeptFresh(r.readiness, t.members[k].readiness, at);
    hide IsKept;
  }

  ghost predicate TopologyFreshAsBefore(s: Core, t: Core, at: i64) {
    && t.relationships.Keys == s.relationships.Keys && t.failureDomains.Keys == s.failureDomains.Keys
    && (forall k :: k in s.relationships ==>
          var r := s.relationships[k];
          t.relationships[k].stamp.IsFreshAt(at) <==> Endures(r.ownerBoot, r.stamp) && r.stamp.IsFreshAt(at))
    && forall d :: d in s.failureDomains ==>
         var r := s.failureDomains[d];
         t.failureDomains[d].stamp.IsFreshAt(at) <==> Endures(r.ownerBoot, r.stamp) && r.stamp.IsFreshAt(at)
  }

  ghost predicate EnvelopesFreshAsBefore(s: Core, t: Core, at: i64) {
    && (s.power.Some? ==>
          && t.power.Some?
          && (t.power.value.stamp.IsFreshAt(at) <==>
                Endures(s.power.value.ownerBoot, s.power.value.stamp) && s.power.value.stamp.IsFreshAt(at)))
    && (s.cooling.Some? ==>
          && t.cooling.Some?
          && (t.cooling.value.stamp.IsFreshAt(at) <==>
                Endures(s.cooling.value.ownerBoot, s.cooling.value.stamp) && s.cooling.value.stamp.IsFreshAt(at)))
  }

  /** So are relationships, domains and envelopes. */
  lemma TopologyFreshAfterRestart(env: Env, s: Core, now: i64, t: Core, at: i64)
    requires RestartsAs(env, s, now, t)
    ensures TopologyFreshAsBefore(s, t, at) && EnvelopesFreshAsBefore(s, t, at)
  {
    hide RestartsAs, Stamp.IsFreshAt, MemberReturns, RestReturns, Outlives, Endures;
    RestartIsExact(env, s, now, t);
    forall k | k in s.relationships {
      OutlivesFresh(s.relationships[k].ownerBoot, s.relationships[k].stamp, t.relationships[k].stamp, at);
    }
    forall d | d in s.failureDomains {
      OutlivesFresh(s.failureDomains[d].ownerBoot, s.failureDomains[d].stamp, t.failureDomains[d].stamp, at);
    }
    if s.power.Some? {
      OutlivesFresh(s.power.value.ownerBoot, s.power.value.stamp, t.power.value.stamp, at);
    }
    if s.cooling.Some? {
      OutlivesFresh(s.cooling.value.ownerBoot, s.cooling.value.stamp, t.cooling.value.stamp, at);
    }
  }

  /** Something does not endure a restart. */
  ghost predicate SomethingFades(s: Core) {
    || (exists k :: k in s.members && !Endures(s.members[k].ownerBoot, s.members[k].stamp))
    || (exists k :: k in s.relationships && !Endures(s.relationships[k].ownerBoot, s.relationships[k].stamp))
    || (exists d :: d in s.failureDomains && !Endures(s.failureDomains[d].ownerBoot, s.failureDomains[d].stamp))
  }

  /** After a restart a live rack must be revalidated exactly when it had to be, or something of it did not endure. */
  lemma RestartAwaitsIff(env: Env, s: Core, now: i64, t: Core, contract: ReadinessContract, at: i64)
    requires RestartsAs(env, s, now, t)
    ensures Lifecycle(t, contract, at).RevalidationRequired? <==>
              IsLive(s) && (AwaitsAssertion(s) || SomethingFades(s))
  {
    hide RestartsAs, Lifecycle, AwaitsAssertion, SomethingFades, RecordsReturn;
    RestartIsExact(env, s, now, t);
    LifecycleMeans(t, contract, at);
    ReturnedAwaitIff(s, t);
    hide RestReturns;
  }

  lemma ReturnedAwaitIff(s: Core, t: Core)
    requires RecordsReturn(s, t)
    ensures AwaitsAssertion(t) <==> AwaitsAssertion(s) || SomethingFades(s)
  {
    hide PowerReturns, CoolingReturns, IsKept, LosesLives;
  }
}
