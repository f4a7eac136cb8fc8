/** Registration, heartbeats, fencing and leases: exactly what each does, and to whom. */
module Processes {
  import opened Wrappers
  import opened Evidence
  import opened Model
  import opened Ordering
  import opened Machine
  import Facts = Progress

  // ----- Registration and heartbeats -----

  /** A new boot is known from now on, active, under its lease; registering again only says that it is still there. */
  lemma RegistrationIsExact(s: Core, limits: Limits, e: Event, now: i64)
    requires e.RegisterPublisher?
    ensures var step := Register(s, limits, e, now);
            && (step.outcome.Accepted? ==>
                  && e.worker.Some? && e.boot.Some? && e.boot.value !in s.publishers
                    && |s.publishers| < limits.maxConnections
                  && step.state == s.(publishers := s.publishers[e.boot.value := PublisherRecord(
                       e.worker.value, e.boot.value, s.generations.coordinatorEpoch, 1, PublisherState.Active, now, now,
                       limits.publisherLeaseMillis, e.labelText, 0, 0)]))
            && (step.outcome.NoChange? ==>
                  && e.boot.Some? && e.boot.value in s.publishers
                  && Some(s.publishers[e.boot.value].worker) == e.worker
                  && step.state == s.(publishers := s.publishers[e.boot.value :=
                       s.publishers[e.boot.value].(lastSeenAt := now, state := PublisherState.Active)]))
            && (step.outcome.IsRejection() ==> step.state == s)
  {
    hide IsLabel;
  }

  /** A heartbeat says that its process is there, and nothing else. */
  lemma HeartbeatIsExact(s: Core, e: Event, now: i64)
    requires e.Heartbeat?
    ensures var step := HeartbeatStep(s, e, now);
            && (step.outcome.Accepted? ==>
                  && e.authority.boot.Some? && e.authority.boot.value in s.publishers
                  && step.state == s.(publishers := s.publishers[e.authority.boot.value :=
                       s.publishers[e.authority.boot.value].(lastSeenAt := now, state := PublisherState.Active)]))
            && (!step.outcome.Accepted? ==> step.state == s)
  {
    Facts.GrantMeans(s, e.authority, false);
    hide CheckAuthority;
  }

  // ----- Fencing -----

  function Marked(stamp: Stamp): Stamp { stamp.(revalidationRequired := true) }

  predicate IsOf(owner: Option<Text>, boots: set<Text>) { owner.Some? && owner.value in boots }

  /** An observation that is evidence of a live process must be made again; a durable one stands. */
  predicate LosesLife<T(==)>(a: EvidenceValue<T>, b: EvidenceValue<T>) {
    b == if !a.stamp.provenance.Unknown? && a.stamp.durability.Ephemeral? then a.(stamp := Marked(a.stamp)) else a
  }

  predicate LosesLives(a: seq<CapabilityRef>, b: seq<CapabilityRef>) {
    && |a| == |b|
    && forall i :: 0 <= i < |a| ==>
         b[i] == if a[i].stamp.durability.Ephemeral? then a[i].(stamp := Marked(a[i].stamp)) else a[i]
  }

  /** The record of an orphan: it must be asserted again, and so must its live observations; all else stays. */
  predicate OrphanedMember(r: MemberRecord, n: MemberRecord, reason: RevalidationReason) {
    && n.stamp == Marked(r.stamp) && n.revalidationReason == reason && n.generation == Advance(r.generation)
    && LosesLife(r.health, n.health) && LosesLife(r.readiness, n.readiness) && LosesLife(r.reachability, n.reachability)
    && LosesLives(r.capabilities, n.capabilities)
    && n == r.(stamp := n.stamp, revalidationReason := reason, generation := n.generation, health := n.health,
               readiness := n.readiness, reachability := n.reachability, capabilities := n.capabilities)
  }

  predicate OrphanedPower(p: PowerEnvelope, q: PowerEnvelope, boots: set<Text>) {
    q == if IsOf(p.ownerBoot, boots) && p.stamp.durability.Ephemeral?
         then p.(stamp := Marked(p.stamp), rackObservedDraw := None, rackHeadroom := None) else p
  }

  predicate OrphanedCooling(c: CoolingEnvelope, d: CoolingEnvelope, boots: set<Text>) {
    if IsOf(c.ownerBoot, boots) && c.stamp.durability.Ephemeral? then
      && |d.zones| == |c.zones| && d == c.(stamp := Marked(c.stamp), zones := d.zones)
      && forall i :: 0 <= i < |c.zones| ==>
           d.zones[i] == c.zones[i].(observedTemperature := None, thermalHeadroom := None, throttling := None)
    else d == c
  }

  ghost predicate OrphanedMembers(s: Core, t: Core, boots: set<Text>, reason: RevalidationReason) {
    && t.members.Keys == s.members.Keys
    && (forall k :: k in s.members && IsOf(s.members[k].ownerBoot, boots) ==>
          OrphanedMember(s.members[k], t.members[k], reason))
    && forall k :: k in s.members && !IsOf(s.members[k].ownerBoot, boots) ==> t.members[k] == s.members[k]
  }

  ghost predicate OrphanedTopology(s: Core, t: Core, boots: set<Text>) {
    && t.relationships.Keys == s.relationships.Keys && t.failureDomains.Keys == s.failureDomains.Keys
    && (forall k :: k in s.relationships ==>
          var r := s.relationships[k];
          t.relationships[k] == if IsOf(r.ownerBoot, boots) && r.stamp.durability.Ephemeral?
                                then r.(stamp := Marked(r.stamp)) else r)
    && forall k :: k in s.failureDomains ==>
         var d := s.failureDomains[k];
         t.failureDomains[k] == if IsOf(d.ownerBoot, boots) && d.stamp.durability.Ephemeral?
                                then d.(stamp := Marked(d.stamp)) else d
  }

  ghost predicate OrphanedEnvelopes(s: Core, t: Core, boots: set<Text>) {
    && (t.power.Some? <==> s.power.Some?) && (s.power.Some? ==> OrphanedPower(s.power.value, t.power.value, boots))
    && (t.cooling.Some? <==> s.cooling.Some?)
      && (s.cooling.Some? ==> OrphanedCooling(s.cooling.value, t.cooling.value, boots))
  }

  /** Exactly these processes lose their authority. */
  ghost predicate LoseAuthority(p: map<Text, PublisherRecord>, q: map<Text, PublisherRecord>, boots: set<Text>) {
    && q.Keys == p.Keys
    && (forall b :: b in boots ==> b in p && q[b] == p[b].(state := PublisherState.Fenced))
    && forall b :: b in p && b !in boots ==> q[b] == p[b]
  }

  /** They are recorded as fenced, for this reason. */
  ghost predicate Recorded(s: Core, t: Core, boots: set<Text>, reason: RevalidationReason, now: i64) {
    && t.fencedBoots.Keys == s.fencedBoots.Keys + boots
    && (forall b :: b in boots ==>
          && b in s.publishers
          && t.fencedBoots[b] == FencedBootRecord(b, Some(s.publishers[b].worker), s.generations.coordinatorEpoch,
            now, reason))
    && forall b :: b in s.fencedBoots && b !in boots ==> t.fencedBoots[b] == s.fencedBoots[b]
  }

  function UpTo(n: nat, generation: u64): u64 {
    if generation + n <= U64_MAX then generation + n else U64_MAX
  }

  ghost predicate Elsewhere(s: Core, t: Core, n: nat) {
    && t.rack == s.rack && t.snapshots == s.snapshots && t.snapshotGeneration == s.snapshotGeneration
    && t.operatorPublication == s.operatorPublication
    && t.generations == s.generations.(membership := UpTo(n, s.generations.membership))
  }

  /** These processes were fenced: they lost their authority, what is theirs is orphaned, and nothing else changed. */
  ghost predicate AreFenced(s: Core, t: Core, boots: set<Text>, reason: RevalidationReason, now: i64) {
    && LoseAuthority(s.publishers, t.publishers, boots) && Recorded(s, t, boots, reason, now)
    && OrphanedMembers(s, t, boots, reason) && OrphanedTopology(s, t, boots) && OrphanedEnvelopes(s, t, boots)
    && Elsewhere(s, t, |boots|)
  }

  lemma FencedRecordIsOrphan(r: MemberRecord, reason: RevalidationReason)
    ensures OrphanedMember(r, FencedMember(r, reason), reason)
  {
  }

  lemma FenceBootOrphans(s: Core, boot: Text, reason: RevalidationReason, now: i64)
    requires boot in s.publishers
    ensures var t := FenceBoot(s, boot, reason, now);
            OrphanedMembers(s, t, {boot}, reason) && OrphanedTopology(s, t, {boot}) && OrphanedEnvelopes(s, t, {boot})
  {
    FenceBootMembers(s, boot, reason, now);
    hide OrphanedMembers, FencedMember, FencedPower, FencedCooling, OrphanedEnvelopes;
    FenceBootEnvelopes(s, boot, reason, now);
  }

  lemma FenceBootMembers(s: Core, boot: Text, reason: RevalidationReason, now: i64)
    requires boot in s.publishers
    ensures OrphanedMembers(s, FenceBoot(s, boot, reason, now), {boot}, reason)
  {
    hide OrphanedMember, FencedMember, FencedRelationship, FencedDomain, FencedPower, FencedCooling;
    forall k | k in s.members {
      FencedRecordIsOrphan(s.members[k], reason);
    }
  }

  lemma FenceBootEnvelopes(s: Core, boot: Text, reason: RevalidationReason, now: i64)
    requires boot in s.publishers
    ensures OrphanedEnvelopes(s, FenceBoot(s, boot, reason, now), {boot})
  {
    hide FencedMember, FencedRelationship, FencedDomain;
  }

  lemma FenceBootSilences(s: Core, boot: Text, reason: RevalidationReason, now: i64)
    requires boot in s.publishers
    ensures var t := FenceBoot(s, boot, reason, now);
            && LoseAuthority(s.publishers, t.publishers, {boot}) && Recorded(s, t, {boot}, reason, now)
            && Elsewhere(s, t, 1)
  {
    hide FencedMember, FencedRelationship, FencedDomain, FencedPower, FencedCooling;
  }

  lemma FenceBootFences(s: Core, boot: Text, reason: RevalidationReason, now: i64)
    requires boot in s.publishers
    ensures AreFenced(s, FenceBoot(s, boot, reason, now), {boot}, reason, now)
  {
    FenceBootSilences(s, boot, reason, now);
    FenceBootOrphans(s, boot, reason, now);
    hide OrphanedMembers, OrphanedTopology, OrphanedEnvelopes, LoseAuthority, Recorded, Elsewhere, FenceBoot;
    assert |{boot}| == 1;
  }

  /** An accepted fencing fences the one process it names. */
  lemma FencingIsExact(s: Core, e: Event, now: i64)
    requires e.FencePublisher? && FenceStep(s, e.epoch, e.boot, e.reason, now).outcome.Accepted?
    ensures e.boot.Some? && e.boot.value in s.publishers && !s.publishers[e.boot.value].state.Fenced?
    ensures AreFenced(s, FenceStep(s, e.epoch, e.boot, e.reason, now).state, {e.boot.value}, e.reason, now)
  {
    FenceBootFences(s, e.boot.value, e.reason, now);
    hide FenceBoot, AreFenced;
  }

  // ----- Leases -----

  /** The process was last heard of longer ago than its lease lets it be silent. */
  predicate HasLapsed(p: PublisherRecord, now: i64) {
    (p.state.Active? || p.state.Registered?) && 0 < p.lastSeenAt && 0 < p.leaseMillis
      && p.lastSeenAt + p.leaseMillis < now
  }

  lemma NobodyFenced(s: Core, reason: RevalidationReason, now: i64)
    ensures AreFenced(s, s, {}, reason, now)
  {
  }

  lemma OneMore(s: Core, u: Core, t: Core, boot: Text, boots: set<Text>, reason: RevalidationReason, now: i64)
    requires boot !in boots && AreFenced(s, u, {boot}, reason, now) && AreFenced(u, t, boots, reason, now)
    ensures AreFenced(s, t, {boot} + boots, reason, now)
  {
    hide LoseAuthority, Recorded, OrphanedMembers, OrphanedTopology, OrphanedEnvelopes;
    OneMoreAuthority(s, u, t, boot, boots, reason, now);
    OneMoreMember(s, u, t, boot, boots, reason);
    OneMoreRecord(s, u, t, boot, boots);
    OneMoreElsewhere(s, u, t, |boots|);
    hide Elsewhere;
    assert |{boot} + boots| == 1 + |boots|;
  }

  lemma OneMoreElsewhere(s: Core, u: Core, t: Core, n: nat)
    requires Elsewhere(s, u, 1) && Elsewhere(u, t, n)
    ensures Elsewhere(s, t, 1 + n)
  {
  }

  lemma OneMoreAuthority(s: Core, u: Core, t: Core, boot: Text, boots: set<Text>, reason: RevalidationReason, now: i64)
    requires boot !in boots && LoseAuthority(s.publishers, u.publishers, {boot})
        && LoseAuthority(u.publishers, t.publishers, boots)
    requires Recorded(s, u, {boot}, reason, now) && Recorded(u, t, boots, reason, now)
    requires u.generations.coordinatorEpoch == s.generations.coordinatorEpoch
    ensures LoseAuthority(s.publishers, t.publishers, {boot} + boots) && Recorded(s, t, {boot} + boots, reason, now)
  {
  }

  lemma OneMoreMember(s: Core, u: Core, t: Core, boot: Text, boots: set<Text>, reason: RevalidationReason)
    requires boot !in boots && OrphanedMembers(s, u, {boot}, reason) && OrphanedMembers(u, t, boots, reason)
    ensures OrphanedMembers(s, t, {boot} + boots, reason)
  {
    hide LosesLife, LosesLives, Advance, Marked;
  }

  lemma OneMoreRecord(s: Core, u: Core, t: Core, boot: Text, boots: set<Text>)
    requires boot !in boots && OrphanedTopology(s, u, {boot}) && OrphanedTopology(u, t, boots)
    requires OrphanedEnvelopes(s, u, {boot}) && OrphanedEnvelopes(u, t, boots)
    ensures OrphanedTopology(s, t, {boot} + boots) && OrphanedEnvelopes(s, t, {boot} + boots)
  {
  }

  lemma {:induction false} FenceEachFences(s: Core, boots: seq<Text>, now: i64)
    requires NoRepeats(boots)
    requires forall b :: b in boots ==> b in s.publishers && !s.publishers[b].state.Fenced?
    ensures AreFenced(s, FenceEach(s, boots, now).state, (set b | b in boots), OwnerProcessLost, now)
    ensures FenceEach(s, boots, now).outcome.Accepted? <==> boots != []
    decreases |boots|
  {
    hide FenceBoot, AreFenced;
    if boots == [] {
      NobodyFenced(s, OwnerProcessLost, now);
      assert (set b | b in boots) == {};
    } else {
      var t := FenceBoot(s, boots[0], OwnerProcessLost, now);
      FenceBootFences(s, boots[0], OwnerProcessLost, now);
      StillInAuthority(s, t, boots, now);
      FenceEachFences(t, boots[1..], now);
      OneMore(s, t, FenceEach(t, boots[1..], now).state, boots[0], (set b | b in boots[1..]), OwnerProcessLost, now);
      assert (set b | b in boots) == {boots[0]} + (set b | b in boots[1..]);
    }
  }

  lemma StillInAuthority(s: Core, t: Core, boots: seq<Text>, now: i64)
    requires boots != [] && NoRepeats(boots) && AreFenced(s, t, {boots[0]}, OwnerProcessLost, now)
    requires forall b :: b in boots ==> b in s.publishers && !s.publishers[b].state.Fenced?
    ensures NoRepeats(boots[1..])
    ensures forall b :: b in boots[1..] ==> b in t.publishers && !t.publishers[b].state.Fenced?
  {
    hide Recorded, OrphanedMembers, OrphanedTopology, OrphanedEnvelopes, Elsewhere;
  }

  /** Expiry fences exactly the processes whose lease has lapsed, all at once, and is accepted when there is one. */
  lemma ExpiryIsExact(env: Env, s: Core, now: i64)
    ensures var step, lapsed := Apply(env, s, ExpirePublishers, now),
                                (set b | b in s.publishers && HasLapsed(s.publishers[b], now));
            && AreFenced(s, step.state, lapsed, OwnerProcessLost, now)
            && (step.outcome.Accepted? <==> lapsed != {})
  {
    hide FenceEach, AreFenced, Expired;
    var boots := Expired(s, now);
    ExpiredOnce(s, now);
    FenceEachFences(s, boots, now);
    var lapsed := (set b | b in s.publishers && HasLapsed(s.publishers[b], now));
    assert (set b | b in boots) == lapsed;
    if boots == [] {
      assert lapsed == {};
    } else {
      assert boots[0] in lapsed;
    }
  }

  lemma ExpiredOnce(s: Core, now: i64)
    ensures NoRepeats(Expired(s, now))
    ensures forall b :: b in Expired(s, now) <==> b in s.publishers && HasLapsed(s.publishers[b], now)
  {
    TextOrder();
    hide TextLess;
  }
}
