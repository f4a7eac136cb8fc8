/** What the invariant check asks of records holds along every run, but for two things it then finds exactly. */
module Consistency {
  import opened Wrappers
  import opened Evidence
  import opened Model
  import opened Ordering
  import opened Graph
  import opened RackReadiness
  import opened Machine
  import Facts = Progress
  import opened Structure
  import opened Runs
  import opened Fences
  import opened Scans
  import opened Invariants

  // ----- The invariant, component by component -----

  predicate MemberOk(r: MemberRecord, limits: Limits) {
    && r.generation >= 1
    && (r.lifecycle.Retired? ==> r.stamp.observedAt <= 0)
    && |r.failureDomains| <= limits.maxFailureDomainsPerMember
    && |r.capabilities| <= limits.maxCapabilitiesPerMember
  }

  ghost predicate MembersOk(members: map<MemberKey, MemberRecord>, limits: Limits) {
    |members| <= limits.maxMembers && forall k :: k in members ==> MemberOk(members[k], limits)
  }

  ghost predicate RelationshipsOk(relationships: map<RelationshipKey, RelationshipRecord>, topology: u64) {
    forall k :: k in relationships ==> 1 <= relationships[k].generation <= topology
  }

  ghost predicate DomainsOk(domains: map<Text, FailureDomainRecord>, generation: u64) {
    forall d :: d in domains ==> domains[d].generation <= generation && NoRepeats(domains[d].parents)
  }

  ghost predicate PublishersOk(publishers: map<Text, PublisherRecord>, epoch: u64, limits: Limits) {
    && |publishers| <= limits.maxConnections
    && forall b :: b in publishers ==>
         publishers[b].boot == b && (!IsOutdated(publishers[b].state) ==> publishers[b].coordinatorEpoch == epoch)
  }

  ghost predicate FencedOk(fenced: map<Text, FencedBootRecord>) {
    forall b :: b in fenced ==> fenced[b].boot == b
  }

  predicate PowerOk(p: PowerEnvelope, generation: u64) {
    1 <= p.generation <= generation && (p.rackHeadroom.Some? ==> p.rackLimit.Some? && p.rackObservedDraw.Some?)
  }

  predicate ZoneOk(z: CoolingZone) {
    z.thermalHeadroom.Some? ==> z.coolingCapacity.Some? && z.designThermalLimit.Some?
  }

  predicate CoolingOk(c: CoolingEnvelope, generation: u64) {
    1 <= c.generation <= generation && forall i :: 0 <= i < |c.zones| ==> ZoneOk(c.zones[i])
  }

  ghost predicate SnapshotsOk(env: Env, snapshots: map<u64, RackSnapshot>, g: GenerationSet) {
    forall n :: n in snapshots ==>
      && snapshots[n].generation == n && snapshots[n].digest == env.digest(WithoutDigest(snapshots[n]))
      && snapshots[n].generations.rack <= g.rack && snapshots[n].generations.membership <= g.membership
  }

  ghost predicate RackOk(rack: Option<RackRecord>, members: map<MemberKey, MemberRecord>) {
    rack.Some? ==>
      && rack.value.generation >= 1
      && (rack.value.retired ==> forall k :: k in members ==> !members[k].lifecycle.Present?)
  }

  /** All but the publishers. */
  ghost predicate RecordsOk(s: Core, env: Env) {
    && RackOk(s.rack, s.members) && MembersOk(s.members, env.limits)
    && RelationshipsOk(s.relationships, s.generations.topology)
    && DomainsOk(s.failureDomains, s.generations.failureDomains)
    && FencedOk(s.fencedBoots)
    && (s.power.Some? ==> PowerOk(s.power.value, s.generations.power))
    && (s.cooling.Some? ==> CoolingOk(s.cooling.value, s.generations.cooling))
    && SnapshotsOk(env, s.snapshots, s.generations)
  }

  ghost predicate Consistent(s: Core, env: Env) {
    RecordsOk(s, env) && PublishersOk(s.publishers, s.generations.coordinatorEpoch, env.limits)
  }

  // ----- Endings -----

  lemma NoteKeeps(s: Core, publisher: Option<Text>, env: Env)
    requires Consistent(s, env)
    ensures Consistent(NoteRejection(s, publisher), env)
  {
    hide RackOk, MembersOk, RelationshipsOk, DomainsOk, FencedOk, PowerOk, CoolingOk, SnapshotsOk;
    if publisher.Some? && publisher.value in s.publishers {
      SameSize(s.publishers, publisher.value, NoteRejection(s, publisher).publishers[publisher.value]);
    }
  }

  lemma SameSize<K, V>(m: map<K, V>, k: K, v: V)
    ensures |m[k := v]| == if k in m then |m| else |m| + 1
  {
    if k in m {
      assert m[k := v].Keys == m.Keys;
    } else {
      assert m[k := v].Keys == m.Keys + {k};
      assert |m[k := v].Keys| == |m.Keys| + 1;
    }
  }

  /** The process behind a granted request registered under the current epoch. */
  ghost predicate Current(s: Core, publisher: Option<Text>) {
    publisher.Some? && publisher.value in s.publishers ==>
      s.publishers[publisher.value].coordinatorEpoch == s.generations.coordinatorEpoch
  }

  lemma GrantIsCurrent(s: Core, token: AuthorityToken, rackScoped: bool)
    ensures var a := CheckAuthority(s, token, rackScoped);
            a.Granted? ==> Current(s, a.publisher) && (s.rack.Some? ==> !s.rack.value.retired)
  {
  }

  lemma AdvanceKeeps(s: Core, u: Core, publisher: Option<Text>, env: Env)
    requires RecordsOk(u, env) && PublishersOk(s.publishers, s.generations.coordinatorEpoch, env.limits)
    requires u.publishers == s.publishers && u.generations.coordinatorEpoch == s.generations.coordinatorEpoch
    requires Current(s, publisher)
    ensures Consistent(AdvancePublication(u, publisher), env)
  {
    hide RackOk, MembersOk, RelationshipsOk, DomainsOk, FencedOk, PowerOk, CoolingOk, SnapshotsOk;
    if publisher.Some? && publisher.value in u.publishers {
      SameSize(u.publishers, publisher.value, AdvancePublication(u, publisher).publishers[publisher.value]);
    }
  }

  /** An authorized request keeps the invariant when its commit does. */
  lemma ConcludeKeeps(s: Core, u: Core, publisher: Option<Text>, o: Outcome, env: Env)
    requires Consistent(s, env) && Current(s, publisher)
    requires o.Accepted? ==> RecordsOk(u, env)
    requires u.publishers == s.publishers && u.generations.coordinatorEpoch == s.generations.coordinatorEpoch
    ensures Consistent(Conclude(s, publisher, o, AdvancePublication(u, publisher)).state, env)
  {
    hide RecordsOk, PublishersOk, Current;
    if o.Accepted? {
      AdvanceKeeps(s, u, publisher, env);
    } else if !o.NoChange? {
      NoteKeeps(s, publisher, env);
    }
  }

  /** Only some members changed, and generations grew. */
  lemma MembersChange(s: Core, u: Core, env: Env)
    requires RecordsOk(s, env) && RackOk(u.rack, u.members) && MembersOk(u.members, env.limits)
    requires u.relationships == s.relationships && u.failureDomains == s.failureDomains
    requires u.fencedBoots == s.fencedBoots && u.power == s.power && u.cooling == s.cooling && u.snapshots == s.snapshots
    requires Facts.GenerationsGrow(s.generations, u.generations)
    ensures RecordsOk(u, env)
  {
    hide RackOk, MembersOk;
  }

  lemma OneMember(s: Core, env: Env, r: MemberRecord)
    requires MembersOk(s.members, env.limits) && MemberOk(r, env.limits)
    requires r.key in s.members || |s.members| < env.limits.maxMembers
    ensures MembersOk(s.members[r.key := r], env.limits)
  {
    hide MemberOk;
    SameSize(s.members, r.key, r);
  }

  // ----- Steps on members -----

  lemma PublishMemberKeeps(s: Core, env: Env, e: Event)
    requires e.PublishMember? && Consistent(s, env)
    ensures Consistent(PublishMemberStep(s, env.limits, e).state, env)
  {
    hide Consistent, CheckAuthority, JudgeMember, Conclude, AdvancePublication, RecordsOk, Current, Committed;
    GrantIsCurrent(s, e.authority, true);
    var a := CheckAuthority(s, e.authority, true);
    if a.Granted? {
      var target := TargetGeneration(PreviousGeneration(s, e.record.key), e.record.generation);
      var u := PutMember(s, Committed(s, e.authority, a.publisher, Normalized(e.record), target));
      var g := u.generations;
      u := u.(generations := g.(membership := Advance(g.membership), health := FirstIfUnset(g.health),
                                capabilities := FirstIfUnset(g.capabilities)));
      if JudgeMember(s, env.limits, e).Accepted? {
        PublishedMemberKeeps(s, env, e, a.publisher);
      }
      ConcludeKeeps(s, u, a.publisher, JudgeMember(s, env.limits, e), env);
    }
  }

  lemma PublishedMemberKeeps(s: Core, env: Env, e: Event, publisher: Option<Text>)
    requires e.PublishMember? && Consistent(s, env) && JudgeMember(s, env.limits, e).Accepted?
    requires s.rack.Some? ==> !s.rack.value.retired
    ensures var target := TargetGeneration(PreviousGeneration(s, e.record.key), e.record.generation);
            var u := PutMember(s, Committed(s, e.authority, publisher, Normalized(e.record), target));
            var g := u.generations;
            RecordsOk(u.(generations := g.(membership := Advance(g.membership), health := FirstIfUnset(g.health),
                                           capabilities := FirstIfUnset(g.capabilities))), env)
  {
    hide MembersOk, RelationshipsOk, DomainsOk, FencedOk, PowerOk, CoolingOk, SnapshotsOk, Committed, JudgeMember,
      RecordsOk, PublishersOk;
    var target := TargetGeneration(PreviousGeneration(s, e.record.key), e.record.generation);
    var r := Committed(s, e.authority, publisher, Normalized(e.record), target);
    PublishedMemberOk(s, env, e, publisher);
    ConsistentParts(s, env);
    OneMember(s, env, r);
    var u := PutMember(s, r);
    var g := u.generations;
    var v := u.(generations := g.(membership := Advance(g.membership), health := FirstIfUnset(g.health),
                                  capabilities := FirstIfUnset(g.capabilities)));
    MembersChange(s, v, env);
  }

  lemma ConsistentParts(s: Core, env: Env)
    requires Consistent(s, env)
    ensures RecordsOk(s, env) && MembersOk(s.members, env.limits) && RackOk(s.rack, s.members)
    ensures RelationshipsOk(s.relationships, s.generations.topology)
    ensures DomainsOk(s.failureDomains, s.generations.failureDomains)
    ensures SnapshotsOk(env, s.snapshots, s.generations)
    ensures PublishersOk(s.publishers, s.generations.coordinatorEpoch, env.limits) && FencedOk(s.fencedBoots)
  {
    hide MembersOk, RackOk, RelationshipsOk, DomainsOk, SnapshotsOk, PublishersOk, FencedOk;
  }

  lemma PublishedMemberOk(s: Core, env: Env, e: Event, publisher: Option<Text>)
    requires e.PublishMember? && JudgeMember(s, env.limits, e).Accepted?
    ensures var target := TargetGeneration(PreviousGeneration(s, e.record.key), e.record.generation);
            var r := Committed(s, e.authority, publisher, Normalized(e.record), target);
            && r.key == e.record.key && MemberOk(r, env.limits)
            && (r.key in s.members || |s.members| < env.limits.maxMembers)
  {
    hide JudgeReplacement, JudgeReferences, ValidEvidence, IsIdentity, IsLabel, ValidCapability, DetailsMatchKind;
  }

  lemma UpdateKeeps(s: Core, env: Env, publisher: Option<Text>, r: MemberRecord, g: GenerationSet)
    requires RecordsOk(s, env) && r.key in s.members && MemberOk(r, env.limits) && Facts.GenerationsGrow(s.generations, g)
    requires s.rack.Some? ==> !s.rack.value.retired
    ensures RecordsOk(Update(s, publisher, r).(generations := g), env)
  {
    hide RelationshipsOk, DomainsOk, FencedOk, PowerOk, CoolingOk, SnapshotsOk, MembersOk;
    var next := StampPublication(s, publisher, r.(generation := Advance(r.generation)));
    OneMember(s, env, next);
    MembersChange(s, Update(s, publisher, r).(generations := g), env);
  }

  lemma UpdatesAreOk(r: MemberRecord, env: Env, e: Event)
    requires MemberOk(r, env.limits)
    ensures e.PublishHealth? ==> MemberOk(NextHealth(r, e), env.limits)
    ensures e.PublishCapability? && JudgeCapability(r, env.limits, e).Accepted? ==> MemberOk(NextCapabilities(r, e), env.limits)
    ensures e.WithdrawEvidence? ==> MemberOk(Withdrawn(r, e.scope), env.limits)
    ensures e.MarkUnavailable? ==> MemberOk(MadeUnavailable(r, e.reason), env.limits)
  {
  }

  lemma MemberAt(s: Core, env: Env, k: MemberKey)
    requires Consistent(s, env) && Structured(s) && k in s.members
    ensures MemberOk(s.members[k], env.limits) && s.members[k].key == k
  {
  }

  lemma MemberUpdatesKeep(s: Core, env: Env, e: Event)
    requires Consistent(s, env) && Structured(s)
    ensures e.PublishHealth? ==> Consistent(HealthStep(s, e).state, env)
    ensures e.WithdrawEvidence? ==> Consistent(WithdrawStep(s, e).state, env)
    ensures e.MarkUnavailable? ==> Consistent(MarkUnavailableStep(s, e).state, env)
  {
    hide Consistent, Structured, CheckAuthority, Conclude, AdvancePublication, RecordsOk, Current, MemberOk, Update,
      NoteRejection, NextHealth, Withdrawn, MadeUnavailable;
    if e.PublishHealth? || e.WithdrawEvidence? || e.MarkUnavailable? {
      GrantIsCurrent(s, e.authority, true);
      var a := CheckAuthority(s, e.authority, true);
      if a.Granted? {
        NoteKeeps(s, a.publisher, env);
        if e.member in s.members {
          var r := s.members[e.member];
          MemberAt(s, env, e.member);
          UpdatesAreOk(r, env, e);
          ConsistentParts(s, env);
          var stamped := if e.MarkUnavailable? then None else a.publisher;
          var next := if e.PublishHealth? then NextHealth(r, e) else if e.WithdrawEvidence? then Withdrawn(r, e.scope)
                      else MadeUnavailable(r, e.reason);
          UpdateShape(s, stamped, next, e, r);
          var g := if e.PublishHealth? then AdvanceHealth(s).generations else AdvanceMembership(s).generations;
          UpdateKeeps(s, env, stamped, next, g);
          var o := if e.PublishHealth? then JudgeHealth(r, e) else if e.WithdrawEvidence? then JudgeWithdrawal(r, e)
                   else JudgeUnavailable(r, e);
          ConcludeKeeps(s, Update(s, stamped, next).(generations := g), a.publisher, o, env);
        }
      }
    }
  }

  lemma UpdateShape(s: Core, publisher: Option<Text>, next: MemberRecord, e: Event, r: MemberRecord)
    ensures Update(s, publisher, next).generations == s.generations && Update(s, publisher, next).publishers == s.publishers
    ensures e.PublishHealth? ==> NextHealth(r, e).key == r.key
    ensures e.WithdrawEvidence? ==> Withdrawn(r, e.scope).key == r.key
    ensures e.MarkUnavailable? ==> MadeUnavailable(r, e.reason).key == r.key
    ensures e.PublishCapability? ==> NextCapabilities(r, e).key == r.key
  {
    hide WithCapability;
  }

  lemma CapabilityKeeps(s: Core, env: Env, e: Event)
    requires e.PublishCapability? && Consistent(s, env) && Structured(s)
    ensures Consistent(CapabilityStep(s, env.limits, e).state, env)
  {
    hide Consistent, Structured, CheckAuthority, Conclude, AdvancePublication, RecordsOk, Current, MemberOk, Update,
      NoteRejection, NextCapabilities, JudgeCapability;
    GrantIsCurrent(s, e.authority, true);
    var a := CheckAuthority(s, e.authority, true);
    if a.Granted? {
      NoteKeeps(s, a.publisher, env);
      if e.member in s.members {
        var r := s.members[e.member];
        MemberAt(s, env, e.member);
        UpdatesAreOk(r, env, e);
        ConsistentParts(s, env);
        var next := NextCapabilities(r, e);
        UpdateShape(s, a.publisher, next, e, r);
        var g := AdvanceCapabilities(s).generations;
        var o := JudgeCapability(r, env.limits, e);
        if o.Accepted? {
          UpdateKeeps(s, env, a.publisher, next, g);
        }
        ConcludeKeeps(s, Update(s, a.publisher, next).(generations := g), a.publisher, o, env);
      }
    }
  }

  lemma RetireMemberKeeps(s: Core, env: Env, e: Event)
    requires e.RetireMember? && Consistent(s, env)
    ensures Consistent(RetireMemberStep(s, e).state, env)
  {
    hide Consistent, CheckAuthority, Conclude, AdvancePublication, RecordsOk, Current, NoteRejection, RetiredMember,
      Retirement;
    GrantIsCurrent(s, e.authority, true);
    var a := CheckAuthority(s, e.authority, true);
    if a.Granted? {
      NoteKeeps(s, a.publisher, env);
      if e.member in s.members {
        RetiredMemberKeeps(s, env, e.member);
        ConcludeKeeps(s, RetiredMember(s, e.member, Retirement(s.members[e.member])), a.publisher,
                      JudgeRetirement(s.members[e.member]), env);
      }
    }
  }

  lemma RetiredMemberKeeps(s: Core, env: Env, k: MemberKey)
    requires Consistent(s, env) && k in s.members && (s.rack.Some? ==> !s.rack.value.retired)
    ensures var u := RetiredMember(s, k, Retirement(s.members[k]));
            && RecordsOk(u, env) && u.publishers == s.publishers
            && u.generations.coordinatorEpoch == s.generations.coordinatorEpoch
  {
    hide PublishersOk, DomainsOk, FencedOk, PowerOk, CoolingOk;
    var u := RetiredMember(s, k, Retirement(s.members[k]));
    assert u.members.Keys == s.members.Keys;
    assert |u.members| == |u.members.Keys| == |s.members.Keys|;
  }

  // ----- Revalidation -----

  lemma {:induction false} RevalidateEachKeeps(
    members: map<MemberKey, MemberRecord>, targets: seq<MemberKey>, token: AuthorityToken, changed: bool, env: Env)
    requires MembersOk(members, env.limits)
    ensures MembersOk(RevalidateEach(members, targets, token, changed).members, env.limits)
    decreases |targets|
  {
    if targets != [] && targets[0] in members {
      var key := targets[0];
      if members[key].generation < U64_MAX {
        var next := Revalidated(members[key]);
        SameSize(members, key, next);
        RevalidateEachKeeps(members[key := next], targets[1..], token, true, env);
      }
      RevalidateEachKeeps(members, targets[1..], token, changed, env);
    }
  }

  lemma RevalidateKeeps(s: Core, env: Env, e: Event)
    requires e.RevalidateMembers? && Consistent(s, env)
    ensures Consistent(RevalidateStep(s, e).state, env)
  {
    hide Consistent, CheckAuthority, AdvancePublication, RecordsOk, Current, NoteRejection, RevalidateEach, MembersOk,
      StrictTotal, Ascends, PublishersOk;
    GrantIsCurrent(s, e.authority, true);
    var a := CheckAuthority(s, e.authority, true);
    if a.Granted? {
      var targets := if e.all then Outstanding(s.members) else e.members;
      RevalidatedKeeps(s, env, e.authority, targets, a.publisher);
    }
  }

  lemma RevalidatedKeeps(s: Core, env: Env, token: AuthorityToken, targets: seq<MemberKey>, publisher: Option<Text>)
    requires Consistent(s, env) && Current(s, publisher) && (s.rack.Some? ==> !s.rack.value.retired)
    ensures var u := s.(members := RevalidateEach(s.members, targets, token, false).members);
            && Consistent(u, env) && Consistent(NoteRejection(u, publisher), env)
            && Consistent(AdvancePublication(AdvanceMembership(u), publisher), env)
  {
    hide Consistent, AdvancePublication, RecordsOk, Current, NoteRejection, RevalidateEach, MembersOk, PublishersOk;
    var u := s.(members := RevalidateEach(s.members, targets, token, false).members);
    ConsistentParts(s, env);
    RevalidateEachKeeps(s.members, targets, token, false, env);
    MembersChange(s, u, env);
    MembersChange(s, AdvanceMembership(u), env);
    WithPublishers(s, u, env);
    NoteKeeps(u, publisher, env);
    AdvanceKeeps(s, AdvanceMembership(u), publisher, env);
  }

  lemma WithPublishers(s: Core, u: Core, env: Env)
    requires RecordsOk(u, env) && PublishersOk(s.publishers, s.generations.coordinatorEpoch, env.limits)
    requires u.publishers == s.publishers && u.generations.coordinatorEpoch == s.generations.coordinatorEpoch
    ensures Consistent(u, env)
  {
    hide RecordsOk, PublishersOk;
  }

  // ----- The rack and its publishers -----

  lemma DeclareKeeps(s: Core, env: Env, e: Event, now: i64)
    requires e.DeclareRack? && Consistent(s, env) && Facts.RackAligned(s)
    ensures Consistent(Declare(s, e, now).state, env)
  {
    hide CheckAuthority, IsIdentity, IsLabel, Redeclared, RecordsOk, PublishersOk;
    GrantIsCurrent(s, e.authority, false);
    Facts.GrantMeans(s, e.authority, false);
    var t := Declare(s, e, now).state;
    if Declare(s, e, now).outcome.Accepted? {
      if s.rack.None? {
        DeclaredKeeps(s, env, t);
      } else {
        RedeclaredKeeps(s, env, e.rackEpoch.value, e.labelText, s.rack.value.generation + 1, now);
      }
    }
  }

  lemma DeclaredKeeps(s: Core, env: Env, t: Core)
    requires Consistent(s, env) && s.rack.None? && Facts.RackAligned(s)
    requires t == s.(rack := t.rack, generations := s.generations.(rack := 1))
    requires t.rack.Some? && t.rack.value.generation == 1 && !t.rack.value.retired
    ensures Consistent(t, env)
  {
    hide MembersOk, RelationshipsOk, DomainsOk, FencedOk, PowerOk, CoolingOk, PublishersOk;
  }

  lemma RedeclaredKeeps(s: Core, env: Env, epoch: Text, labelText: Option<Text>, generation: u64, now: i64)
    requires Consistent(s, env) && s.rack.Some? && !s.rack.value.retired && Facts.RackAligned(s)
    requires s.rack.value.generation < generation
    ensures Consistent(Redeclared(s, epoch, labelText, generation, now), env)
  {
    hide FencedOk, PowerOk, CoolingOk, PublishersOk;
    var t := Redeclared(s, epoch, labelText, generation, now);
    assert t.members.Keys == s.members.Keys;
    assert |t.members| == |t.members.Keys| == |s.members.Keys|;
  }

  lemma RetireRackKeeps(s: Core, env: Env, e: Event, now: i64)
    requires e.RetireRack? && Consistent(s, env) && Facts.RackAligned(s)
    ensures Consistent(RetireRackStep(s, e, now).state, env)
  {
    hide CheckAuthority, RetiredRack, RecordsOk, PublishersOk, AdvancePublication, Current;
    GrantIsCurrent(s, e.authority, true);
    Facts.GrantMeans(s, e.authority, true);
    if RetireRackStep(s, e, now).outcome.Accepted? {
      var a := CheckAuthority(s, e.authority, true);
      var u := RetiredRack(s, s.rack.value.generation + 1, now);
      RetiredRecordsOk(s, env, now);
      RetiredPublishersOk(s, env, now, a.publisher);
      AdvanceKeeps(u, u, a.publisher, env);
    }
  }

  lemma RetiredRecordsOk(s: Core, env: Env, now: i64)
    requires Consistent(s, env) && s.rack.Some? && s.rack.value.generation < U64_MAX && Facts.RackAligned(s)
    ensures RecordsOk(RetiredRack(s, s.rack.value.generation + 1, now), env)
  {
    hide PowerOk, CoolingOk, PublishersOk, MemberOk, LeftByRack;
    var u := RetiredRack(s, s.rack.value.generation + 1, now);
    assert u.members.Keys == s.members.Keys;
    assert |u.members| == |u.members.Keys| == |s.members.Keys|;
    forall k | k in s.members && MemberOk(s.members[k], env.limits)
      ensures MemberOk(u.members[k], env.limits) && !u.members[k].lifecycle.Present?
    {
      LeavingIsOk(s.members[k], env);
    }
  }

  lemma LeavingIsOk(r: MemberRecord, env: Env)
    requires MemberOk(r, env.limits)
    ensures MemberOk(LeftByRack(r), env.limits) && !LeftByRack(r).lifecycle.Present?
  {
  }

  lemma RetiredPublishersOk(s: Core, env: Env, now: i64, publisher: Option<Text>)
    requires Consistent(s, env) && s.rack.Some? && s.rack.value.generation < U64_MAX && Current(s, publisher)
    ensures var u := RetiredRack(s, s.rack.value.generation + 1, now);
            PublishersOk(u.publishers, u.generations.coordinatorEpoch, env.limits) && Current(u, publisher)
  {
    hide RecordsOk, LeftByRack, FencedRecord;
    var u := RetiredRack(s, s.rack.value.generation + 1, now);
    assert u.publishers.Keys == s.publishers.Keys;
    assert |u.publishers| == |u.publishers.Keys| == |s.publishers.Keys|;
  }

  lemma RegisterKeeps(s: Core, env: Env, e: Event, now: i64)
    requires e.RegisterPublisher? && Consistent(s, env)
    ensures Consistent(Register(s, env.limits, e, now).state, env)
  {
    hide RecordsOk, IsLabel, PublishersOk;
    var t := Register(s, env.limits, e, now).state;
    RecordsIgnorePublishers(s, t.publishers, env);
    RegisteredPublishersOk(s, env, e, now);
  }

  lemma OnePublisher(publishers: map<Text, PublisherRecord>, p: PublisherRecord, epoch: u64, limits: Limits)
    requires PublishersOk(publishers, epoch, limits)
    requires p.boot in publishers || |publishers| < limits.maxConnections
    requires !IsOutdated(p.state) ==> p.coordinatorEpoch == epoch
    ensures PublishersOk(publishers[p.boot := p], epoch, limits)
  {
    SameSize(publishers, p.boot, p);
  }

  lemma PublisherAt(publishers: map<Text, PublisherRecord>, b: Text, epoch: u64, limits: Limits)
    requires PublishersOk(publishers, epoch, limits) && b in publishers
    ensures publishers[b].boot == b && (!IsOutdated(publishers[b].state) ==> publishers[b].coordinatorEpoch == epoch)
  {
  }

  lemma RegisteredPublishersOk(s: Core, env: Env, e: Event, now: i64)
    requires e.RegisterPublisher? && PublishersOk(s.publishers, s.generations.coordinatorEpoch, env.limits)
    ensures var t := Register(s, env.limits, e, now).state;
            && t == s.(publishers := t.publishers)
            && PublishersOk(t.publishers, s.generations.coordinatorEpoch, env.limits)
  {
    hide IsLabel, PublishersOk;
    var t := Register(s, env.limits, e, now).state;
    if t.publishers != s.publishers {
      var boot := e.boot.value;
      if boot in s.publishers {
        PublisherAt(s.publishers, boot, s.generations.coordinatorEpoch, env.limits);
      }
      OnePublisher(s.publishers, t.publishers[boot], s.generations.coordinatorEpoch, env.limits);
    }
  }

  lemma RecordsIgnorePublishers(s: Core, publishers: map<Text, PublisherRecord>, env: Env)
    ensures RecordsOk(s.(publishers := publishers), env) == RecordsOk(s, env)
  {
  }

  lemma HeartbeatKeeps(s: Core, env: Env, e: Event, now: i64)
    requires e.Heartbeat? && Consistent(s, env)
    ensures Consistent(HeartbeatStep(s, e, now).state, env)
  {
    hide RecordsOk, CheckAuthority, PublishersOk;
    GrantIsCurrent(s, e.authority, false);
    var t := HeartbeatStep(s, e, now).state;
    RecordsIgnorePublishers(s, t.publishers, env);
    var a := CheckAuthority(s, e.authority, false);
    if a.Granted? && a.publisher.Some? && a.publisher.value in s.publishers {
      PublisherAt(s.publishers, a.publisher.value, s.generations.coordinatorEpoch, env.limits);
      OnePublisher(s.publishers, t.publishers[a.publisher.value], s.generations.coordinatorEpoch, env.limits);
    }
  }

  // ----- Fencing -----

  lemma FencedRecordsOk(r: MemberRecord, reason: RevalidationReason, env: Env)
    requires MemberOk(r, env.limits)
    ensures MemberOk(FencedMember(r, reason), env.limits) && FencedMember(r, reason).lifecycle == r.lifecycle
  {
  }

  lemma FencedPowerOk(p: PowerEnvelope, boot: Text, g: u64)
    requires PowerOk(p, g)
    ensures PowerOk(FencedPower(p, boot), g)
  {
  }

  lemma FencedCoolingOk(c: CoolingEnvelope, boot: Text, g: u64)
    requires CoolingOk(c, g)
    ensures CoolingOk(FencedCooling(c, boot), g)
  {
  }

  lemma FencedMembersOk(s: Core, env: Env, boot: Text, reason: RevalidationReason, now: i64)
    requires MembersOk(s.members, env.limits) && RackOk(s.rack, s.members) && boot in s.publishers
    ensures var t := FenceBoot(s, boot, reason, now);
            MembersOk(t.members, env.limits) && RackOk(t.rack, t.members)
  {
    hide FencedMember, MemberOk, FencedPower, FencedCooling, FencedRelationship, FencedDomain, FencedRecord;
    var t := FenceBoot(s, boot, reason, now);
    forall k | k in s.members && MemberOk(s.members[k], env.limits) {
      FencedRecordsOk(s.members[k], reason, env);
    }
    assert t.members.Keys == s.members.Keys;
    assert |t.members| == |t.members.Keys| == |s.members.Keys|;
  }

  lemma FenceBootKeeps(s: Core, env: Env, boot: Text, reason: RevalidationReason, now: i64)
    requires Consistent(s, env) && boot in s.publishers
    ensures Consistent(FenceBoot(s, boot, reason, now), env)
  {
    hide PowerOk, CoolingOk, FencedPower, FencedCooling, FencedMember, MembersOk, RackOk, NoRepeats;
    var t := FenceBoot(s, boot, reason, now);
    FencedMembersOk(s, env, boot, reason, now);
    SameSize(s.publishers, boot, t.publishers[boot]);
    if s.power.Some? {
      FencedPowerOk(s.power.value, boot, s.generations.power);
    }
    if s.cooling.Some? {
      FencedCoolingOk(s.cooling.value, boot, s.generations.cooling);
    }
  }

  lemma FenceKeeps(s: Core, env: Env, epoch: u64, boot: Option<Text>, reason: RevalidationReason, now: i64)
    requires Consistent(s, env)
    ensures Consistent(FenceStep(s, epoch, boot, reason, now).state, env)
  {
    hide Consistent, FenceBoot;
    if boot.Some? && boot.value in s.publishers {
      FenceBootKeeps(s, env, boot.value, reason, now);
    }
  }

  lemma {:induction false} FenceEachKeeps(s: Core, env: Env, boots: seq<Text>, now: i64)
    requires Consistent(s, env)
    ensures Consistent(FenceEach(s, boots, now).state, env)
    decreases |boots|
  {
    hide Consistent, FenceStep;
    if boots != [] {
      var first := FenceStep(s, s.generations.coordinatorEpoch, Some(boots[0]), OwnerProcessLost, now);
      FenceKeeps(s, env, s.generations.coordinatorEpoch, Some(boots[0]), OwnerProcessLost, now);
      FenceEachKeeps(first.state, env, boots[1..], now);
    }
  }

  // ----- Topology, domains, envelopes, snapshots -----

  lemma RelationshipKeeps(s: Core, env: Env, e: Event)
    requires e.PublishRelationship? && Consistent(s, env)
    ensures Consistent(RelationshipStep(s, env.limits, e).state, env)
  {
    hide Consistent, CheckAuthority, JudgeRelationship, Conclude, AdvancePublication, Current, Canonical;
    GrantIsCurrent(s, e.authority, true);
    var a := CheckAuthority(s, e.authority, true);
    if a.Granted? {
      var r := e.relationship.(key := Canonical(e.relationship.key));
      var committed := r.(generation := Advance(s.generations.topology),
                          ownerBoot := OwnerOf(e.authority.boot, r.ownerBoot),
                          ownerWorker := WorkerOf(s, a.publisher, r.ownerWorker));
      var u := s.(relationships := s.relationships[r.key := committed],
                  generations := s.generations.(topology := Advance(s.generations.topology)));
      ConsistentParts(s, env);
      hide MembersOk, RackOk, DomainsOk, FencedOk, PowerOk, CoolingOk;
      assert RecordsOk(u, env);
      ConcludeKeeps(s, u, a.publisher, JudgeRelationship(s, env.limits, e, r), env);
    }
  }

  lemma WithdrawRelationshipKeeps(s: Core, env: Env, e: Event)
    requires e.WithdrawRelationship? && Consistent(s, env)
    ensures Consistent(WithdrawRelationshipStep(s, e).state, env)
  {
    hide Consistent, CheckAuthority, Conclude, AdvancePublication, Current, Canonical, JudgeRelationshipWithdrawal,
      RecordsOk;
    GrantIsCurrent(s, e.authority, true);
    var a := CheckAuthority(s, e.authority, true);
    if a.Granted? {
      var u := WithoutRelationship(s, Canonical(e.key));
      ConsistentParts(s, env);
      FewerRelationships(s, env, Canonical(e.key));
      ConcludeKeeps(s, u, a.publisher, JudgeRelationshipWithdrawal(s, e), env);
    }
  }

  lemma FewerRelationships(s: Core, env: Env, k: RelationshipKey)
    requires RecordsOk(s, env)
    ensures RecordsOk(WithoutRelationship(s, k), env)
  {
    hide MembersOk, RackOk, DomainsOk, FencedOk, PowerOk, CoolingOk;
  }

  lemma AscendingHasNoRepeats(s: set<Text>)
    requires StrictTotal(TextLess)
    ensures NoRepeats(Ascending(s, TextLess))
  {
    var xs := Ascending(s, TextLess);
    forall i, j | 0 <= i < j < |xs|
      ensures xs[i] != xs[j]
    {
      assert TextLess(xs[i], xs[j]);
    }
  }

  lemma DomainKeeps(s: Core, env: Env, e: Event)
    requires e.PublishFailureDomain? && Consistent(s, env)
    ensures Consistent(DomainStep(s, env.limits, e).state, env)
  {
    hide Consistent, CheckAuthority, JudgeDomain, Conclude, AdvancePublication, Current, StrictTotal, Ascends,
      NoRepeats, RecordsOk;
    GrantIsCurrent(s, e.authority, true);
    var a := CheckAuthority(s, e.authority, true);
    if a.Granted? {
      var d := UniqueParents(e.domain);
      TextOrder();
      AscendingHasNoRepeats(set p | p in e.domain.parents);
      var committed := d.(generation := Advance(s.generations.failureDomains),
                          ownerBoot := OwnerOf(e.authority.boot, d.ownerBoot),
                          ownerWorker := WorkerOf(s, a.publisher, d.ownerWorker));
      var u := s.(failureDomains := s.failureDomains[d.id := committed],
                  generations := s.generations.(failureDomains := Advance(s.generations.failureDomains)));
      ConsistentParts(s, env);
      OneDomain(s, u, env, committed);
      ConcludeKeeps(s, u, a.publisher, JudgeDomain(s, env.limits, e, d), env);
    }
  }

  lemma OneDomain(s: Core, u: Core, env: Env, d: FailureDomainRecord)
    requires RecordsOk(s, env) && NoRepeats(d.parents)
    requires d.generation == u.generations.failureDomains == Advance(s.generations.failureDomains)
    requires u == s.(failureDomains := s.failureDomains[d.id := d],
                     generations := s.generations.(failureDomains := u.generations.failureDomains))
    ensures RecordsOk(u, env)
  {
    hide MembersOk, RackOk, RelationshipsOk, FencedOk, PowerOk, CoolingOk, NoRepeats;
  }

  lemma DerivedEnvelopesOk(env: Env, p: PowerEnvelope, c: CoolingEnvelope, now: i64)
    ensures p.generation >= 1 ==> PowerOk(DerivedPower(env, p, now), p.generation)
    ensures c.generation >= 1 ==> CoolingOk(DerivedCooling(env, c, now), c.generation)
  {
    hide Stamp.IsFreshAt;
  }

  lemma PowerKeeps(env: Env, s: Core, e: Event, now: i64)
    requires e.PublishPower? && Consistent(s, env)
    ensures Consistent(PowerStep(env, s, e, now).state, env)
  {
    hide Consistent, CheckAuthority, JudgePower, Conclude, AdvancePublication, Current, DerivedPower;
    GrantIsCurrent(s, e.authority, true);
    var a := CheckAuthority(s, e.authority, true);
    if a.Granted? {
      var g := s.generations;
      var committed := e.power.(generation := Advance(g.power),
                                stamp := e.power.stamp.(revalidationRequired := false),
                                ownerBoot := OwnerOf(e.authority.boot, e.power.ownerBoot),
                                ownerWorker := WorkerOf(s, a.publisher, e.power.ownerWorker));
      var u := s.(power := Some(DerivedPower(env, committed, now)),
                  generations := g.(power := Advance(g.power), constraints := Advance(g.constraints)));
      DerivedEnvelopesOk(env, committed, CoolingEnvelope(1, [], NO_EVIDENCE, None, None, None), now);
      ConsistentParts(s, env);
      hide MembersOk, RackOk, RelationshipsOk, DomainsOk, FencedOk, CoolingOk, PowerOk;
      assert RecordsOk(u, env);
      ConcludeKeeps(s, u, a.publisher, JudgePower(s, e), env);
    }
  }

  lemma CoolingKeeps(env: Env, s: Core, e: Event, now: i64)
    requires e.PublishCooling? && Consistent(s, env)
    ensures Consistent(CoolingStep(env, s, e, now).state, env)
  {
    hide Consistent, CheckAuthority, JudgeCooling, Conclude, AdvancePublication, Current, DerivedCooling, SortZones;
    GrantIsCurrent(s, e.authority, true);
    var a := CheckAuthority(s, e.authority, true);
    if a.Granted? {
      var g := s.generations;
      var committed := e.cooling.(generation := Advance(g.cooling),
                                  zones := SortZones(e.cooling.zones),
                                  stamp := e.cooling.stamp.(revalidationRequired := false),
                                  ownerBoot := OwnerOf(e.authority.boot, e.cooling.ownerBoot),
                                  ownerWorker := WorkerOf(s, a.publisher, e.cooling.ownerWorker));
      var u := s.(cooling := Some(DerivedCooling(env, committed, now)),
                  generations := g.(cooling := Advance(g.cooling), constraints := Advance(g.constraints)));
      DerivedEnvelopesOk(env, PowerEnvelope(1, None, None, None, [], NO_EVIDENCE, None, None, None), committed, now);
      ConsistentParts(s, env);
      hide MembersOk, RackOk, RelationshipsOk, DomainsOk, FencedOk, CoolingOk, PowerOk;
      assert RecordsOk(u, env);
      ConcludeKeeps(s, u, a.publisher, JudgeCooling(s, e), env);
    }
  }

  lemma SnapshotKeeps(env: Env, s: Core, e: Event, now: i64)
    requires e.PublishSnapshot? && Consistent(s, env)
    ensures Consistent(SnapshotStep(env, s, e, now).state, env)
  {
    hide Consistent, CheckAuthority, AdvancePublication, Current, BuildSnapshot, Retain, SnapshotId, IsIdentity,
      RecordsOk, PublishersOk, SnapshotsOk;
    Facts.GrantMeans(s, e.authority, true);
    GrantIsCurrent(s, e.authority, true);
    if SnapshotStep(env, s, e, now).outcome.Accepted? {
      var a := CheckAuthority(s, e.authority, true);
      var generation := s.snapshotGeneration + 1;
      var snapshot := BuildSnapshot(env, s, SnapshotId(s.rack.value.id, generation), generation,
                                    SnapshotPublication(s, a.publisher), now);
      var u := s.(snapshotGeneration := generation,
                  snapshots := Retain(s.snapshots, env.limits.maxRetainedSnapshots, generation, snapshot));
      ConsistentParts(s, env);
      BuiltIsBound(env, s, SnapshotId(s.rack.value.id, generation), generation, SnapshotPublication(s, a.publisher), now);
      RetainedOk(env, s, env.limits.maxRetainedSnapshots, generation, snapshot);
      SnapshotsOnly(s, u, env);
      AdvanceKeeps(s, u, a.publisher, env);
    }
  }

  lemma BuiltIsBound(env: Env, s: Core, id: Text, generation: u64, publication: u64, now: i64)
    requires s.rack.Some?
    ensures var p := BuildSnapshot(env, s, id, generation, publication, now);
            p.generation == generation && p.generations == s.generations && p.digest == env.digest(WithoutDigest(p))
  {
    hide Lifecycle, MembersInOrder, RelationshipsInOrder, DomainsInOrder;
  }

  lemma RetainedOk(env: Env, s: Core, limit: nat, generation: u64, snapshot: RackSnapshot)
    requires SnapshotsOk(env, s.snapshots, s.generations)
    requires snapshot.generation == generation && snapshot.generations == s.generations
    requires snapshot.digest == env.digest(WithoutDigest(snapshot))
    ensures SnapshotsOk(env, Retain(s.snapshots, limit, generation, snapshot), s.generations)
  {
  }

  lemma SnapshotsOnly(s: Core, u: Core, env: Env)
    requires RecordsOk(s, env) && SnapshotsOk(env, u.snapshots, s.generations)
    requires u == s.(snapshotGeneration := u.snapshotGeneration, snapshots := u.snapshots)
    ensures RecordsOk(u, env)
  {
    hide MembersOk, RackOk, RelationshipsOk, DomainsOk, FencedOk, CoolingOk, PowerOk, SnapshotsOk;
  }

  // ----- Runs -----

  lemma StepKeepsConsistency(env: Env, s: Core, e: Event, now: i64)
    requires Regular(s) && Consistent(s, env)
    ensures Consistent(Apply(env, s, e, now).state, env)
  {
    hide Consistent, Regular, PublishMemberStep, RevalidateStep, RetireMemberStep, RetireRackStep, Declare, FenceStep,
      FenceEach, HealthStep, CapabilityStep, WithdrawStep, MarkUnavailableStep, Expired, Register, RelationshipStep,
      DomainStep, WithdrawRelationshipStep, PowerStep, CoolingStep, HeartbeatStep, SnapshotStep, Structured;
    RegularParts(s);
    match e {
      case RegisterPublisher(_, _, _, _, _) => RegisterKeeps(s, env, e, now);
      case DeclareRack(_, _, _, _) => DeclareKeeps(s, env, e, now);
      case PublishMember(_, _, _, _) => PublishMemberKeeps(s, env, e);
      case PublishRelationship(_, _, _) => RelationshipKeeps(s, env, e);
      case PublishFailureDomain(_, _, _) => DomainKeeps(s, env, e);
      case PublishPower(_, _, _) => PowerKeeps(env, s, e, now);
      case PublishCooling(_, _, _) => CoolingKeeps(env, s, e, now);
      case PublishHealth(_, _, _, _, _, _) => MemberUpdatesKeep(s, env, e);
      case PublishCapability(_, _, _) => CapabilityKeeps(s, env, e);
      case WithdrawEvidence(_, _, _) => MemberUpdatesKeep(s, env, e);
      case WithdrawRelationship(_, _) => WithdrawRelationshipKeeps(s, env, e);
      case MarkUnavailable(_, _, _) => MemberUpdatesKeep(s, env, e);
      case RetireMember(_, _) => RetireMemberKeeps(s, env, e);
      case RetireRack(_) => RetireRackKeeps(s, env, e, now);
      case RevalidateMembers(_, _, _) => RevalidateKeeps(s, env, e);
      case Heartbeat(_) => HeartbeatKeeps(s, env, e, now);
      case FencePublisher(epoch, boot, reason) => FenceKeeps(s, env, epoch, boot, reason, now);
      case ExpirePublishers => FenceEachKeeps(s, env, Expired(s, now), now);
      case PublishSnapshot(_) => SnapshotKeeps(env, s, e, now);
    }
  }

  lemma RegularParts(s: Core)
    requires Regular(s)
    ensures Structured(s) && Facts.RackAligned(s)
  {
  }

  lemma {:induction false} RunKeepsConsistency(env: Env, s: Core, run: seq<Timed>, n: nat)
    requires Regular(s) && Consistent(s, env) && n <= |run|
    ensures Regular(At(env, s, run, n)) && Consistent(At(env, s, run, n), env)
    decreases n
  {
    hide Regular, Consistent, Apply;
    RunIsRegular(env, s, run, n);
    if n > 0 {
      RunKeepsConsistency(env, s, run, n - 1);
      StepKeepsConsistency(env, At(env, s, run, n - 1), run[n - 1].event, run[n - 1].now);
      assert At(env, s, run, n) == StepAt(env, s, run, n - 1).state;
    }
  }

  lemma InitialIsConsistent(env: Env)
    ensures Consistent(INITIAL, env)
  {
  }

  // ----- The check along runs -----

  lemma ConsistentPasses(s: Core, env: Env, now: i64)
    requires Regular(s) && Consistent(s, env)
    ensures Passes(s, env.limits, now) <==> SinglePaths(DomainGraph(s.failureDomains)) && NoneFencedAndLive(s)
  {
    hide SinglePaths, Acyclic, DomainGraph, ParentGraph;
    ConsistentRecordsPass(s, env, now);
    RegularParts(s);
    assert ParentsOnce(s.failureDomains) by {
      ConsistentParts(s, env);
    }
  }

  lemma ConsistentRecordsPass(s: Core, env: Env, now: i64)
    requires Regular(s) && Consistent(s, env)
    ensures RecordsPass(s, env.limits, now) <==> NoneFencedAndLive(s)
  {
    RegularParts(s);
    ConsistentParts(s, env);
    forall k | k in s.members
      ensures MemberPasses(s, env.limits, now, k)
    {
      ConsistentMemberPasses(s, env, now, k);
    }
    forall k | k in s.relationships
      ensures RelationshipPasses(s, k)
    {
    }
    forall d | d in s.failureDomains
      ensures DomainPasses(s, d)
    {
      ConsistentDomainPasses(s, env, d);
    }
    hide MemberPasses, RelationshipPasses, DomainPasses, Structured, Regular, MembersOk, RelationshipsOk, DomainsOk;
    EnvelopesConsistent(s, env);
    hide EnvelopesPass, PowerOk, CoolingOk;
    forall b | b in s.publishers
      ensures PublisherPasses(s, b) <==> !FencedAndLive(s, b)
    {
    }
  }

  lemma ConsistentMemberPasses(s: Core, env: Env, now: i64, k: MemberKey)
    requires Structured(s) && MembersOk(s.members, env.limits) && k in s.members
    ensures MemberPasses(s, env.limits, now, k)
  {
    hide Acyclic;
    NoSelfParent(s, k);
    assert MemberOk(s.members[k], env.limits);
  }

  lemma ConsistentDomainPasses(s: Core, env: Env, d: Text)
    requires Structured(s) && DomainsOk(s.failureDomains, s.generations.failureDomains) && d in s.failureDomains
    ensures DomainPasses(s, d)
  {
    var g := DomainGraph(s.failureDomains);
    var r := s.failureDomains[d];
    forall i | 0 <= i < |r.parents|
      ensures r.parents[i] in s.failureDomains && r.parents[i] != d
    {
      assert r.parents[i] in r.parents;
      assert (d, r.parents[i]) in g;
      if r.parents[i] == d {
        ReachesSelf(g, d);
        ReturnIsCycle(g, d, d);
      }
    }
  }

  lemma EnvelopesConsistent(s: Core, env: Env)
    requires RecordsOk(s, env)
    ensures EnvelopesPass(s)
  {
    hide MembersOk, RackOk, RelationshipsOk, DomainsOk, FencedOk, SnapshotsOk;
    if s.cooling.Some? {
      forall i | 0 <= i < |s.cooling.value.zones|
        ensures ZoneOk(s.cooling.value.zones[i])
      {
      }
    }
  }

  /** No process that retired the rack is left with authority. */
  ghost predicate NobodyLeft(env: Env, s: Core, run: seq<Timed>, n: nat)
    requires n <= |run|
  {
    forall b :: !LeftInAuthority(env, s, run, n, b)
  }

  lemma NobodyLeftIff(env: Env, s: Core, run: seq<Timed>, n: nat)
    requires Regular(s) && NoneFencedAndLive(s) && n <= |run|
    ensures NoneFencedAndLive(At(env, s, run, n)) <==> NobodyLeft(env, s, run, n)
  {
    forall b
      ensures FencedAndLive(At(env, s, run, n), b) <==> LeftInAuthority(env, s, run, n, b)
    {
      LiveIff(env, s, run, n, b) by {
        hide At;
      }
    }
    hide LeftInAuthority, At, Regular;
  }

  /**
   * After any run the records, loaded or rebuilt elsewhere, pass the check exactly when no failure domain is reached in
   * two ways and no process that retired the rack was left with authority.
   */
  lemma RunPassesIff(env: Env, run: seq<Timed>, n: nat, now: i64)
    requires n <= |run|
    ensures Passes(At(env, INITIAL, run, n), env.limits, now) <==>
              SinglePaths(DomainGraph(At(env, INITIAL, run, n).failureDomains)) && NobodyLeft(env, INITIAL, run, n)
  {
    hide Regular, Consistent, Passes, SinglePaths, Apply, NobodyLeft, NoneFencedAndLive;
    InitialIsRegular();
    InitialIsConsistent(env);
    InitialHasNobodyLeft();
    RunKeepsConsistency(env, INITIAL, run, n);
    ConsistentPasses(At(env, INITIAL, run, n), env, now);
    NobodyLeftIff(env, INITIAL, run, n);
  }

  lemma InitialHasNobodyLeft()
    ensures NoneFencedAndLive(INITIAL)
  {
  }

  /** The rack retired, the records pass the check exactly when an operator retired it and domain paths are single. */
  lemma RetirementPassesIff(env: Env, s: Core, e: Event, now: i64, later: i64)
    requires Regular(s) && Consistent(s, env) && NoneFencedAndLive(s)
    requires e.RetireRack? && Apply(env, s, e, now).outcome.Accepted?
    ensures Passes(Apply(env, s, e, now).state, env.limits, later) <==>
              SinglePaths(DomainGraph(s.failureDomains)) && e.authority.boot.None?
  {
    hide Regular, Consistent, Passes, SinglePaths, NoneFencedAndLive, RetireRackStep;
    var t := Apply(env, s, e, now).state;
    RegularStep(env, s, e, now);
    StepKeepsConsistency(env, s, e, now);
    ConsistentPasses(t, env, later);
    OnlyProcessesStayLive(env, s, e, now);
    RetirementKeepsDomains(s, e, now);
  }

  /** Any process in authority can bring about records that do not pass. */
  lemma ProcessCanBlock(env: Env, s: Core, token: AuthorityToken, now: i64, later: i64)
    requires Regular(s) && Consistent(s, env) && NoneFencedAndLive(s)
    requires CheckAuthority(s, token, true).Granted? && token.boot.Some?
    requires s.rack.Some? && s.rack.value.generation < U64_MAX
    ensures var step := Apply(env, s, RetireRack(token), now);
            step.outcome.Accepted? && !Passes(step.state, env.limits, later)
  {
    hide Regular, Consistent, NoneFencedAndLive, Passes, Apply, CheckAuthority, SinglePaths, DomainGraph;
    ProcessCanStayLive(env, s, token, now);
    RetirementPassesIff(env, s, RetireRack(token), now, later);
  }

  lemma RegularStep(env: Env, s: Core, e: Event, now: i64)
    requires Regular(s)
    ensures Regular(Apply(env, s, e, now).state)
  {
    hide Apply, Structured, Facts.RackAligned, Facts.KeysMatch, Facts.Grows, Facts.Tracks, Facts.Authorized;
    RegularKeys(s);
    Facts.StepIsSound(env, s, e, now);
    StepKeepsStructure(env, s, e, now);
  }

  lemma RetirementKeepsDomains(s: Core, e: Event, now: i64)
    requires e.RetireRack?
    ensures RetireRackStep(s, e, now).state.failureDomains == s.failureDomains
  {
    hide CheckAuthority, LeftByRack;
  }
}
