/** Fencing, however it comes about, is permanent; and exactly one request leaves a fenced process in authority. */
module Fences {
  import opened Wrappers
  import opened Evidence
  import opened Model
  import opened Ordering
  import opened Machine
  import Facts = Progress
  import opened Runs

  // ----- Requests that fence nobody -----

  predicate MayFence(e: Event) { e.RetireRack? || e.FencePublisher? || e.ExpirePublishers? }

  /** The process is known, and lost or fenced. */
  predicate IsOut(s: Core, b: Text) { b in s.publishers && IsOutdated(s.publishers[b].state) }

  /** The fenced boots are the same, the authority of none of them changed, and nobody who is out came back. */
  ghost predicate FencedKept(s: Core, t: Core) {
    && t.fencedBoots == s.fencedBoots
    && (forall b :: IsOut(s, b) ==> IsOut(t, b))
    && forall b :: b in s.fencedBoots ==>
         && (b in t.publishers <==> b in s.publishers)
         && (b in s.publishers ==> t.publishers[b].state == s.publishers[b].state)
  }

  lemma SameIsKept(s: Core, t: Core)
    requires t.fencedBoots == s.fencedBoots && t.publishers == s.publishers
    ensures FencedKept(s, t)
  {
  }

  lemma NoteKeepsFenced(s: Core, publisher: Option<Text>)
    ensures FencedKept(s, NoteRejection(s, publisher))
  {
  }

  lemma AdvanceKeepsFenced(s: Core, u: Core, publisher: Option<Text>)
    requires u.publishers == s.publishers && u.fencedBoots == s.fencedBoots
    requires publisher.Some? ==> publisher.value !in s.fencedBoots && !IsOut(s, publisher.value)
    ensures FencedKept(s, AdvancePublication(u, publisher))
  {
  }

  lemma ConcludeKeepsFenced(s: Core, u: Core, publisher: Option<Text>, o: Outcome)
    requires u.publishers == s.publishers && u.fencedBoots == s.fencedBoots
    requires publisher.Some? ==> publisher.value !in s.fencedBoots && !IsOut(s, publisher.value)
    ensures FencedKept(s, Conclude(s, publisher, o, AdvancePublication(u, publisher)).state)
  {
    NoteKeepsFenced(s, publisher);
    AdvanceKeepsFenced(s, u, publisher);
    SameIsKept(s, s);
    hide FencedKept, AdvancePublication, NoteRejection;
  }

  /** A granted request comes from a boot that is neither fenced nor lost. */
  lemma GrantedIsUnfenced(s: Core, token: AuthorityToken, rackScoped: bool)
    ensures var a := CheckAuthority(s, token, rackScoped);
            a.Granted? ==>
              a.publisher == token.boot
              && (a.publisher.Some? ==> a.publisher.value !in s.fencedBoots && !IsOut(s, a.publisher.value))
  {
  }

  lemma MemberRequestsKeepFenced(s: Core, limits: Limits, e: Event)
    ensures e.PublishMember? ==> FencedKept(s, PublishMemberStep(s, limits, e).state)
    ensures e.RetireMember? ==> FencedKept(s, RetireMemberStep(s, e).state)
    ensures e.RevalidateMembers? ==> FencedKept(s, RevalidateStep(s, e).state)
  {
    hide CheckAuthority, JudgeMember, Conclude, AdvancePublication, FencedKept, Committed, RetiredMember, Retirement,
      NoteRejection, RevalidateEach, Outstanding;
    SameIsKept(s, s);
    if e.PublishMember? || e.RetireMember? || e.RevalidateMembers? {
      GrantedIsUnfenced(s, e.authority, true);
      var a := CheckAuthority(s, e.authority, true);
      if a.Granted? {
        NoteKeepsFenced(s, a.publisher);
        if e.PublishMember? {
          var target := TargetGeneration(PreviousGeneration(s, e.record.key), e.record.generation);
          var u := PutMember(s, Committed(s, e.authority, a.publisher, Normalized(e.record), target));
          var g := u.generations;
          ConcludeKeepsFenced(s, u.(generations := g.(membership := Advance(g.membership), health := FirstIfUnset(g.health),
                                                      capabilities := FirstIfUnset(g.capabilities))),
                              a.publisher, JudgeMember(s, limits, e));
        } else if e.RetireMember? {
          if e.member in s.members {
            RetiredMemberKeepsAuthority(s, e.member);
            ConcludeKeepsFenced(s, RetiredMember(s, e.member, Retirement(s.members[e.member])), a.publisher,
                                JudgeRetirement(s.members[e.member]));
          }
        } else {
          var targets := if e.all then Outstanding(s.members) else e.members;
          var u := s.(members := RevalidateEach(s.members, targets, e.authority, false).members);
          AdvanceKeepsFenced(s, AdvanceMembership(u), a.publisher);
          NoteKeepsFenced(u, a.publisher);
          SameIsKept(s, u);
          KeptTransitive(s, u, NoteRejection(u, a.publisher));
        }
      }
    }
  }

  lemma KeptTransitive(s: Core, t: Core, u: Core)
    requires FencedKept(s, t) && FencedKept(t, u)
    ensures FencedKept(s, u)
  {
  }

  lemma RetiredMemberKeepsAuthority(s: Core, k: MemberKey)
    requires k in s.members
    ensures var u := RetiredMember(s, k, Retirement(s.members[k]));
            u.publishers == s.publishers && u.fencedBoots == s.fencedBoots
  {
  }

  lemma UpdateKeepsAuthority(s: Core, publisher: Option<Text>, r: MemberRecord)
    ensures Update(s, publisher, r).publishers == s.publishers && Update(s, publisher, r).fencedBoots == s.fencedBoots
  {
  }

  lemma UpdateRequestsKeepFenced(s: Core, limits: Limits, e: Event)
    ensures e.PublishHealth? ==> FencedKept(s, HealthStep(s, e).state)
    ensures e.PublishCapability? ==> FencedKept(s, CapabilityStep(s, limits, e).state)
    ensures e.WithdrawEvidence? ==> FencedKept(s, WithdrawStep(s, e).state)
    ensures e.MarkUnavailable? ==> FencedKept(s, MarkUnavailableStep(s, e).state)
  {
    hide CheckAuthority, Conclude, AdvancePublication, FencedKept, NoteRejection, Update, JudgeHealth, JudgeCapability,
      JudgeWithdrawal, JudgeUnavailable, NextHealth, NextCapabilities, Withdrawn, MadeUnavailable;
    SameIsKept(s, s);
    if e.PublishHealth? || e.PublishCapability? || e.WithdrawEvidence? || e.MarkUnavailable? {
      GrantedIsUnfenced(s, e.authority, true);
      var a := CheckAuthority(s, e.authority, true);
      if a.Granted? {
        NoteKeepsFenced(s, a.publisher);
        if e.member in s.members {
          var r := s.members[e.member];
          var stamped := if e.MarkUnavailable? then None else a.publisher;
          var next := if e.PublishHealth? then NextHealth(r, e) else if e.PublishCapability? then NextCapabilities(r, e)
                      else if e.WithdrawEvidence? then Withdrawn(r, e.scope) else MadeUnavailable(r, e.reason);
          var o := if e.PublishHealth? then JudgeHealth(r, e)
                   else if e.PublishCapability? then JudgeCapability(r, limits, e)
                   else if e.WithdrawEvidence? then JudgeWithdrawal(r, e) else JudgeUnavailable(r, e);
          var u := Update(s, stamped, next);
          UpdateKeepsAuthority(s, stamped, next);
          var v := if e.PublishHealth? then AdvanceHealth(u) else if e.PublishCapability? then AdvanceCapabilities(u)
                   else AdvanceMembership(u);
          ConcludeKeepsFenced(s, v, a.publisher, o);
        }
      }
    }
  }

  lemma TopologyRequestsKeepFenced(env: Env, s: Core, e: Event, now: i64)
    ensures e.PublishRelationship? ==> FencedKept(s, RelationshipStep(s, env.limits, e).state)
    ensures e.WithdrawRelationship? ==> FencedKept(s, WithdrawRelationshipStep(s, e).state)
    ensures e.PublishFailureDomain? ==> FencedKept(s, DomainStep(s, env.limits, e).state)
  {
    hide CheckAuthority, Conclude, AdvancePublication, FencedKept, NoteRejection, JudgeRelationship, JudgeDomain,
      JudgeRelationshipWithdrawal, UniqueParents, Canonical;
    SameIsKept(s, s);
    if e.PublishRelationship? || e.WithdrawRelationship? || e.PublishFailureDomain? {
      GrantedIsUnfenced(s, e.authority, true);
      var a := CheckAuthority(s, e.authority, true);
      if a.Granted? {
        if e.PublishRelationship? {
          var r := e.relationship.(key := Canonical(e.relationship.key));
          var committed := r.(generation := Advance(s.generations.topology),
                              ownerBoot := OwnerOf(e.authority.boot, r.ownerBoot),
                              ownerWorker := WorkerOf(s, a.publisher, r.ownerWorker));
          ConcludeKeepsFenced(s, s.(relationships := s.relationships[r.key := committed],
                                    generations := s.generations.(topology := Advance(s.generations.topology))),
                              a.publisher, JudgeRelationship(s, env.limits, e, r));
        } else if e.WithdrawRelationship? {
          ConcludeKeepsFenced(s, WithoutRelationship(s, Canonical(e.key)), a.publisher,
                              JudgeRelationshipWithdrawal(s, e));
        } else {
          var d := UniqueParents(e.domain);
          var committed := d.(generation := Advance(s.generations.failureDomains),
                              ownerBoot := OwnerOf(e.authority.boot, d.ownerBoot),
                              ownerWorker := WorkerOf(s, a.publisher, d.ownerWorker));
          ConcludeKeepsFenced(s, s.(failureDomains := s.failureDomains[d.id := committed],
                                    generations := s.generations.(failureDomains := Advance(s.generations.failureDomains))),
                              a.publisher, JudgeDomain(s, env.limits, e, d));
        }
      }
    }
  }

  lemma EnvelopeRequestsKeepFenced(env: Env, s: Core, e: Event, now: i64)
    ensures e.PublishPower? ==> FencedKept(s, PowerStep(env, s, e, now).state)
    ensures e.PublishCooling? ==> FencedKept(s, CoolingStep(env, s, e, now).state)
  {
    hide CheckAuthority, Conclude, AdvancePublication, FencedKept, NoteRejection, JudgePower, JudgeCooling,
      DerivedPower, DerivedCooling, SortZones;
    SameIsKept(s, s);
    if e.PublishPower? || e.PublishCooling? {
      GrantedIsUnfenced(s, e.authority, true);
      var a := CheckAuthority(s, e.authority, true);
      if a.Granted? {
        var g := s.generations;
        if e.PublishPower? {
          var committed := e.power.(generation := Advance(g.power),
                                    stamp := e.power.stamp.(revalidationRequired := false),
                                    ownerBoot := OwnerOf(e.authority.boot, e.power.ownerBoot),
                                    ownerWorker := WorkerOf(s, a.publisher, e.power.ownerWorker));
          ConcludeKeepsFenced(s, s.(power := Some(DerivedPower(env, committed, now)),
                                    generations := g.(power := Advance(g.power), constraints := Advance(g.constraints))),
                              a.publisher, JudgePower(s, e));
        } else {
          var committed := e.cooling.(generation := Advance(g.cooling), zones := SortZones(e.cooling.zones),
                                      stamp := e.cooling.stamp.(revalidationRequired := false),
                                      ownerBoot := OwnerOf(e.authority.boot, e.cooling.ownerBoot),
                                      ownerWorker := WorkerOf(s, a.publisher, e.cooling.ownerWorker));
          ConcludeKeepsFenced(s, s.(cooling := Some(DerivedCooling(env, committed, now)),
                                    generations := g.(cooling := Advance(g.cooling), constraints := Advance(g.constraints))),
                              a.publisher, JudgeCooling(s, e));
        }
      }
    }
  }

  lemma OneProcessKeepsFenced(s: Core, b: Text, p: PublisherRecord)
    requires b !in s.fencedBoots && !IsOut(s, b)
    ensures FencedKept(s, s.(publishers := s.publishers[b := p]))
  {
  }

  lemma RegistrationKeepsFenced(s: Core, limits: Limits, e: Event, now: i64)
    requires e.RegisterPublisher?
    ensures FencedKept(s, Register(s, limits, e, now).state)
  {
    hide FencedKept, IsIdentity, IsLabel;
    SameIsKept(s, s);
    if e.boot.Some? && e.boot.value !in s.fencedBoots && !IsOut(s, e.boot.value) {
      var t := Register(s, limits, e, now).state;
      if t != s {
        OneProcessKeepsFenced(s, e.boot.value, t.publishers[e.boot.value]);
      }
    }
  }

  lemma OtherRequestsKeepFenced(s: Core, e: Event, now: i64)
    ensures e.DeclareRack? ==> FencedKept(s, Declare(s, e, now).state)
    ensures e.Heartbeat? ==> FencedKept(s, HeartbeatStep(s, e, now).state)
  {
    hide CheckAuthority, IsIdentity, IsLabel, Redeclared;
    if e.DeclareRack? || e.Heartbeat? {
      GrantedIsUnfenced(s, e.authority, false);
      if e.DeclareRack? && s.rack.Some? && s.rack.value.generation < U64_MAX && e.rackEpoch.Some? {
        RedeclaredKeepsAuthority(s, e.rackEpoch.value, e.labelText, s.rack.value.generation + 1, now);
      }
    }
  }

  lemma SnapshotKeepsFenced(env: Env, s: Core, e: Event, now: i64)
    requires e.PublishSnapshot?
    ensures FencedKept(s, SnapshotStep(env, s, e, now).state)
  {
    hide CheckAuthority, AdvancePublication, BuildSnapshot, Retain, SnapshotId, IsIdentity, FencedKept;
    SameIsKept(s, s);
    Facts.GrantMeans(s, e.authority, true);
    GrantedIsUnfenced(s, e.authority, true);
    if SnapshotStep(env, s, e, now).outcome.Accepted? {
      var a := CheckAuthority(s, e.authority, true);
      var generation := s.snapshotGeneration + 1;
      var snapshot := BuildSnapshot(env, s, SnapshotId(s.rack.value.id, generation), generation,
                                    SnapshotPublication(s, a.publisher), now);
      AdvanceKeepsFenced(
        s, s.(snapshotGeneration := generation,
              snapshots := Retain(s.snapshots, env.limits.maxRetainedSnapshots, generation, snapshot)), a.publisher);
    }
  }

  lemma RedeclaredKeepsAuthority(s: Core, epoch: Text, labelText: Option<Text>, generation: u64, now: i64)
    requires s.rack.Some?
    ensures var t := Redeclared(s, epoch, labelText, generation, now);
            t.publishers == s.publishers && t.fencedBoots == s.fencedBoots
  {
  }

  lemma StepKeepsFenced(env: Env, s: Core, e: Event, now: i64)
    requires !MayFence(e)
    ensures FencedKept(s, Apply(env, s, e, now).state)
  {
    hide FencedKept, PublishMemberStep, RevalidateStep, RetireMemberStep, RetireRackStep, Declare,
      FenceBoot, FenceEach, HealthStep, CapabilityStep, WithdrawStep, MarkUnavailableStep, Expired, Register,
      RelationshipStep, DomainStep, WithdrawRelationshipStep, PowerStep, CoolingStep, HeartbeatStep, SnapshotStep;
    MemberRequestsKeepFenced(s, env.limits, e);
    UpdateRequestsKeepFenced(s, env.limits, e);
    TopologyRequestsKeepFenced(env, s, e, now);
    EnvelopeRequestsKeepFenced(env, s, e, now);
    OtherRequestsKeepFenced(s, e, now);
    if e.RegisterPublisher? {
      RegistrationKeepsFenced(s, env.limits, e, now);
    }
    if e.PublishSnapshot? {
      SnapshotKeepsFenced(env, s, e, now);
    }
  }

  // ----- Requests that fence -----

  lemma FenceBootMeans(s: Core, other: Text, reason: RevalidationReason, now: i64)
    requires other in s.publishers
    ensures var t := FenceBoot(s, other, reason, now);
            && t.fencedBoots.Keys == s.fencedBoots.Keys + {other} && t.publishers.Keys == s.publishers.Keys
            && t.publishers[other].state.Fenced?
            && forall b :: b in s.publishers && b != other ==> t.publishers[b] == s.publishers[b]
  {
    hide FencedMember, FencedRelationship, FencedDomain, FencedPower, FencedCooling;
  }

  lemma {:induction false} FenceEachQuiets(s: Core, boots: seq<Text>, now: i64, boot: Text, k: MemberKey)
    requires boot !in s.fencedBoots && boot in FenceEach(s, boots, now).state.fencedBoots
    ensures Quiet(FenceEach(s, boots, now).state, boot, k)
    decreases |boots|
  {
    hide FenceBoot, Quiet;
    if boots != [] {
      var first := FenceStep(s, s.generations.coordinatorEpoch, Some(boots[0]), OwnerProcessLost, now);
      if boots[0] in s.publishers {
        FenceBootMeans(s, boots[0], OwnerProcessLost, now);
        FencingQuiets(s, boots[0], OwnerProcessLost, now, k);
      }
      if boot in first.state.fencedBoots {
        FenceEachStaysQuiet(first.state, boots[1..], now, boot, k);
      } else {
        FenceEachQuiets(first.state, boots[1..], now, boot, k);
      }
    }
  }

  lemma RetirementQuiets(s: Core, e: Event, now: i64, boot: Text, k: MemberKey)
    requires e.RetireRack? && boot !in s.fencedBoots && boot in RetireRackStep(s, e, now).state.fencedBoots
    ensures Quiet(RetireRackStep(s, e, now).state, boot, k)
  {
    hide CheckAuthority, RetiredRack, AdvancePublication, Quiet;
    var publisher := CheckAuthority(s, e.authority, true).publisher;
    RetiredRackIsQuiet(s, s.rack.value.generation + 1, now, boot, k);
    EndingsStayQuiet(RetiredRack(s, s.rack.value.generation + 1, now), publisher, boot, k);
  }

  /** The step fences the boot: it was not fenced before, or an accepted request fences it again. */
  ghost predicate FencesBoot(s: Core, e: Event, step: Step, boot: Text) {
    && boot in step.state.fencedBoots
    && (boot !in s.fencedBoots || (e.FencePublisher? && e.boot == Some(boot) && step.outcome.Accepted?))
  }

  /** However a boot is fenced, by request, by lease or by retirement of the rack, its members are quiet at once. */
  lemma FencingQuietsAtOnce(env: Env, s: Core, e: Event, now: i64, boot: Text, k: MemberKey)
    requires FencesBoot(s, e, Apply(env, s, e, now), boot)
    ensures Quiet(Apply(env, s, e, now).state, boot, k)
  {
    hide Quiet, PublishMemberStep, RevalidateStep, RetireMemberStep, RetireRackStep, Declare,
      FenceBoot, FenceEach, HealthStep, CapabilityStep, WithdrawStep, MarkUnavailableStep, Expired, Register,
      RelationshipStep, DomainStep, WithdrawRelationshipStep, PowerStep, CoolingStep, HeartbeatStep, SnapshotStep;
    if !MayFence(e) {
      StepKeepsFenced(env, s, e, now);
    } else if e.RetireRack? {
      RetirementQuiets(s, e, now, boot, k);
    } else if e.ExpirePublishers? {
      FenceEachQuiets(s, Expired(s, now), now, boot, k);
    } else if e.boot.Some? && e.boot.value in s.publishers {
      FenceBootMeans(s, e.boot.value, e.reason, now);
      FencingQuiets(s, e.boot.value, e.reason, now, k);
    }
  }

  /**
   * Fencing is permanent: from the step that fences a boot on, nothing it presents is accepted, and no member it
   * owns is at any time present with fresh evidence unless an operator asserted that member again.
   */
  lemma FencingIsPermanent(
    env: Env, s: Core, run: seq<Timed>, i: nat, j: nat, boot: Text, k: MemberKey, at: i64)
    requires Regular(s) && i < j <= |run|
    requires FencesBoot(At(env, s, run, i), run[i].event, StepAt(env, s, run, i), boot)
    requires forall m :: i < m < j ==> !Reasserts(run[m].event, k)
    ensures j < |run| && Facts.Presents(run[j].event) == Some(boot) ==> !StepAt(env, s, run, j).outcome.Accepted?
    ensures var t := At(env, s, run, j);
            k in t.members && t.members[k].ownerBoot == Some(boot) ==>
              !(t.members[k].lifecycle.Present? && t.members[k].stamp.IsFreshAt(at))
  {
    hide Regular, Apply, Reasserts;
    FencingQuietsAtOnce(env, At(env, s, run, i), run[i].event, run[i].now, boot, k);
    assert At(env, s, run, i + 1) == StepAt(env, s, run, i).state;
    FencedStaysQuiet(env, s, run, i + 1, j, boot, k);
    if j < |run| && Facts.Presents(run[j].event) == Some(boot) {
      FencedIsNeverAccepted(env, s, run, i + 1, j, boot);
    }
  }

  // ----- Fenced processes in authority -----

  predicate IsLive(p: PublisherRecord) { p.state.Active? || p.state.Registered? }

  predicate FencedAndLive(s: Core, b: Text) {
    b in s.publishers && b in s.fencedBoots && IsLive(s.publishers[b])
  }

  predicate NoneFencedAndLive(s: Core) {
    forall b :: b in s.publishers ==> !FencedAndLive(s, b)
  }

  ghost predicate IsRetired(s: Core) {
    s.rack.Some? && s.rack.value.retired
  }

  /** The request takes its authority from the boot. */
  predicate Revokes(s: Core, e: Event, o: Outcome, now: i64, b: Text) {
    || (e.FencePublisher? && e.boot == Some(b) && o.Accepted?)
    || (e.ExpirePublishers? && b in s.publishers && IsExpired(s.publishers[b], now))
  }

  /** A process with this boot retires the rack. */
  predicate RetiresRackAs(e: Event, o: Outcome, b: Text) {
    e.RetireRack? && o.Accepted? && e.authority.boot == Some(b)
  }

  lemma {:induction false} FenceEachRevokes(s: Core, boots: seq<Text>, now: i64, b: Text)
    ensures FencedAndLive(FenceEach(s, boots, now).state, b) <==> FencedAndLive(s, b) && b !in boots
    decreases |boots|
  {
    hide FenceBoot;
    if boots != [] {
      var first := FenceStep(s, s.generations.coordinatorEpoch, Some(boots[0]), OwnerProcessLost, now);
      if boots[0] in s.publishers {
        FenceBootMeans(s, boots[0], OwnerProcessLost, now);
      }
      FenceEachRevokes(first.state, boots[1..], now, b);
    }
  }

  lemma RetirementLeaves(s: Core, e: Event, now: i64, b: Text)
    requires e.RetireRack? && RetireRackStep(s, e, now).outcome.Accepted?
    ensures FencedAndLive(RetireRackStep(s, e, now).state, b) <==> e.authority.boot == Some(b)
  {
    Facts.GrantMeans(s, e.authority, true);
    hide CheckAuthority;
    var publisher := CheckAuthority(s, e.authority, true).publisher;
    RetiredAuthority(s, s.rack.value.generation + 1, now, publisher, b);
    hide RetiredRack, AdvancePublication;
  }

  lemma RetiredAuthority(s: Core, generation: u64, now: i64, publisher: Option<Text>, b: Text)
    requires s.rack.Some? && (publisher.Some? ==> publisher.value in s.publishers)
    ensures FencedAndLive(AdvancePublication(RetiredRack(s, generation, now), publisher), b) <==> publisher == Some(b)
  {
    hide LeftByRack;
  }

  lemma KeptIsLive(s: Core, t: Core, b: Text)
    requires FencedKept(s, t)
    ensures FencedAndLive(t, b) <==> FencedAndLive(s, b)
  {
  }

  /**
   * In one step a boot is left fenced and in authority exactly when it was and nothing took its authority, or when it
   * retired the rack.
   */
  lemma StepLeavesLiveIff(env: Env, s: Core, e: Event, now: i64, b: Text)
    requires FencedAndLive(s, b) ==> IsRetired(s)
    ensures var step := Apply(env, s, e, now);
            FencedAndLive(step.state, b) <==>
              (FencedAndLive(s, b) && !Revokes(s, e, step.outcome, now, b)) || RetiresRackAs(e, step.outcome, b)
  {
    hide FencedAndLive, PublishMemberStep, RevalidateStep, RetireMemberStep, Declare,
      FenceBoot, FenceEach, HealthStep, CapabilityStep, WithdrawStep, MarkUnavailableStep, Register,
      RelationshipStep, DomainStep, WithdrawRelationshipStep, PowerStep, CoolingStep, HeartbeatStep, SnapshotStep;
    if !MayFence(e) {
      StepKeepsFenced(env, s, e, now);
      KeptIsLive(s, Apply(env, s, e, now).state, b);
    } else if e.RetireRack? {
      RetireRackLeavesIff(s, e, now, b);
    } else if e.ExpirePublishers? {
      FenceEachRevokes(s, Expired(s, now), now, b);
      ExpiredAre(s, now, b);
    } else {
      FenceLeavesIff(s, e, now, b);
    }
  }

  lemma RetireRackLeavesIff(s: Core, e: Event, now: i64, b: Text)
    requires e.RetireRack? && (FencedAndLive(s, b) ==> IsRetired(s))
    ensures var step := RetireRackStep(s, e, now);
            FencedAndLive(step.state, b) <==> FencedAndLive(s, b) || RetiresRackAs(e, step.outcome, b)
  {
    Facts.GrantMeans(s, e.authority, true);
    hide CheckAuthority, RetiredRack, AdvancePublication, FencedAndLive;
    if RetireRackStep(s, e, now).outcome.Accepted? {
      RetirementLeaves(s, e, now, b);
    }
  }

  lemma ExpiredAre(s: Core, now: i64, b: Text)
    ensures b in Expired(s, now) <==> b in s.publishers && IsExpired(s.publishers[b], now)
  {
    hide StrictTotal, Ascends;
  }

  lemma FenceLeavesIff(s: Core, e: Event, now: i64, b: Text)
    requires e.FencePublisher?
    ensures var step := FenceStep(s, e.epoch, e.boot, e.reason, now);
            FencedAndLive(step.state, b) <==> FencedAndLive(s, b) && !Revokes(s, e, step.outcome, now, b)
  {
    hide FenceBoot;
    if e.boot.Some? && e.boot.value in s.publishers {
      FenceBootMeans(s, e.boot.value, e.reason, now);
    }
  }

  /** Retiring the rack on a state without fenced processes in authority leaves none exactly for an operator. */
  lemma OnlyProcessesStayLive(env: Env, s: Core, e: Event, now: i64)
    requires e.RetireRack? && NoneFencedAndLive(s) && Apply(env, s, e, now).outcome.Accepted?
    ensures NoneFencedAndLive(Apply(env, s, e, now).state) <==> e.authority.boot.None?
  {
    hide RetireRackStep, FencedAndLive;
    var t := Apply(env, s, e, now).state;
    forall b
      ensures FencedAndLive(t, b) <==> e.authority.boot == Some(b)
    {
      RetirementLeaves(s, e, now, b);
    }
    if e.authority.boot.Some? {
      LiveIsRegistered(t, e.authority.boot.value);
    }
  }

  /** Any process in authority can retire the rack, and is left fenced and in authority. */
  lemma ProcessCanStayLive(env: Env, s: Core, token: AuthorityToken, now: i64)
    requires CheckAuthority(s, token, true).Granted? && token.boot.Some?
    requires s.rack.Some? && s.rack.value.generation < U64_MAX
    ensures var step := Apply(env, s, RetireRack(token), now);
            step.outcome.Accepted? && FencedAndLive(step.state, token.boot.value)
  {
    hide CheckAuthority, AdvancePublication, RetiredRack, FencedAndLive;
    Facts.GrantMeans(s, token, true);
    RetirementLeaves(s, RetireRack(token), now, token.boot.value);
  }

  lemma LiveIsRegistered(s: Core, b: Text)
    requires FencedAndLive(s, b)
    ensures b in s.publishers
  {
  }

  /** Some process with this boot retired the rack, and nothing took its authority since. */
  ghost predicate LeftInAuthority(env: Env, s: Core, run: seq<Timed>, n: nat, b: Text)
    requires n <= |run|
  {
    exists i :: 0 <= i < n && LeftSince(env, s, run, i, n, b)
  }

  ghost predicate LeftSince(env: Env, s: Core, run: seq<Timed>, i: nat, n: nat, b: Text)
    requires i < n <= |run|
  {
    && RetiresRackAs(run[i].event, StepAt(env, s, run, i).outcome, b)
    && forall m :: i < m < n ==>
         !Revokes(At(env, s, run, m), run[m].event, StepAt(env, s, run, m).outcome, run[m].now, b)
  }

  /** Along a run a fenced boot holds authority exactly when it retired the rack and was not fenced again since. */
  lemma {:induction false} LiveIff(env: Env, s: Core, run: seq<Timed>, n: nat, b: Text)
    requires Regular(s) && !FencedAndLive(s, b) && n <= |run|
    ensures FencedAndLive(At(env, s, run, n), b) <==> LeftInAuthority(env, s, run, n, b)
    ensures FencedAndLive(At(env, s, run, n), b) ==> IsRetired(At(env, s, run, n))
    decreases n
  {
    hide Regular, Apply, FencedAndLive, Revokes, RetiresRackAs, IsRetired;
    if n > 0 {
      LiveIff(env, s, run, n - 1, b);
      var before, last := At(env, s, run, n - 1), StepAt(env, s, run, n - 1);
      StepLeavesLiveIff(env, before, run[n - 1].event, run[n - 1].now, b);
      assert At(env, s, run, n) == last.state;
      LeftExtends(env, s, run, n, b);
      LiveIsRetired(env, s, run, n, b);
    }
  }

  lemma LeftExtends(env: Env, s: Core, run: seq<Timed>, n: nat, b: Text)
    requires 0 < n <= |run|
    ensures LeftInAuthority(env, s, run, n, b) <==>
              || (LeftInAuthority(env, s, run, n - 1, b)
                  && !Revokes(At(env, s, run, n - 1), run[n - 1].event, StepAt(env, s, run, n - 1).outcome, run[n - 1].now, b))
              || RetiresRackAs(run[n - 1].event, StepAt(env, s, run, n - 1).outcome, b)
  {
    hide Apply, Revokes, RetiresRackAs, StepAt;
    if RetiresRackAs(run[n - 1].event, StepAt(env, s, run, n - 1).outcome, b) {
      assert LeftSince(env, s, run, n - 1, n, b);
    }
    if i: nat :| i < n && LeftSince(env, s, run, i, n, b) {
      if i < n - 1 {
        assert LeftSince(env, s, run, i, n - 1, b);
      }
    }
    var before: nat := n - 1;
    if i: nat :| i < before && LeftSince(env, s, run, i, before, b) {
      if !Revokes(At(env, s, run, n - 1), run[n - 1].event, StepAt(env, s, run, n - 1).outcome, run[n - 1].now, b) {
        assert LeftSince(env, s, run, i, n, b);
      }
    }
  }

  lemma LiveIsRetired(env: Env, s: Core, run: seq<Timed>, n: nat, b: Text)
    requires Regular(s) && 0 < n <= |run|
    requires FencedAndLive(At(env, s, run, n - 1), b) ==> IsRetired(At(env, s, run, n - 1))
    requires FencedAndLive(At(env, s, run, n), b) ==>
               FencedAndLive(At(env, s, run, n - 1), b)
               || RetiresRackAs(run[n - 1].event, StepAt(env, s, run, n - 1).outcome, b)
    ensures FencedAndLive(At(env, s, run, n), b) ==> IsRetired(At(env, s, run, n))
  {
    hide Regular, FencedAndLive, Apply, Facts.Grows, IsRetired;
    RunGrows(env, s, run, n - 1, n);
    assert At(env, s, run, n) == StepAt(env, s, run, n - 1).state;
    RetiredGrows(At(env, s, run, n - 1), At(env, s, run, n));
    if RetiresRackAs(run[n - 1].event, StepAt(env, s, run, n - 1).outcome, b) {
      AcceptedRetirementRetires(env, At(env, s, run, n - 1), run[n - 1].event, run[n - 1].now);
    }
  }

  lemma RetiredGrows(s: Core, t: Core)
    requires Facts.Grows(s, t)
    ensures IsRetired(s) ==> IsRetired(t)
  {
    hide Facts.MembersGrow, Facts.PublishersGrow, Facts.GenerationsGrow;
  }

  lemma AcceptedRetirementRetires(env: Env, s: Core, e: Event, now: i64)
    requires e.RetireRack? && Apply(env, s, e, now).outcome.Accepted?
    ensures IsRetired(Apply(env, s, e, now).state)
  {
    hide RetireRackStep, IsRetired;
    RetirementRetires(s, e, now);
  }

  lemma RetirementRetires(s: Core, e: Event, now: i64)
    requires e.RetireRack? && RetireRackStep(s, e, now).outcome.Accepted?
    ensures IsRetired(RetireRackStep(s, e, now).state)
  {
    Facts.GrantMeans(s, e.authority, true);
    hide CheckAuthority, LeftByRack, FencedRecord;
  }

  // ----- Expiry, request by request -----

  /** The fencings an expiry asks for, as requests of their own. */
  function Fencings(epoch: u64, boots: seq<Text>, now: i64): (run: seq<Timed>)
    ensures |run| == |boots|
  {
    seq(|boots|, i requires 0 <= i < |boots| => Timed(FencePublisher(epoch, Some(boots[i]), OwnerProcessLost), now))
  }

  lemma {:induction false} RunFromFirst(env: Env, s: Core, run: seq<Timed>, n: nat)
    requires n < |run|
    ensures At(env, s, run, n + 1) == At(env, StepAt(env, s, run, 0).state, run[1..], n)
    decreases n
  {
    hide Apply;
    if n > 0 {
      RunFromFirst(env, s, run, n - 1);
      assert StepAt(env, s, run, n).state == At(env, s, run, n + 1);
    } else {
      assert At(env, s, run, 1) == StepAt(env, s, run, 0).state;
    }
  }

  lemma FencingKeepsEpoch(env: Env, s: Core, epoch: u64, boot: Text, now: i64)
    ensures var e := FencePublisher(epoch, Some(boot), OwnerProcessLost);
            && Apply(env, s, e, now) == FenceStep(s, epoch, Some(boot), OwnerProcessLost, now)
            && FenceStep(s, epoch, Some(boot), OwnerProcessLost, now).state.generations.coordinatorEpoch
               == s.generations.coordinatorEpoch
  {
    hide FencedMember, FencedRelationship, FencedDomain, FencedPower, FencedCooling, FencedRecord;
  }

  /**
   * An expiry that nobody interrupts is the run of its fencings; one that other requests interrupt, since the lock is
   * released before the fencings, is a run in which those come in between.
   */
  lemma {:induction false} ExpiryIsARun(env: Env, s: Core, boots: seq<Text>, now: i64)
    ensures FenceEach(s, boots, now).state
         == At(env, s, Fencings(s.generations.coordinatorEpoch, boots, now), |boots|)
    decreases |boots|
  {
    hide Apply, FenceStep;
    if boots != [] {
      var epoch := s.generations.coordinatorEpoch;
      var run := Fencings(epoch, boots, now);
      FencingKeepsEpoch(env, s, epoch, boots[0], now);
      var t := FenceStep(s, epoch, Some(boots[0]), OwnerProcessLost, now).state;
      assert StepAt(env, s, run, 0).state == t;
      assert run[1..] == Fencings(epoch, boots[1..], now);
      ExpiryIsARun(env, t, boots[1..], now);
      RunFromFirst(env, s, run, |boots| - 1);
    }
  }

  // ----- Processes that are out -----

  lemma {:induction false} FenceEachKeepsOut(s: Core, boots: seq<Text>, now: i64, b: Text)
    requires IsOut(s, b)
    ensures IsOut(FenceEach(s, boots, now).state, b)
    decreases |boots|
  {
    hide FenceBoot;
    if boots != [] {
      if boots[0] in s.publishers {
        FenceBootMeans(s, boots[0], OwnerProcessLost, now);
      }
      FenceEachKeepsOut(FenceStep(s, s.generations.coordinatorEpoch, Some(boots[0]), OwnerProcessLost, now).state,
                        boots[1..], now, b);
    }
  }

  lemma RetirementKeepsOut(s: Core, e: Event, now: i64, b: Text)
    requires e.RetireRack? && IsOut(s, b)
    ensures IsOut(RetireRackStep(s, e, now).state, b)
  {
    GrantedIsUnfenced(s, e.authority, true);
    hide CheckAuthority, LeftByRack, FencedRecord;
  }

  lemma FenceKeepsOut(s: Core, epoch: u64, boot: Option<Text>, reason: RevalidationReason, now: i64, b: Text)
    requires IsOut(s, b)
    ensures IsOut(FenceStep(s, epoch, boot, reason, now).state, b)
  {
    hide FenceBoot;
    if boot.Some? && boot.value in s.publishers {
      FenceBootMeans(s, boot.value, reason, now);
    }
  }

  /** No request brings back a process that is lost or fenced. */
  lemma StepKeepsOut(env: Env, s: Core, e: Event, now: i64, b: Text)
    requires IsOut(s, b)
    ensures IsOut(Apply(env, s, e, now).state, b)
  {
    hide IsOut, PublishMemberStep, RevalidateStep, RetireMemberStep, RetireRackStep, Declare, FenceStep, FenceEach,
      HealthStep, CapabilityStep, WithdrawStep, MarkUnavailableStep, Expired, Register, RelationshipStep, DomainStep,
      WithdrawRelationshipStep, PowerStep, CoolingStep, HeartbeatStep, SnapshotStep;
    if !MayFence(e) {
      StepKeepsFenced(env, s, e, now);
    } else if e.RetireRack? {
      RetirementKeepsOut(s, e, now, b);
    } else if e.ExpirePublishers? {
      FenceEachKeepsOut(s, Expired(s, now), now, b);
    } else {
      FenceKeepsOut(s, e.epoch, e.boot, e.reason, now, b);
    }
  }

  lemma OutIsDenied(s: Core, token: AuthorityToken, rackScoped: bool)
    requires token.boot.Some? && IsOut(s, token.boot.value)
    ensures CheckAuthority(s, token, rackScoped).Denied?
    ensures !CheckAuthority(s, token, rackScoped).outcome.Accepted?
  {
  }

  lemma OutIsRefused(env: Env, s: Core, e: Event, now: i64, b: Text)
    requires IsOut(s, b) && Facts.Presents(e) == Some(b)
    ensures !Apply(env, s, e, now).outcome.Accepted?
  {
    if !e.RegisterPublisher? {
      OutIsDenied(s, e.authority, true);
      OutIsDenied(s, e.authority, false);
    }
    hide CheckAuthority, IsLabel, IsIdentity, Conclude;
  }

  /** Once a process is lost or fenced, no request that presents its boot is accepted at any later point of any run. */
  lemma {:induction false} OutIsNeverAccepted(env: Env, s: Core, run: seq<Timed>, n: nat, b: Text)
    requires IsOut(s, b) && n <= |run|
    ensures IsOut(At(env, s, run, n), b)
    ensures n < |run| && Facts.Presents(run[n].event) == Some(b) ==> !StepAt(env, s, run, n).outcome.Accepted?
    decreases n
  {
    hide IsOut, Apply, Facts.Presents;
    if n > 0 {
      OutIsNeverAccepted(env, s, run, n - 1, b);
      StepKeepsOut(env, At(env, s, run, n - 1), run[n - 1].event, run[n - 1].now, b);
      assert At(env, s, run, n) == StepAt(env, s, run, n - 1).state;
    }
    if n < |run| && Facts.Presents(run[n].event) == Some(b) {
      OutIsRefused(env, At(env, s, run, n), run[n].event, run[n].now, b);
    }
  }
}
