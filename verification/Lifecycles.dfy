/** Which requests take a member out of retirement. */
module Lifecycles {
  import opened Wrappers
  import opened Evidence
  import opened Model
  import opened Machine
  import Facts = Progress
  import opened Structure
  import opened Runs

  ghost predicate IsRetiredMember(s: Core, k: MemberKey) {
    k in s.members && s.members[k].lifecycle.Retired?
  }

  /** The request withdraws all evidence of the member. */
  predicate WithdrawsAll(e: Event, k: MemberKey) {
    e.WithdrawEvidence? && e.member == k && e.scope.All?
  }

  lemma EndingsKeepRetired(s: Core, publisher: Option<Text>, k: MemberKey)
    ensures IsRetiredMember(AdvancePublication(s, publisher), k) <==> IsRetiredMember(s, k)
    ensures IsRetiredMember(NoteRejection(s, publisher), k) <==> IsRetiredMember(s, k)
  {
  }

  lemma ConcludeRetired(s: Core, publisher: Option<Text>, o: Outcome, u: Core, k: MemberKey)
    ensures var step := Conclude(s, publisher, o, AdvancePublication(u, publisher));
            && (step.outcome.Accepted? <==> o.Accepted?)
            && (IsRetiredMember(step.state, k) <==> if o.Accepted? then IsRetiredMember(u, k) else IsRetiredMember(s, k))
  {
    EndingsKeepRetired(s, publisher, k);
    EndingsKeepRetired(u, publisher, k);
    hide AdvancePublication, NoteRejection, IsRetiredMember;
  }

  lemma UpdatedIsRetired(s: Core, publisher: Option<Text>, r: MemberRecord, k: MemberKey)
    requires r.key in s.members
    ensures IsRetiredMember(Update(s, publisher, r), k) <==>
              if r.key == k then r.lifecycle.Retired? else IsRetiredMember(s, k)
  {
  }

  lemma SameMembersSameRetired(s: Core, t: Core, k: MemberKey)
    requires s.members == t.members
    ensures IsRetiredMember(s, k) <==> IsRetiredMember(t, k)
  {
  }

  lemma PublicationKeepsRetired(s: Core, limits: Limits, e: Event, k: MemberKey)
    requires e.PublishMember? && IsRetiredMember(s, k)
    ensures IsRetiredMember(PublishMemberStep(s, limits, e).state, k)
  {
    hide CheckAuthority, JudgeMember, Conclude, AdvancePublication, IsRetiredMember, Committed;
    var a := CheckAuthority(s, e.authority, true);
    if a.Granted? {
      var target := TargetGeneration(PreviousGeneration(s, e.record.key), e.record.generation);
      var u := PutMember(s, Committed(s, e.authority, a.publisher, Normalized(e.record), target));
      var g := u.generations;
      var v := u.(generations := g.(membership := Advance(g.membership), health := FirstIfUnset(g.health),
                                    capabilities := FirstIfUnset(g.capabilities)));
      ConcludeRetired(s, a.publisher, JudgeMember(s, limits, e), v, k);
      SameMembersSameRetired(u, v, k);
      CommittedKeepsRetired(s, limits, e, a.publisher, target, k);
    }
  }

  lemma CommittedKeepsRetired(
    s: Core, limits: Limits, e: Event, publisher: Option<Text>, target: u64, k: MemberKey)
    requires e.PublishMember? && IsRetiredMember(s, k)
    ensures JudgeMember(s, limits, e).Accepted? ==>
              IsRetiredMember(PutMember(s, Committed(s, e.authority, publisher, Normalized(e.record), target)), k)
  {
    hide ValidMemberRecord, JudgeReferences, SameMemberContent;
  }

  lemma UpdatesOfRetired(s: Core, limits: Limits, e: Event, k: MemberKey)
    requires IsRetiredMember(s, k) && Structured(s)
    ensures e.PublishHealth? ==> IsRetiredMember(HealthStep(s, e).state, k)
    ensures e.PublishCapability? ==> IsRetiredMember(CapabilityStep(s, limits, e).state, k)
    ensures e.MarkUnavailable? ==> IsRetiredMember(MarkUnavailableStep(s, e).state, k)
    ensures e.WithdrawEvidence? ==>
              (!IsRetiredMember(WithdrawStep(s, e).state, k) <==>
               WithdrawsAll(e, k) && WithdrawStep(s, e).outcome.Accepted?)
  {
    hide Structured, CheckAuthority, Conclude, AdvancePublication, NoteRejection, Update, IsRetiredMember,
      JudgeHealth, JudgeCapability, JudgeWithdrawal, NextCapabilities;
    if e.PublishHealth? || e.PublishCapability? || e.MarkUnavailable? || e.WithdrawEvidence? {
      var a := CheckAuthority(s, e.authority, true);
      MemberKeyMatches(s, e.member);
      if a.Granted? {
        EndingsKeepRetired(s, a.publisher, k);
        if e.member in s.members {
          UpdateOfRetired(s, limits, e, a.publisher, k);
        }
      }
      Facts.GrantMeans(s, e.authority, true);
    }
  }

  lemma UpdateOfRetired(s: Core, limits: Limits, e: Event, publisher: Option<Text>, k: MemberKey)
    requires e.PublishHealth? || e.PublishCapability? || e.MarkUnavailable? || e.WithdrawEvidence?
    requires e.member in s.members && s.members[e.member].key == e.member && IsRetiredMember(s, k)
    ensures var r := s.members[e.member];
            && (e.PublishHealth? ==>
                  IsRetiredMember(Conclude(s, publisher, JudgeHealth(r, e), AdvancePublication(AdvanceHealth(
                    Update(s, publisher, NextHealth(r, e))), publisher)).state, k))
            && (e.PublishCapability? ==>
                  IsRetiredMember(Conclude(s, publisher, JudgeCapability(r, limits, e), AdvancePublication(
                    AdvanceCapabilities(Update(s, publisher, NextCapabilities(r, e))), publisher)).state, k))
            && (e.MarkUnavailable? ==>
                  IsRetiredMember(Conclude(s, publisher, JudgeUnavailable(r, e), AdvancePublication(AdvanceMembership(
                    Update(s, None, MadeUnavailable(r, e.reason))), publisher)).state, k))
            && (e.WithdrawEvidence? ==>
                  var step := Conclude(s, publisher, JudgeWithdrawal(r, e), AdvancePublication(AdvanceMembership(
                    Update(s, publisher, Withdrawn(r, e.scope))), publisher));
                  !IsRetiredMember(step.state, k) <==> WithdrawsAll(e, k) && step.outcome.Accepted?)
  {
    var r := s.members[e.member];
    RetiredAt(s, k);
    NextOfRetired(r, limits, e);
    hide Conclude, AdvancePublication, Update, IsRetiredMember, JudgeHealth, JudgeCapability, JudgeWithdrawal,
      JudgeUnavailable, NextHealth, NextCapabilities, MadeUnavailable, Withdrawn;
    if e.PublishHealth? {
      var u := Update(s, publisher, NextHealth(r, e));
      UpdatedIsRetired(s, publisher, NextHealth(r, e), k);
      SameMembersSameRetired(u, AdvanceHealth(u), k);
      ConcludeRetired(s, publisher, JudgeHealth(r, e), AdvanceHealth(u), k);
    } else if e.PublishCapability? {
      var u := Update(s, publisher, NextCapabilities(r, e));
      UpdatedIsRetired(s, publisher, NextCapabilities(r, e), k);
      SameMembersSameRetired(u, AdvanceCapabilities(u), k);
      ConcludeRetired(s, publisher, JudgeCapability(r, limits, e), AdvanceCapabilities(u), k);
    } else if e.MarkUnavailable? {
      var u := Update(s, None, MadeUnavailable(r, e.reason));
      UpdatedIsRetired(s, None, MadeUnavailable(r, e.reason), k);
      SameMembersSameRetired(u, AdvanceMembership(u), k);
      ConcludeRetired(s, publisher, JudgeUnavailable(r, e), AdvanceMembership(u), k);
    } else {
      var u := Update(s, publisher, Withdrawn(r, e.scope));
      UpdatedIsRetired(s, publisher, Withdrawn(r, e.scope), k);
      SameMembersSameRetired(u, AdvanceMembership(u), k);
      ConcludeRetired(s, publisher, JudgeWithdrawal(r, e), AdvanceMembership(u), k);
    }
  }

  lemma RetiredAt(s: Core, k: MemberKey)
    requires IsRetiredMember(s, k)
    ensures k in s.members && s.members[k].lifecycle.Retired?
  {
  }

  lemma NextOfRetired(r: MemberRecord, limits: Limits, e: Event)
    ensures e.PublishHealth? ==> NextHealth(r, e).key == r.key && NextHealth(r, e).lifecycle == r.lifecycle
    ensures e.PublishCapability? ==>
              NextCapabilities(r, e).key == r.key && NextCapabilities(r, e).lifecycle == r.lifecycle
    ensures e.MarkUnavailable? ==> MadeUnavailable(r, e.reason).key == r.key
    ensures e.MarkUnavailable? && r.lifecycle.Retired? ==> !JudgeUnavailable(r, e).Accepted?
    ensures e.WithdrawEvidence? ==> Withdrawn(r, e.scope).key == r.key
    ensures e.WithdrawEvidence? && r.lifecycle.Retired? ==>
              (Withdrawn(r, e.scope).lifecycle.Retired? <==> !e.scope.All?)
  {
    hide WithCapability;
  }

  lemma {:induction false} RevalidationKeepsRetired(
    members: map<MemberKey, MemberRecord>, targets: seq<MemberKey>, token: AuthorityToken, changed: bool, k: MemberKey)
    requires k in members && members[k].lifecycle.Retired?
    ensures var n := RevalidateEach(members, targets, token, changed).members;
            k in n && n[k].lifecycle.Retired?
    decreases |targets|
  {
    if targets != [] && targets[0] in members {
      var key := targets[0];
      if members[key].generation < U64_MAX {
        RevalidationKeepsRetired(members[key := Revalidated(members[key])], targets[1..], token, true, k);
      }
      RevalidationKeepsRetired(members, targets[1..], token, changed, k);
    }
  }

  lemma RevalidateKeepsRetired(s: Core, e: Event, k: MemberKey)
    requires e.RevalidateMembers? && IsRetiredMember(s, k)
    ensures IsRetiredMember(RevalidateStep(s, e).state, k)
  {
    hide CheckAuthority, AdvancePublication, NoteRejection, RevalidateEach, Outstanding;
    var a := CheckAuthority(s, e.authority, true);
    if a.Granted? {
      var targets := if e.all then Outstanding(s.members) else e.members;
      RevalidationKeepsRetired(s.members, targets, e.authority, false, k);
      var u := s.(members := RevalidateEach(s.members, targets, e.authority, false).members);
      EndingsKeepRetired(u, a.publisher, k);
      EndingsKeepRetired(AdvanceMembership(u), a.publisher, k);
    }
  }

  lemma RetirementsKeepRetired(s: Core, e: Event, now: i64, k: MemberKey)
    requires IsRetiredMember(s, k)
    ensures e.RetireMember? ==> IsRetiredMember(RetireMemberStep(s, e).state, k)
    ensures e.RetireRack? ==> IsRetiredMember(RetireRackStep(s, e, now).state, k)
    ensures e.DeclareRack? ==> IsRetiredMember(Declare(s, e, now).state, k)
  {
    hide CheckAuthority, AdvancePublication, NoteRejection, Conclude, IsIdentity, IsLabel;
    if e.RetireMember? {
      var a := CheckAuthority(s, e.authority, true);
      if a.Granted? {
        EndingsKeepRetired(s, a.publisher, k);
        if e.member in s.members {
          ConcludeRetired(s, a.publisher, JudgeRetirement(s.members[e.member]),
                          RetiredMember(s, e.member, Retirement(s.members[e.member])), k);
        }
      }
    } else if e.RetireRack? && s.rack.Some? && s.rack.value.generation < U64_MAX {
      var a := CheckAuthority(s, e.authority, true);
      if a.Granted? {
        EndingsKeepRetired(RetiredRack(s, s.rack.value.generation + 1, now), a.publisher, k);
      }
    }
  }

  lemma FenceBootKeepsRetired(s: Core, boot: Text, reason: RevalidationReason, now: i64, k: MemberKey)
    requires boot in s.publishers && IsRetiredMember(s, k)
    ensures IsRetiredMember(FenceBoot(s, boot, reason, now), k)
  {
  }

  lemma {:induction false} FenceEachKeepsRetired(s: Core, boots: seq<Text>, now: i64, k: MemberKey)
    requires IsRetiredMember(s, k)
    ensures IsRetiredMember(FenceEach(s, boots, now).state, k)
    decreases |boots|
  {
    hide FenceBoot, IsRetiredMember;
    if boots != [] {
      if boots[0] in s.publishers {
        FenceBootKeepsRetired(s, boots[0], OwnerProcessLost, now, k);
      }
      FenceEachKeepsRetired(FenceStep(s, s.generations.coordinatorEpoch, Some(boots[0]), OwnerProcessLost, now).state,
                            boots[1..], now, k);
    }
  }

  /** A request takes a member out of retirement exactly when it is an accepted withdrawal of all its evidence. */
  lemma StepUnretiresIff(env: Env, s: Core, e: Event, now: i64, k: MemberKey)
    requires Structured(s) && IsRetiredMember(s, k)
    ensures var step := Apply(env, s, e, now);
            !IsRetiredMember(step.state, k) <==> WithdrawsAll(e, k) && step.outcome.Accepted?
  {
    hide Structured, IsRetiredMember, PublishMemberStep, RevalidateStep, RetireMemberStep, RetireRackStep, Declare,
      FenceBoot, FenceEach, HealthStep, CapabilityStep, WithdrawStep, MarkUnavailableStep, Expired, Register,
      RelationshipStep, DomainStep, WithdrawRelationshipStep, PowerStep, CoolingStep, HeartbeatStep, SnapshotStep;
    match e {
      case PublishMember(_, _, _, _) => PublicationKeepsRetired(s, env.limits, e, k);
      case PublishHealth(_, _, _, _, _, _) => UpdatesOfRetired(s, env.limits, e, k);
      case PublishCapability(_, _, _) => UpdatesOfRetired(s, env.limits, e, k);
      case WithdrawEvidence(_, _, _) => UpdatesOfRetired(s, env.limits, e, k);
      case MarkUnavailable(_, _, _) => UpdatesOfRetired(s, env.limits, e, k);
      case RevalidateMembers(_, _, _) => RevalidateKeepsRetired(s, e, k);
      case RetireMember(_, _) => RetirementsKeepRetired(s, e, now, k);
      case RetireRack(_) => RetirementsKeepRetired(s, e, now, k);
      case DeclareRack(_, _, _, _) => RetirementsKeepRetired(s, e, now, k);
      case FencePublisher(_, boot, reason) =>
        if boot.Some? && boot.value in s.publishers {
          FenceBootKeepsRetired(s, boot.value, reason, now, k);
        }
      case ExpirePublishers => FenceEachKeepsRetired(s, Expired(s, now), now, k);
      case _ =>
        CommittedStepsKeepMembers(env, s, e, now);
        OthersKeepMembers(env, s, e, now);
        SameMembersSameRetired(s, Apply(env, s, e, now).state, k);
    }
  }

  /** Whoever may change a retired member can take it out of retirement. */
  lemma RetiredCanReturn(env: Env, s: Core, token: AuthorityToken, k: MemberKey, now: i64)
    requires Structured(s) && IsRetiredMember(s, k) && CheckAuthority(s, token, true).Granted?
    requires !OwnerConflict(s.members[k].ownerBoot, token) && s.members[k].generation < U64_MAX
    ensures var step := Apply(env, s, WithdrawEvidence(token, k, All), now);
            step.outcome.Accepted? && !IsRetiredMember(step.state, k)
  {
    hide Structured, CheckAuthority, AdvancePublication, Update, Withdrawn;
    StepUnretiresIff(env, s, WithdrawEvidence(token, k, All), now, k);
  }

  /** Between two points of a run a retired member stays retired as long as nobody withdraws all its evidence. */
  lemma {:induction false} RetiredStaysRetired(env: Env, s: Core, run: seq<Timed>, i: nat, j: nat, k: MemberKey)
    requires Regular(s) && i <= j <= |run| && IsRetiredMember(At(env, s, run, i), k)
    requires forall m :: i <= m < j ==> !(WithdrawsAll(run[m].event, k) && StepAt(env, s, run, m).outcome.Accepted?)
    ensures IsRetiredMember(At(env, s, run, j), k)
    decreases j - i
  {
    hide Regular, Apply, Structured, IsRetiredMember;
    if i < j {
      RunIsRegular(env, s, run, i);
      RegularIsStructured(At(env, s, run, i));
      StepUnretiresIff(env, At(env, s, run, i), run[i].event, run[i].now, k);
      assert At(env, s, run, i + 1) == StepAt(env, s, run, i).state;
      RetiredStaysRetired(env, s, run, i + 1, j, k);
    }
  }
}
