/** Who can change what: the part of the state a request may touch, and what one process cannot do to another. */
module Ownership {
  import opened Wrappers
  import opened Evidence
  import opened Model
  import opened Machine
  import Facts = Progress
  import opened Structure
  import opened Runs
  import opened Effects
  import opened Contents
  import opened Envelopes
  import opened Processes
  import opened Declarations

  // ----- Footprints -----

  predicate TouchesMembers(e: Event) {
    || e.PublishMember? || e.PublishHealth? || e.PublishCapability? || e.WithdrawEvidence? || e.MarkUnavailable?
    || e.RetireMember? || e.RetireRack? || e.RevalidateMembers? || e.DeclareRack? || e.FencePublisher?
      || e.ExpirePublishers?
  }

  predicate TouchesRelationships(e: Event) {
    || e.PublishRelationship? || e.WithdrawRelationship? || e.RetireMember? || e.DeclareRack? || e.FencePublisher?
    || e.ExpirePublishers?
  }

  /** A request leaves alone every part of the state that is not its own. */
  ghost predicate Footprint(s: Core, t: Core, e: Event) {
    && (TouchesMembers(e) || t.members == s.members)
    && (TouchesRelationships(e) || t.relationships == s.relationships)
    && (e.PublishFailureDomain? || e.DeclareRack? || IsFencing(e) || t.failureDomains == s.failureDomains)
    && (e.PublishPower? || IsFencing(e) || t.power == s.power)
    && (e.PublishCooling? || IsFencing(e) || t.cooling == s.cooling)
    && (e.PublishSnapshot? || (t.snapshots == s.snapshots && t.snapshotGeneration == s.snapshotGeneration))
    && (e.RetireRack? || IsFencing(e) || t.fencedBoots == s.fencedBoots)
    && (e.RetireRack? || e.DeclareRack? || t.rack == s.rack)
  }

  lemma OneMemberFootprint(s: Core, t: Core, e: Event, k: MemberKey)
    requires OthersKept(s, t, k) && TouchesMembers(e)
    ensures Footprint(s, t, e)
  {
  }

  lemma MemberFootprints(env: Env, s: Core, e: Event, now: i64)
    requires Structured(s) && Apply(env, s, e, now).outcome.Accepted?
    requires e.PublishMember? || e.PublishHealth? || e.PublishCapability? || e.WithdrawEvidence? || e.MarkUnavailable?
    ensures OthersKept(s, Apply(env, s, e, now).state, if e.PublishMember? then e.record.key else e.member)
  {
    hide Structured, PublishMemberStep, HealthStep, CapabilityStep, WithdrawStep, MarkUnavailableStep, OthersKept,
      Counted,
      AsStored, SameButEvidence, SameButHealth, Renumbered, Numbered, Forgets, Lists, Stamp.IsFreshAt;
    match e {
      case PublishMember(_, _, _, _) => MemberIsWhatWasPublished(s, env.limits, e, now);
      case PublishHealth(_, _, _, _, _, _) => HealthIsWhatWasPublished(s, e);
      case PublishCapability(_, _, _) => CapabilityIsWhatWasPublished(s, env.limits, e);
      case WithdrawEvidence(_, _, _) => WithdrawalForgets(s, e, now);
      case MarkUnavailable(_, _, _) => UnavailableIsWhatWasMarked(s, e, now);
    }
  }

  lemma TopologyFootprints(env: Env, s: Core, e: Event, now: i64)
    requires Structured(s) && Apply(env, s, e, now).outcome.Accepted?
    requires e.PublishRelationship? || e.WithdrawRelationship? || e.PublishFailureDomain? || e.RetireMember?
    ensures Footprint(s, Apply(env, s, e, now).state, e)
  {
    hide Structured, RelationshipStep, WithdrawRelationshipStep, DomainStep, RetireMemberStep, Counted, OwnedBy,
      Canonical,
      SameRelationship, Retires, Unrelates;
    match e {
      case PublishRelationship(_, _, _) => RelationshipIsWhatWasPublished(s, env.limits, e);
      case WithdrawRelationship(_, _) => RelationshipIsWithdrawn(s, e);
      case PublishFailureDomain(_, _, _) => DomainIsWhatWasPublished(s, env.limits, e);
      case RetireMember(_, _) => RetirementIsExact(s, e, now);
    }
  }

  lemma OtherFootprints(env: Env, s: Core, e: Event, now: i64)
    requires Apply(env, s, e, now).outcome.Accepted?
    requires e.PublishPower? || e.PublishCooling? || e.PublishSnapshot? || e.RegisterPublisher? || e.Heartbeat?
    ensures Footprint(s, Apply(env, s, e, now).state, e)
  {
    hide PowerStep, CoolingStep, SnapshotStep, Register, HeartbeatStep, Counted, OwnedBy, IsHeadroom, InNameOrder,
      ZonesNamed, Describes, Retains;
    match e {
      case PublishPower(_, _, _) => PowerIsWhatWasPublished(env, s, e, now);
      case PublishCooling(_, _, _) => CoolingIsWhatWasPublished(env, s, e, now);
      case PublishSnapshot(_) => SnapshotIsExact(env, s, e, now);
      case RegisterPublisher(_, _, _, _, _) => RegistrationIsExact(s, env.limits, e, now);
      case Heartbeat(_) => HeartbeatIsExact(s, e, now);
    }
  }

  lemma WideFootprints(env: Env, s: Core, e: Event, now: i64)
    requires e.DeclareRack? || e.RetireRack? || e.RevalidateMembers? || IsFencing(e)
    ensures Footprint(s, Apply(env, s, e, now).state, e)
  {
    hide Declare, RetireRackStep, RevalidateStep, FenceEach, FenceBoot, Counted, LoseAuthority, Recorded,
      OrphanedMembers,
      OrphanedTopology, OrphanedEnvelopes, Confirms, EndsWith, AllOut, CheckAuthority, NotesRefusal, Passed, Expired;
    match e {
      case DeclareRack(_, _, _, _) => DeclarationIsExact(s, e, now);
      case RetireRack(_) => RackRetirementIsExact(s, e, now);
      case RevalidateMembers(_, _, _) =>
        if CheckAuthority(s, e.authority, true).Granted? {
          RevalidationIsExact(s, e);
        } else {
          DeniedRevalidation(s, e);
        }
      case FencePublisher(_, _, _) => FencingFootprint(s, e, now);
      case ExpirePublishers => ExpiryIsExact(env, s, now);
    }
  }

  lemma DeniedRevalidation(s: Core, e: Event)
    requires e.RevalidateMembers? && CheckAuthority(s, e.authority, true).Denied?
    ensures RevalidateStep(s, e).state == s
  {
    hide CheckAuthority, RevalidateEach, Outstanding;
  }

  lemma FencingFootprint(s: Core, e: Event, now: i64)
    requires e.FencePublisher?
    ensures Footprint(s, FenceStep(s, e.epoch, e.boot, e.reason, now).state, e)
  {
    hide LoseAuthority, Recorded, OrphanedMembers, OrphanedTopology, OrphanedEnvelopes, FenceBoot;
    if FenceStep(s, e.epoch, e.boot, e.reason, now).outcome.Accepted? {
      FencingIsExact(s, e, now);
    }
  }

  /** A request that is not accepted, or not about authority and members at large, changes no record. */
  lemma RefusedFootprint(s: Core, e: Event, step: Step)
    requires Facts.Sound(s, e, step) && !step.outcome.Accepted? && !e.RevalidateMembers?
    ensures step.state == s.(publishers := step.state.publishers)
  {
    hide Facts.Grows, Facts.Tracks, Facts.Authorized, Facts.OnlyMembersChanged, Facts.RackAligned, NoteRejection;
    if step.outcome.IsRejection() && step.state != s {
      var b :| b in s.publishers && step.state == NoteRejection(s, Some(b));
      NotingKeepsRecords(s, b);
    }
  }

  lemma NotingKeepsRecords(s: Core, b: Text)
    ensures NoteRejection(s, Some(b)) == s.(publishers := NoteRejection(s, Some(b)).publishers)
  {
  }

  /** Every request touches only the part of the state that is its own. */
  lemma StepFootprint(env: Env, s: Core, e: Event, now: i64)
    requires Regular(s)
    ensures Footprint(s, Apply(env, s, e, now).state, e)
  {
    hide Regular, Apply, Footprint, Facts.Sound;
    RegularIsStructured(s);
    RegularKeys(s);
    if e.DeclareRack? || e.RetireRack? || e.RevalidateMembers? || IsFencing(e) {
      WideFootprints(env, s, e, now);
    } else if !Apply(env, s, e, now).outcome.Accepted? {
      Facts.StepIsSound(env, s, e, now);
      RefusedFootprint(s, e, Apply(env, s, e, now));
      SamePublishersFootprint(s, Apply(env, s, e, now).state, e);
    } else if e.PublishRelationship? || e.WithdrawRelationship? || e.PublishFailureDomain? || e.RetireMember? {
      TopologyFootprints(env, s, e, now);
    } else if TouchesMembers(e) {
      MemberFootprints(env, s, e, now);
      OneMemberFootprint(s, Apply(env, s, e, now).state, e, if e.PublishMember? then e.record.key else e.member);
    } else {
      OtherFootprints(env, s, e, now);
    }
  }

  lemma SamePublishersFootprint(s: Core, t: Core, e: Event)
    requires t == s.(publishers := t.publishers)
    ensures Footprint(s, t, e)
  {
  }

  // ----- Members -----

  /** The requests that can change a known member, under what they find. */
  predicate MayChange(s: Core, e: Event, o: Outcome, now: i64, k: MemberKey)
    requires k in s.members
  {
    match e
    case PublishMember(_, _, _, _) => o.Accepted? && e.record.key == k
    case PublishHealth(_, _, _, _, _, _) => o.Accepted? && e.member == k
    case PublishCapability(_, _, _) => o.Accepted? && e.member == k
    case WithdrawEvidence(_, _, _) => o.Accepted? && e.member == k
    case MarkUnavailable(_, _, _) => o.Accepted? && e.member == k
    case RetireMember(_, _) => o.Accepted? && (e.member == k || s.members[k].parent == Some(e.member))
    case RetireRack(_) => o.Accepted? && s.members[k].lifecycle.Present?
    case DeclareRack(_, _, _, _) => o.Accepted? && s.rack.Some?
    case RevalidateMembers(_, _, _) => s.members[k].stamp.revalidationRequired && (e.all || k in e.members)
    case FencePublisher(_, _, _) => o.Accepted? && s.members[k].ownerBoot.Some? && s.members[k].ownerBoot == e.boot
    case ExpirePublishers =>
      var owner := s.members[k].ownerBoot;
      owner.Some? && owner.value in s.publishers && HasLapsed(s.publishers[owner.value], now)
    case _ => false
  }

  predicate Stays(s: Core, t: Core, k: MemberKey) {
    k in s.members && k in t.members && t.members[k] == s.members[k]
  }

  lemma OthersStay(s: Core, t: Core, key: MemberKey, k: MemberKey)
    requires OthersKept(s, t, key) && k in s.members && k != key
    ensures Stays(s, t, k)
  {
  }

  lemma DeclarationStays(s: Core, e: Event, now: i64, k: MemberKey)
    requires k in s.members && (e.DeclareRack? || e.RetireRack?)
    ensures e.DeclareRack? ==>
              Stays(s, Declare(s, e, now).state, k) || MayChange(s, e, Declare(s, e, now).outcome, now, k)
    ensures e.RetireRack? ==>
              Stays(s, RetireRackStep(s, e, now).state, k) || MayChange(s, e, RetireRackStep(s, e, now).outcome, now, k)
  {
    hide Declare, RetireRackStep, AllOut;
    if e.DeclareRack? {
      DeclarationIsExact(s, e, now);
    } else {
      RackRetirementIsExact(s, e, now);
    }
  }

  lemma OrphansStay(s: Core, t: Core, boots: set<Text>, reason: RevalidationReason, now: i64, k: MemberKey)
    requires k in s.members && AreFenced(s, t, boots, reason, now)
    ensures Stays(s, t, k) || IsOf(s.members[k].ownerBoot, boots)
  {
    hide LoseAuthority, Recorded, OrphanedMember, OrphanedTopology, OrphanedEnvelopes, Elsewhere;
  }

  lemma FencingStays(env: Env, s: Core, e: Event, now: i64, k: MemberKey)
    requires k in s.members && IsFencing(e)
    ensures var step := Apply(env, s, e, now);
            Stays(s, step.state, k) || MayChange(s, e, step.outcome, now, k)
  {
    hide FenceEach, FenceBoot, AreFenced, Expired, HasLapsed;
    if e.ExpirePublishers? {
      ExpiryIsExact(env, s, now);
      OrphansStay(s, Apply(env, s, e, now).state, (set b | b in s.publishers && HasLapsed(s.publishers[b], now)),
                  OwnerProcessLost, now, k);
    } else if FenceStep(s, e.epoch, e.boot, e.reason, now).outcome.Accepted? {
      FencingIsExact(s, e, now);
      OrphansStay(s, Apply(env, s, e, now).state, {e.boot.value}, e.reason, now, k);
    }
  }

  lemma RevalidationStays(s: Core, e: Event, now: i64, k: MemberKey)
    requires e.RevalidateMembers? && k in s.members
    ensures var step := RevalidateStep(s, e);
            Stays(s, step.state, k) || MayChange(s, e, step.outcome, now, k)
  {
    hide RevalidateStep, CheckAuthority, Passed, EndsWith, Outstanding, Counted, NotesRefusal, OnlyMembersMoved;
    if CheckAuthority(s, e.authority, true).Granted? {
      RevalidationIsExact(s, e);
    } else {
      DeniedRevalidation(s, e);
    }
  }

  lemma RetirementStays(s: Core, e: Event, now: i64, k: MemberKey)
    requires e.RetireMember? && k in s.members && Structured(s) && RetireMemberStep(s, e).outcome.Accepted?
    ensures Stays(s, RetireMemberStep(s, e).state, k) || e.member == k || s.members[k].parent == Some(e.member)
  {
    hide Structured, RetireMemberStep, Unrelates, Counted, Retires;
    RetirementIsExact(s, e, now);
    RetiredStay(s, RetireMemberStep(s, e).state, e.member, now, k);
  }

  lemma RetiredStay(s: Core, t: Core, key: MemberKey, at: i64, k: MemberKey)
    requires Retires(s, t, key, at) && k in s.members
    ensures Stays(s, t, k) || key == k || s.members[k].parent == Some(key)
  {
    hide IsBlank;
  }

  /** A known member is changed by no request but those that may change it. */
  lemma StepChangesMember(env: Env, s: Core, e: Event, now: i64, k: MemberKey)
    requires Regular(s) && k in s.members
    ensures var step := Apply(env, s, e, now);
            Stays(s, step.state, k) || MayChange(s, e, step.outcome, now, k)
  {
    hide Regular, Apply, Facts.Sound, OthersKept, MayChange, Stays, Footprint, Structured, Facts.RackAligned,
      Facts.KeysMatch;
    var step := Apply(env, s, e, now);
    RegularIsStructured(s);
    RegularKeys(s);
    if !TouchesMembers(e) {
      UntouchedStays(env, s, e, now, k);
    } else if e.DeclareRack? || e.RetireRack? {
      DeclarationStays(s, e, now, k);
      ApplyToRack(env, s, e, now);
    } else if IsFencing(e) {
      FencingStays(env, s, e, now, k);
    } else if e.RevalidateMembers? {
      RevalidationStays(s, e, now, k);
      ApplyToRevalidation(env, s, e, now);
    } else if !step.outcome.Accepted? {
      Facts.StepIsSound(env, s, e, now);
      RefusedFootprint(s, e, step);
      SameMembersStay(s, step.state, k);
    } else if e.RetireMember? {
      ApplyToRetirement(env, s, e, now);
      RetirementStays(s, e, now, k);
      RetirementMayChange(s, e, step.outcome, now, k);
    } else {
      var key := if e.PublishMember? then e.record.key else e.member;
      MemberFootprints(env, s, e, now);
      if k != key {
        OthersStay(s, step.state, key, k);
      } else {
        OwnRequest(s, e, step.outcome, now, k);
      }
    }
  }

  lemma UntouchedStays(env: Env, s: Core, e: Event, now: i64, k: MemberKey)
    requires Regular(s) && k in s.members && !TouchesMembers(e)
    ensures Stays(s, Apply(env, s, e, now).state, k)
  {
    hide Regular, Apply;
    StepFootprint(env, s, e, now);
  }

  lemma SameMembersStay(s: Core, t: Core, k: MemberKey)
    requires t.members == s.members && k in s.members
    ensures Stays(s, t, k)
  {
  }

  lemma ApplyToRetirement(env: Env, s: Core, e: Event, now: i64)
    requires e.RetireMember?
    ensures Apply(env, s, e, now) == RetireMemberStep(s, e)
  {
    hide RetireMemberStep;
  }

  lemma ApplyToRack(env: Env, s: Core, e: Event, now: i64)
    requires e.DeclareRack? || e.RetireRack?
    ensures Apply(env, s, e, now) == if e.DeclareRack? then Declare(s, e, now) else RetireRackStep(s, e, now)
  {
    hide Declare, RetireRackStep;
  }

  lemma RetirementMayChange(s: Core, e: Event, o: Outcome, now: i64, k: MemberKey)
    requires k in s.members && e.RetireMember? && o.Accepted?
    ensures MayChange(s, e, o, now, k) <==> e.member == k || s.members[k].parent == Some(e.member)
  {
  }

  lemma OwnRequest(s: Core, e: Event, o: Outcome, now: i64, k: MemberKey)
    requires k in s.members && o.Accepted?
    requires e.PublishMember? || e.PublishHealth? || e.PublishCapability? || e.WithdrawEvidence? || e.MarkUnavailable?
    requires k == if e.PublishMember? then e.record.key else e.member
    ensures MayChange(s, e, o, now, k)
  {
  }

  // ----- One process and another -----

  /** Another process than the owner may ask for these, and get them: they are not about one record. */
  predicate IsSweeping(e: Event, o: Outcome) {
    o.Accepted? && (e.RetireMember? || e.RetireRack? || e.DeclareRack?)
  }

  /** The request is made by a process other than the owner. */
  predicate IsStranger(e: Event, owner: Option<Text>) {
    Facts.Presents(e).Some? && owner.Some? && Facts.Presents(e) != owner
  }

  lemma AcceptedIsOwn(env: Env, s: Core, e: Event, now: i64, k: MemberKey)
    requires k in s.members && Apply(env, s, e, now).outcome.Accepted?
    requires e.PublishMember? || e.PublishHealth? || e.PublishCapability? || e.WithdrawEvidence? || e.MarkUnavailable?
    requires k == if e.PublishMember? then e.record.key else e.member
    ensures !IsStranger(e, s.members[k].ownerBoot)
  {
    Facts.GrantMeans(s, e.authority, true);
    hide CheckAuthority, ValidMemberRecord, JudgeReferences, CommitMember, Update, AdvancePublication, WithCapability,
      Withdrawn, ValidCapability, ValidEvidence, SameMemberContent, CapabilityIndex;
    assert CheckAuthority(s, e.authority, true).Granted?;
    if e.PublishMember? {
      assert JudgeMember(s, env.limits, e).Accepted?;
      assert JudgeReplacement(s.members[k], e).Accepted?;
    }
  }

  lemma PassedIsOwn(s: Core, e: Event, k: MemberKey)
    requires e.RevalidateMembers? && k in s.members && IsStranger(e, s.members[k].ownerBoot)
    ensures Stays(s, RevalidateStep(s, e).state, k)
  {
    hide RevalidateStep, CheckAuthority, EndsWith, Outstanding, Counted, NotesRefusal, OnlyMembersMoved;
    if CheckAuthority(s, e.authority, true).Granted? {
      RevalidationIsExact(s, e);
    } else {
      DeniedRevalidation(s, e);
    }
  }

  /** What one process owns no other can change, except by retiring a member or the rack, or declaring it anew. */
  lemma MembersAreIsolated(env: Env, s: Core, e: Event, now: i64, k: MemberKey)
    requires Regular(s) && k in s.members && IsStranger(e, s.members[k].ownerBoot)
    ensures Stays(s, Apply(env, s, e, now).state, k) || IsSweeping(e, Apply(env, s, e, now).outcome)
  {
    hide Regular, Apply;
    StepChangesMember(env, s, e, now, k);
    if e.RevalidateMembers? {
      PassedIsOwn(s, e, k);
      ApplyToRevalidation(env, s, e, now);
    } else if MayChange(s, e, Apply(env, s, e, now).outcome, now, k) && !IsSweeping(e, Apply(env, s, e, now).outcome) {
      AcceptedIsOwn(env, s, e, now, k);
    }
  }

  // ----- Relationships and failure domains -----

  predicate StaysRelated(s: Core, t: Core, k: RelationshipKey) {
    k in s.relationships && k in t.relationships && t.relationships[k] == s.relationships[k]
  }

  lemma AcceptedRelationshipIsOwn(s: Core, limits: Limits, e: Event, k: RelationshipKey)
    requires k in s.relationships
    requires e.PublishRelationship? ==>
               RelationshipStep(s, limits, e).outcome.Accepted? && Canonical(e.relationship.key) == k
    requires e.WithdrawRelationship? ==> WithdrawRelationshipStep(s, e).outcome.Accepted? && Canonical(e.key) == k
    requires e.PublishRelationship? || e.WithdrawRelationship?
    ensures !IsStranger(e, s.relationships[k].ownerBoot)
  {
    Facts.GrantMeans(s, e.authority, true);
    hide CheckAuthority, CommitRelationship, AdvancePublication, WithoutRelationship, ValidEvidence, ValidQuantity,
      SameRelationshipContent, Canonical;
    assert CheckAuthority(s, e.authority, true).Granted?;
  }

  lemma PublishedRelationshipStays(s: Core, t: Core, e: Event, key: RelationshipKey, k: RelationshipKey)
    requires e.PublishRelationship? && StoresRelationship(s, t, e.authority, e.relationship, key)
    requires k in s.relationships && k != key
    ensures StaysRelated(s, t, k)
  {
    hide OwnedBy, Counted;
  }

  lemma RetirementLeavesRelated(s: Core, e: Event, now: i64, k: RelationshipKey)
    requires e.RetireMember? && Structured(s) && RetireMemberStep(s, e).outcome.Accepted? && k in s.relationships
    ensures StaysRelated(s, RetireMemberStep(s, e).state, k) <==> k.from != e.member && k.to != e.member
  {
    RetirementIsExact(s, e, now);
    hide Structured, RetireMemberStep, Retires, Counted;
  }

  lemma StrangersLeaveRelated(s: Core, limits: Limits, e: Event, k: RelationshipKey)
    requires k in s.relationships && IsStranger(e, s.relationships[k].ownerBoot)
    ensures e.PublishRelationship? && RelationshipStep(s, limits, e).outcome.Accepted? ==>
              StaysRelated(s, RelationshipStep(s, limits, e).state, k)
    ensures e.WithdrawRelationship? && WithdrawRelationshipStep(s, e).outcome.Accepted? ==>
              StaysRelated(s, WithdrawRelationshipStep(s, e).state, k)
  {
    hide RelationshipStep, WithdrawRelationshipStep, StoresRelationship, Canonical, SameRelationship, Counted,
      IsStranger;
    if e.PublishRelationship? && RelationshipStep(s, limits, e).outcome.Accepted? {
      RelationshipIsWhatWasPublished(s, limits, e);
      if Canonical(e.relationship.key) == k {
        AcceptedRelationshipIsOwn(s, limits, e, k);
      } else {
        PublishedRelationshipStays(s, RelationshipStep(s, limits, e).state, e, Canonical(e.relationship.key), k);
      }
    } else if e.WithdrawRelationship? && WithdrawRelationshipStep(s, e).outcome.Accepted? {
      RelationshipIsWithdrawn(s, e);
      if Canonical(e.key) == k {
        AcceptedRelationshipIsOwn(s, limits, e, k);
      }
    }
  }

  /** A relationship of one process no other process can change, except by retiring an endpoint or declaring anew. */
  lemma RelationshipsAreIsolated(env: Env, s: Core, e: Event, now: i64, k: RelationshipKey)
    requires Regular(s) && k in s.relationships && IsStranger(e, s.relationships[k].ownerBoot)
    ensures var step := Apply(env, s, e, now);
            || StaysRelated(s, step.state, k)
            || (step.outcome.Accepted? && (e.DeclareRack? || (e.RetireMember?
              && (e.member == k.from || e.member == k.to))))
  {
    hide Regular, Apply, Facts.Sound, Footprint, RelationshipStep, WithdrawRelationshipStep, RetireMemberStep,
      IsStranger,
      StaysRelated, Facts.RackAligned, Structured, Facts.KeysMatch;
    RegularIsStructured(s);
    RegularKeys(s);
    StrangersPresent(e, s.relationships[k].ownerBoot);
    var step := Apply(env, s, e, now);
    if !TouchesRelationships(e) {
      FootprintStays(env, s, e, now, k);
    } else if !step.outcome.Accepted? {
      Facts.StepIsSound(env, s, e, now);
      RefusedFootprint(s, e, step);
      SameRelated(s, step.state, k);
    } else if e.RetireMember? {
      ApplyToRetirement(env, s, e, now);
      RetirementLeavesRelated(s, e, now, k);
    } else if !e.DeclareRack? {
      ApplyToRelated(env, s, e, now);
      StrangersLeaveRelated(s, env.limits, e, k);
    }
  }

  lemma StrangersPresent(e: Event, owner: Option<Text>)
    requires IsStranger(e, owner)
    ensures !IsFencing(e)
  {
  }

  lemma SameRelated(s: Core, t: Core, k: RelationshipKey)
    requires t.relationships == s.relationships && k in s.relationships
    ensures StaysRelated(s, t, k)
  {
  }

  lemma ApplyToRelated(env: Env, s: Core, e: Event, now: i64)
    ensures e.PublishRelationship? ==> Apply(env, s, e, now) == RelationshipStep(s, env.limits, e)
    ensures e.WithdrawRelationship? ==> Apply(env, s, e, now) == WithdrawRelationshipStep(s, e)
  {
    hide RelationshipStep, WithdrawRelationshipStep;
  }

  lemma FootprintStays(env: Env, s: Core, e: Event, now: i64, k: RelationshipKey)
    requires Regular(s) && k in s.relationships && !TouchesRelationships(e)
    ensures StaysRelated(s, Apply(env, s, e, now).state, k)
  {
    hide Regular, Apply;
    StepFootprint(env, s, e, now);
  }

  lemma AcceptedDomainIsOwn(s: Core, limits: Limits, e: Event)
    requires e.PublishFailureDomain? && DomainStep(s, limits, e).outcome.Accepted? && e.domain.id in s.failureDomains
    ensures !IsStranger(e, s.failureDomains[e.domain.id].ownerBoot)
  {
    Facts.GrantMeans(s, e.authority, true);
    hide CheckAuthority, CommitDomain, AdvancePublication, ValidEvidence, SameDomainContent, JudgeParents, IsLabel,
      IsIdentity;
    ParentsOnceInOrder(e.domain);
    hide UniqueParents;
    assert CheckAuthority(s, e.authority, true).Granted?;
  }

  /** A failure domain of one process no other process can change, except by declaring the rack anew. */
  lemma DomainsAreIsolated(env: Env, s: Core, e: Event, now: i64, d: Text)
    requires Regular(s) && d in s.failureDomains && IsStranger(e, s.failureDomains[d].ownerBoot)
    ensures var step := Apply(env, s, e, now);
            || (d in step.state.failureDomains && step.state.failureDomains[d] == s.failureDomains[d])
            || (step.outcome.Accepted? && e.DeclareRack?)
  {
    hide Regular, DomainStep, Facts.Sound, Counted, OwnedBy, Declare;
    RegularKeys(s);
    var step := Apply(env, s, e, now);
    if !e.PublishFailureDomain? && !e.DeclareRack? {
      OtherDomainsStay(env, s, e, now);
    } else if !step.outcome.Accepted? {
      Facts.StepIsSound(env, s, e, now);
      RefusedFootprint(s, e, step);
    } else if e.PublishFailureDomain? {
      DomainIsWhatWasPublished(s, env.limits, e);
      if e.domain.id == d {
        AcceptedDomainIsOwn(s, env.limits, e);
      }
    }
  }

  lemma OtherDomainsStay(env: Env, s: Core, e: Event, now: i64)
    requires Regular(s) && !e.PublishFailureDomain? && !e.DeclareRack? && !IsFencing(e)
    ensures Apply(env, s, e, now).state.failureDomains == s.failureDomains
  {
    hide Regular, Apply;
    StepFootprint(env, s, e, now);
  }

  /** The envelopes have no such protection: whoever may publish takes over those of another process. */
  lemma EnvelopesChangeHands(
    env: Env, s: Core, token: AuthorityToken, p: PowerEnvelope, c: CoolingEnvelope, now: i64)
    requires CheckAuthority(s, token, true).Granted? && token.boot.Some?
    requires ValidEvidence(p.stamp) && p.rackLimit.None? && p.rackObservedDraw.None? && p.generation == 0
    requires ValidEvidence(c.stamp) && c.zones == [] && c.generation == 0
    requires s.generations.power < U64_MAX && s.generations.cooling < U64_MAX
    ensures var step := Apply(env, s, PublishPower(token, p, None), now);
            step.outcome.Accepted? && step.state.power.Some? && step.state.power.value.ownerBoot == token.boot
    ensures var step := Apply(env, s, PublishCooling(token, c, None), now);
            step.outcome.Accepted? && step.state.cooling.Some? && step.state.cooling.value.ownerBoot == token.boot
  {
    hide CheckAuthority, CommitPower, CommitCooling, ValidEvidence, IsHeadroom, InNameOrder, ZonesNamed;
    PowerIsWhatWasPublished(env, s, PublishPower(token, p, None), now);
    CoolingIsWhatWasPublished(env, s, PublishCooling(token, c, None), now);
  }

  /** Nor does retirement ask for an owner: whoever has authority retires the member of another process. */
  lemma AnyoneCanRetire(env: Env, s: Core, token: AuthorityToken, k: MemberKey, now: i64)
    requires CheckAuthority(s, token, true).Granted? && k in s.members
    requires !s.members[k].lifecycle.Retired? && s.members[k].generation < U64_MAX
    ensures var step := Apply(env, s, RetireMember(token, k), now);
            step.outcome.Accepted? && k in step.state.members && step.state.members[k].lifecycle.Retired?
  {
    hide CheckAuthority, AdvancePublication, RetiredMember;
    EndingKeepsRecords(RetiredMember(s, k, Retirement(s.members[k])), CheckAuthority(s, token, true).publisher);
    RetiredIsThere(s, k);
  }

  lemma RetiredIsThere(s: Core, k: MemberKey)
    requires k in s.members
    ensures var u := RetiredMember(s, k, Retirement(s.members[k])); k in u.members && u.members[k].lifecycle.Retired?
  {
  }

  // ----- Owners over runs -----

  ghost predicate SameOwner(s: Core, t: Core, k: MemberKey) {
    k in s.members && k in t.members && t.members[k].ownerBoot == s.members[k].ownerBoot
  }

  /** The request names the owner of the member: an operator publishes it, or a process one that has none. */
  predicate NamesOwner(s: Core, e: Event, o: Outcome, k: MemberKey)
    requires k in s.members
  {
    e.PublishMember? && o.Accepted? && e.record.key == k && (e.authority.boot.None? || s.members[k].ownerBoot.None?)
  }

  lemma PublicationNamesOwner(env: Env, s: Core, e: Event, now: i64)
    requires e.PublishMember? && e.record.key in s.members && Apply(env, s, e, now).outcome.Accepted?
    ensures SameOwner(s, Apply(env, s, e, now).state, e.record.key) || NamesOwner(s, e, Accepted, e.record.key)
  {
    hide PublishMemberStep, OthersKept, Counted, AsStored, SameButEvidence, Stamp.IsFreshAt;
    MemberIsWhatWasPublished(s, env.limits, e, now);
    AcceptedIsOwn(env, s, e, now, e.record.key);
    MemberIsThere(s, Apply(env, s, e, now).state, e.record.key);
  }

  lemma MemberIsThere(s: Core, t: Core, k: MemberKey)
    requires OthersKept(s, t, k)
    ensures k in t.members
  {
  }

  lemma UpdatesKeepOwner(env: Env, s: Core, e: Event, now: i64)
    requires Structured(s) && Apply(env, s, e, now).outcome.Accepted?
    requires e.PublishHealth? || e.PublishCapability? || e.WithdrawEvidence? || e.MarkUnavailable?
    ensures SameOwner(s, Apply(env, s, e, now).state, e.member)
  {
    hide Structured, HealthStep, CapabilityStep, WithdrawStep, MarkUnavailableStep, OthersKept, Counted, Renumbered,
      Lists, Stamp.IsFreshAt, IsBlank;
    match e {
      case PublishHealth(_, _, _, _, _, _) => HealthIsWhatWasPublished(s, e);
      case PublishCapability(_, _, _) => CapabilityIsWhatWasPublished(s, env.limits, e);
      case WithdrawEvidence(_, _, _) => WithdrawalForgets(s, e, now);
      case MarkUnavailable(_, _, _) => UnavailableIsWhatWasMarked(s, e, now);
    }
    MemberIsThere(s, Apply(env, s, e, now).state, e.member);
  }

  lemma SweepsKeepOwner(env: Env, s: Core, e: Event, now: i64, k: MemberKey)
    requires k in s.members && (e.DeclareRack? || e.RetireRack?)
    ensures SameOwner(s, Apply(env, s, e, now).state, k)
  {
    hide Declare, RetireRackStep, AllOut, Reincarnated, Abandoned;
    if e.DeclareRack? {
      DeclarationIsExact(s, e, now);
      if s.rack.Some? && Declare(s, e, now).outcome.Accepted? {
        ReincarnationKeepsOwner(s, Declare(s, e, now).state, e, now, k);
      }
    } else {
      RackRetirementIsExact(s, e, now);
      if RetireRackStep(s, e, now).outcome.Accepted? {
        AbandonedKeepOwner(s, RetireRackStep(s, e, now).state, k);
      }
    }
  }

  lemma ReincarnationKeepsOwner(s: Core, t: Core, e: Event, now: i64, k: MemberKey)
    requires e.DeclareRack? && Reincarnated(s, t, e, now) && k in s.members
    ensures SameOwner(s, t, k)
  {
  }

  lemma AbandonedKeepOwner(s: Core, t: Core, k: MemberKey)
    requires Abandoned(s, t) && k in s.members
    ensures SameOwner(s, t, k)
  {
  }

  lemma OrphansKeepOwner(s: Core, t: Core, boots: set<Text>, reason: RevalidationReason, now: i64, k: MemberKey)
    requires AreFenced(s, t, boots, reason, now) && k in s.members
    ensures SameOwner(s, t, k)
  {
    hide LoseAuthority, Recorded, OrphanedTopology, OrphanedEnvelopes, Elsewhere, LosesLife, LosesLives;
  }

  lemma FencingKeepsOwner(env: Env, s: Core, e: Event, now: i64, k: MemberKey)
    requires k in s.members && IsFencing(e)
    ensures SameOwner(s, Apply(env, s, e, now).state, k)
  {
    hide FenceEach, FenceBoot, AreFenced, Expired, HasLapsed;
    if e.ExpirePublishers? {
      ExpiryIsExact(env, s, now);
      OrphansKeepOwner(s, Apply(env, s, e, now).state, (set b | b in s.publishers && HasLapsed(s.publishers[b], now)),
                       OwnerProcessLost, now, k);
    } else if FenceStep(s, e.epoch, e.boot, e.reason, now).outcome.Accepted? {
      FencingIsExact(s, e, now);
      OrphansKeepOwner(s, Apply(env, s, e, now).state, {e.boot.value}, e.reason, now, k);
    }
  }

  lemma RevalidationKeepsOwner(s: Core, e: Event, k: MemberKey)
    requires e.RevalidateMembers? && k in s.members
    ensures SameOwner(s, RevalidateStep(s, e).state, k)
  {
    hide RevalidateStep, CheckAuthority, Passed, EndsWith, Outstanding, Counted, NotesRefusal, OnlyMembersMoved;
    if CheckAuthority(s, e.authority, true).Granted? {
      RevalidationIsExact(s, e);
    } else {
      DeniedRevalidation(s, e);
    }
  }

  lemma RetirementKeepsOwner(s: Core, e: Event, now: i64, k: MemberKey)
    requires e.RetireMember? && k in s.members && Structured(s) && RetireMemberStep(s, e).outcome.Accepted?
    ensures SameOwner(s, RetireMemberStep(s, e).state, k)
  {
    RetirementIsExact(s, e, now);
    hide Structured, RetireMemberStep, Unrelates, Counted, IsBlank;
  }

  /** No request moves the owner of a known member, unless it names it. */
  lemma StepMovesOwner(env: Env, s: Core, e: Event, now: i64, k: MemberKey)
    requires Regular(s) && k in s.members
    ensures var step := Apply(env, s, e, now);
            SameOwner(s, step.state, k) || NamesOwner(s, e, step.outcome, k)
  {
    hide Regular, Apply, MayChange;
    var step := Apply(env, s, e, now);
    StepChangesMember(env, s, e, now, k);
    if !Stays(s, step.state, k) {
      RegularIsStructured(s);
      if e.DeclareRack? || e.RetireRack? {
        SweepsKeepOwner(env, s, e, now, k);
      } else if IsFencing(e) {
        FencingKeepsOwner(env, s, e, now, k);
      } else if e.RevalidateMembers? {
        RevalidationKeepsOwner(s, e, k);
        ApplyToRevalidation(env, s, e, now);
      } else {
        OneIsAccepted(s, e, step.outcome, now, k);
        if e.RetireMember? {
          ApplyToRetirement(env, s, e, now);
          RetirementKeepsOwner(s, e, now, k);
        } else if e.PublishMember? {
          PublicationNamesOwner(env, s, e, now);
        } else {
          UpdatesKeepOwner(env, s, e, now);
        }
      }
    }
  }

  lemma OneIsAccepted(s: Core, e: Event, o: Outcome, now: i64, k: MemberKey)
    requires k in s.members && MayChange(s, e, o, now, k)
    requires !e.DeclareRack? && !e.RetireRack? && !IsFencing(e) && !e.RevalidateMembers?
    ensures o.Accepted?
    ensures e.RetireMember? || e.PublishMember? || e.PublishHealth? || e.PublishCapability? || e.WithdrawEvidence?
            || e.MarkUnavailable?
    ensures !e.RetireMember? ==> k == if e.PublishMember? then e.record.key else e.member
  {
  }

  /** Along a run a member stays with the process that owns it until an operator publishes it. */
  lemma {:induction false} OwnershipLasts(env: Env, s: Core, run: seq<Timed>, i: nat, j: nat, k: MemberKey, b: Text)
    requires Regular(s) && i <= j <= |run|
    requires k in At(env, s, run, i).members && At(env, s, run, i).members[k].ownerBoot == Some(b)
    requires forall m :: i <= m < j && run[m].event.PublishMember? && run[m].event.record.key == k ==>
               !(run[m].event.authority.boot.None? && StepAt(env, s, run, m).outcome.Accepted?)
    ensures k in At(env, s, run, j).members && At(env, s, run, j).members[k].ownerBoot == Some(b)
    decreases j - i
  {
    hide Regular, Apply;
    if i < j {
      RunIsRegular(env, s, run, i);
      StepMovesOwner(env, At(env, s, run, i), run[i].event, run[i].now, k);
      assert At(env, s, run, i + 1) == StepAt(env, s, run, i).state;
      OwnershipLasts(env, s, run, i + 1, j, k, b);
    }
  }

  /** Whatever other processes ask for along a run, short of a sweep, the member of one process stays as it is. */
  lemma {:induction false} IsolationLasts(env: Env, s: Core, run: seq<Timed>, i: nat, j: nat, k: MemberKey)
    requires Regular(s) && i <= j <= |run| && k in At(env, s, run, i).members
    requires forall m :: i <= m < j ==>
               && IsStranger(run[m].event, At(env, s, run, i).members[k].ownerBoot)
               && !IsSweeping(run[m].event, StepAt(env, s, run, m).outcome)
    ensures Stays(At(env, s, run, i), At(env, s, run, j), k)
    decreases j - i
  {
    hide Regular, Apply, IsStranger, IsSweeping;
    if i < j {
      RunIsRegular(env, s, run, i);
      MembersAreIsolated(env, At(env, s, run, i), run[i].event, run[i].now, k);
      assert At(env, s, run, i + 1) == StepAt(env, s, run, i).state;
      IsolationLasts(env, s, run, i + 1, j, k);
    }
  }

  /** A record stays as it is along a run as long as no request that may change it is made. */
  lemma {:induction false} RecordLasts(env: Env, s: Core, run: seq<Timed>, i: nat, j: nat, k: MemberKey)
    requires Regular(s) && i <= j <= |run| && k in At(env, s, run, i).members
    requires forall m :: i <= m < j ==>
               k in At(env, s, run, m).members ==>
                 !MayChange(At(env, s, run, m), run[m].event, StepAt(env, s, run, m).outcome, run[m].now, k)
    ensures Stays(At(env, s, run, i), At(env, s, run, j), k)
    decreases j - i
  {
    hide Regular, Apply, MayChange;
    if i < j {
      RunIsRegular(env, s, run, i);
      StepChangesMember(env, At(env, s, run, i), run[i].event, run[i].now, k);
      assert At(env, s, run, i + 1) == StepAt(env, s, run, i).state;
      RecordLasts(env, s, run, i + 1, j, k);
    }
  }
}
