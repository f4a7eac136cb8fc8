/** Accounts and leases: what every accepted publication costs, and how long a heartbeat protects a process. */
module Leases {
  import opened Wrappers
  import opened Evidence
  import opened Model
  import opened Machine
  import Facts = Progress
  import opened Structure
  import opened Runs
  import opened Effects
  import opened Contents
  import opened Envelopes
  import opened Processes
  import opened Declarations
  import opened Ownership

  // ----- Authority and leases -----

  /** Authority does not depend on when a process was last seen, nor on its lease. */
  lemma LeaseIsNotAsked(s: Core, boot: Text, seen: i64, lease: i64, token: AuthorityToken, rackScoped: bool)
    requires boot in s.publishers
    ensures var p := s.publishers[boot].(lastSeenAt := seen, leaseMillis := lease);
            CheckAuthority(s.(publishers := s.publishers[boot := p]), token, rackScoped) == CheckAuthority(s, token,
              rackScoped)
  {
  }

  // ----- Accounts -----

  lemma MemberPublicationsCount(env: Env, s: Core, e: Event, now: i64)
    requires Structured(s) && Apply(env, s, e, now).outcome.Accepted?
    requires e.PublishMember? || e.PublishHealth? || e.PublishCapability? || e.WithdrawEvidence? || e.MarkUnavailable?
             || e.RetireMember?
    ensures Counted(s, e.authority, Apply(env, s, e, now).state)
  {
    hide Structured, PublishMemberStep, HealthStep, CapabilityStep, WithdrawStep, MarkUnavailableStep, RetireMemberStep,
      OthersKept, Counted, AsStored, SameButEvidence, SameButHealth, Renumbered, Numbered, Forgets, Lists,
      Stamp.IsFreshAt, Retires, Unrelates;
    match e {
      case PublishMember(_, _, _, _) => MemberIsWhatWasPublished(s, env.limits, e, now);
      case PublishHealth(_, _, _, _, _, _) => HealthIsWhatWasPublished(s, e);
      case PublishCapability(_, _, _) => CapabilityIsWhatWasPublished(s, env.limits, e);
      case WithdrawEvidence(_, _, _) => WithdrawalForgets(s, e, now);
      case MarkUnavailable(_, _, _) => UnavailableIsWhatWasMarked(s, e, now);
      case RetireMember(_, _) => RetirementIsExact(s, e, now);
    }
  }

  lemma OtherPublicationsCount(env: Env, s: Core, e: Event, now: i64)
    requires Apply(env, s, e, now).outcome.Accepted?
    requires e.PublishRelationship? || e.WithdrawRelationship? || e.PublishFailureDomain? || e.PublishPower?
             || e.PublishCooling? || e.PublishSnapshot?
    ensures Counted(s, e.authority, Apply(env, s, e, now).state)
  {
    hide RelationshipStep, WithdrawRelationshipStep, DomainStep, PowerStep, CoolingStep, SnapshotStep, Counted, OwnedBy,
      Canonical, SameRelationship, IsHeadroom, InNameOrder, ZonesNamed, Describes, Retains;
    match e {
      case PublishRelationship(_, _, _) => RelationshipIsWhatWasPublished(s, env.limits, e);
      case WithdrawRelationship(_, _) => RelationshipIsWithdrawn(s, e);
      case PublishFailureDomain(_, _, _) => DomainIsWhatWasPublished(s, env.limits, e);
      case PublishPower(_, _, _) => PowerIsWhatWasPublished(env, s, e, now);
      case PublishCooling(_, _, _) => CoolingIsWhatWasPublished(env, s, e, now);
      case PublishSnapshot(_) => SnapshotIsExact(env, s, e, now);
    }
  }

  lemma RevalidationCounts(s: Core, e: Event)
    requires e.RevalidateMembers? && RevalidateStep(s, e).outcome.Accepted?
    ensures Counted(s, e.authority, RevalidateStep(s, e).state)
  {
    hide RevalidateStep, CheckAuthority, Confirms, EndsWith, Passed, Counted, Outstanding, OnlyMembersMoved;
    AcceptedIsGranted(s, e);
    RevalidationIsExact(s, e);
  }

  /** Every accepted publication moves the publication of the one process it came from, or else that of the operator. */
  lemma AcceptedIsCounted(env: Env, s: Core, e: Event, now: i64)
    requires Regular(s) && Facts.IsPublication(e) && !e.RetireRack? && Apply(env, s, e, now).outcome.Accepted?
    ensures Counted(s, e.authority, Apply(env, s, e, now).state)
  {
    hide Regular, Apply, Counted;
    RegularIsStructured(s);
    if e.RevalidateMembers? {
      ApplyToRevalidation(env, s, e, now);
      RevalidationCounts(s, e);
    } else if e.PublishMember? || e.PublishHealth? || e.PublishCapability? || e.WithdrawEvidence? || e.MarkUnavailable?
              || e.RetireMember? {
      MemberPublicationsCount(env, s, e, now);
    } else {
      OtherPublicationsCount(env, s, e, now);
    }
  }

  /** The requests whose refusal is held against the process, once its token was good. */
  predicate IsHeldAgainst(e: Event) {
    || e.PublishMember? || e.PublishHealth? || e.PublishCapability? || e.WithdrawEvidence? || e.MarkUnavailable?
    || e.RetireMember? || e.PublishRelationship? || e.WithdrawRelationship? || e.PublishFailureDomain? || e.PublishPower?
    || e.PublishCooling?
  }

  /** A refusal leaves a mark on the process that asked and no other trace; without authority it leaves none at all. */
  ghost predicate LeavesMark(s: Core, e: Event, t: Core)
    requires IsHeldAgainst(e)
  {
    if e.authority.boot.Some? && CheckAuthority(s, e.authority, true).Granted?
    then t == s.(publishers := t.publishers) && NotesRefusal(s, t, e.authority.boot.value)
    else t == s
  }

  lemma RefusedLeavesMark(s: Core, e: Event, o: Outcome)
    requires IsHeldAgainst(e) && CheckAuthority(s, e.authority, true).Granted?
    ensures LeavesMark(s, e, NoteRejection(s, CheckAuthority(s, e.authority, true).publisher))
  {
    hide CheckAuthority, NoteRejection, NotesRefusal;
    Facts.GrantMeans(s, e.authority, true);
    RefusalIsNoted(s, s, CheckAuthority(s, e.authority, true).publisher);
  }

  lemma RefusalIsCounted(env: Env, s: Core, e: Event, now: i64)
    requires IsHeldAgainst(e) && Apply(env, s, e, now).outcome.IsRejection()
    ensures LeavesMark(s, e, Apply(env, s, e, now).state)
  {
    hide CheckAuthority, NoteRejection, NotesRefusal, JudgeMember, CommitMember, JudgeHealth, JudgeCapability,
      JudgeWithdrawal, JudgeUnavailable, JudgeRetirement, AdvancePublication, Update, RetiredMember, Retirement,
      Machine.JudgeRelationship, CommitRelationship, JudgeRelationshipWithdrawal, WithoutRelationship, JudgeDomain,
      CommitDomain, JudgePower, CommitPower, JudgeCooling, CommitCooling, Canonical, UniqueParents, LeavesMark,
      NextHealth, NextCapabilities, Withdrawn, MadeUnavailable;
    if CheckAuthority(s, e.authority, true).Granted? {
      RefusedLeavesMark(s, e, Apply(env, s, e, now).outcome);
    } else {
      DeniedLeavesNone(s, e);
    }
  }

  lemma DeniedLeavesNone(s: Core, e: Event)
    requires IsHeldAgainst(e) && !CheckAuthority(s, e.authority, true).Granted?
    ensures LeavesMark(s, e, s)
  {
    hide CheckAuthority;
  }

  // ----- Last seen -----

  /** The process is known, was last seen at that time or now, and its lease is what it was. */
  ghost predicate IsSeen(s: Core, t: Core, now: i64, b: Text) {
    && b in s.publishers && b in t.publishers
    && t.publishers[b].leaseMillis == s.publishers[b].leaseMillis
    && (t.publishers[b].lastSeenAt == s.publishers[b].lastSeenAt || t.publishers[b].lastSeenAt == now)
  }

  lemma CountedIsSeen(s: Core, token: AuthorityToken, t: Core, now: i64, b: Text)
    requires Counted(s, token, t) && b in s.publishers
    ensures IsSeen(s, t, now, b)
  {
  }

  lemma SameIsSeen(s: Core, t: Core, now: i64, b: Text)
    requires t.publishers == s.publishers && b in s.publishers
    ensures IsSeen(s, t, now, b)
  {
  }

  lemma NotedIsSeen(s: Core, t: Core, boot: Text, now: i64, b: Text)
    requires NotesRefusal(s, t, boot) && b in s.publishers
    ensures IsSeen(s, t, now, b)
  {
  }

  lemma RefusalIsSeen(s: Core, e: Event, step: Step, now: i64, b: Text)
    requires Facts.Sound(s, e, step) && !step.outcome.Accepted? && !e.RevalidateMembers? && !e.RegisterPublisher?
    requires b in s.publishers
    ensures IsSeen(s, step.state, now, b)
  {
    hide Facts.Grows, Facts.Tracks, Facts.Authorized, Facts.OnlyMembersChanged, Facts.RackAligned, NoteRejection, IsSeen;
    if step.outcome.IsRejection() && step.state != s {
      var boot :| boot in s.publishers && step.state == NoteRejection(s, Some(boot));
      RefusalIsNoted(s, s, Some(boot));
      NotedIsSeen(s, step.state, boot, now, b);
    } else {
      SameIsSeen(s, step.state, now, b);
    }
  }

  lemma RevalidationIsSeen(s: Core, e: Event, now: i64, b: Text)
    requires e.RevalidateMembers? && b in s.publishers
    ensures IsSeen(s, RevalidateStep(s, e).state, now, b)
  {
    hide RevalidateStep, CheckAuthority, Confirms, EndsWith, Passed, Counted, Outstanding, OnlyMembersMoved,
      NotesRefusal,
      IsSeen;
    var t := RevalidateStep(s, e).state;
    if CheckAuthority(s, e.authority, true).Granted? {
      RevalidationIsExact(s, e);
      if RevalidateStep(s, e).outcome.Accepted? {
        CountedIsSeen(s, e.authority, t, now, b);
      } else if t.publishers == s.publishers {
        SameIsSeen(s, t, now, b);
      } else {
        NotedIsSeen(s, t, e.authority.boot.value, now, b);
      }
    } else {
      DeniedRevalidation(s, e);
      SameIsSeen(s, t, now, b);
    }
  }

  lemma RackRequestsAreSeen(s: Core, e: Event, now: i64, b: Text)
    requires (e.DeclareRack? || e.RetireRack?) && b in s.publishers
    ensures IsSeen(s, if e.DeclareRack? then Declare(s, e, now).state else RetireRackStep(s, e, now).state, now, b)
  {
    hide Declare, RetireRackStep, Banned;
    if e.DeclareRack? {
      DeclarationIsExact(s, e, now);
    } else {
      RackRetirementIsExact(s, e, now);
    }
  }

  lemma FencedAreSeen(env: Env, s: Core, e: Event, now: i64, b: Text)
    requires IsFencing(e) && b in s.publishers
    ensures IsSeen(s, Apply(env, s, e, now).state, now, b)
  {
    hide FenceEach, FenceBoot, Recorded, OrphanedMembers, OrphanedTopology, OrphanedEnvelopes, Elsewhere, HasLapsed,
      Expired;
    if e.ExpirePublishers? {
      ExpiryIsExact(env, s, now);
    } else if FenceStep(s, e.epoch, e.boot, e.reason, now).outcome.Accepted? {
      FencingIsExact(s, e, now);
    }
  }

  lemma CallsAreSeen(env: Env, s: Core, e: Event, now: i64, b: Text)
    requires (e.RegisterPublisher? || e.Heartbeat?) && b in s.publishers
    ensures IsSeen(s, Apply(env, s, e, now).state, now, b)
  {
    hide Register, HeartbeatStep;
    if e.RegisterPublisher? {
      RegistrationIsExact(s, env.limits, e, now);
    } else {
      HeartbeatIsExact(s, e, now);
    }
  }

  /** No request makes a process seem to have been seen at another time than it was, or changes its lease. */
  lemma StepIsSeen(env: Env, s: Core, e: Event, now: i64, b: Text)
    requires Regular(s) && b in s.publishers
    ensures IsSeen(s, Apply(env, s, e, now).state, now, b)
  {
    hide Regular, Apply, Counted, IsSeen, Facts.Sound, Facts.KeysMatch, Facts.RackAligned;
    var step := Apply(env, s, e, now);
    RegularKeys(s);
    if e.RegisterPublisher? || e.Heartbeat? {
      CallsAreSeen(env, s, e, now, b);
    } else if IsFencing(e) {
      FencedAreSeen(env, s, e, now, b);
    } else if e.DeclareRack? || e.RetireRack? {
      ApplyToRack(env, s, e, now);
      RackRequestsAreSeen(s, e, now, b);
    } else if e.RevalidateMembers? {
      ApplyToRevalidation(env, s, e, now);
      RevalidationIsSeen(s, e, now, b);
    } else if step.outcome.Accepted? {
      AcceptedIsCounted(env, s, e, now);
      CountedIsSeen(s, e.authority, step.state, now, b);
    } else {
      Facts.StepIsSound(env, s, e, now);
      RefusalIsSeen(s, e, step, now, b);
    }
  }

  /** With a clock that does not fall below the time a process was seen, it stays seen at that time or later. */
  lemma {:induction false} SeenSince(env: Env, s: Core, run: seq<Timed>, i: nat, j: nat, b: Text, since: i64)
    requires Regular(s) && i <= j <= |run|
    requires b in At(env, s, run, i).publishers && since <= At(env, s, run, i).publishers[b].lastSeenAt
    requires forall m :: i <= m < j ==> since <= run[m].now
    ensures b in At(env, s, run, j).publishers && since <= At(env, s, run, j).publishers[b].lastSeenAt
    ensures At(env, s, run, j).publishers[b].leaseMillis == At(env, s, run, i).publishers[b].leaseMillis
    decreases j - i
  {
    hide Regular, Apply;
    if i < j {
      RunIsRegular(env, s, run, i);
      StepIsSeen(env, At(env, s, run, i), run[i].event, run[i].now, b);
      assert At(env, s, run, i + 1) == StepAt(env, s, run, i).state;
      SeenSince(env, s, run, i + 1, j, b, since);
    }
  }

  /** A process that was heard of within its lease is not touched by an expiry, however the run went in between. */
  lemma HeartbeatProtects(env: Env, s: Core, run: seq<Timed>, i: nat, j: nat, b: Text)
    requires Regular(s) && i < j < |run|
    requires run[i].event.Heartbeat? && run[i].event.authority.boot == Some(b)
        && StepAt(env, s, run, i).outcome.Accepted?
    requires run[j].event.ExpirePublishers? && b in At(env, s, run, j).publishers
    requires run[j].now <= run[i].now + At(env, s, run, j).publishers[b].leaseMillis
    requires forall m :: i < m < j ==> run[i].now <= run[m].now
    ensures var t, u := At(env, s, run, j), At(env, s, run, j + 1);
            && b in u.publishers && u.publishers[b] == t.publishers[b]
            && (b in u.fencedBoots <==> b in t.fencedBoots)
            && forall k :: k in t.members && t.members[k].ownerBoot == Some(b) ==> Stays(t, u, k)
  {
    hide Regular, Apply, AreFenced;
    HeartbeatSees(env, s, run, i, b);
    SeenSince(env, s, run, i + 1, j, b, run[i].now);
    var t, u := At(env, s, run, j), At(env, s, run, j + 1);
    assert u == StepAt(env, s, run, j).state;
    var lapsed := (set x | x in t.publishers && HasLapsed(t.publishers[x], run[j].now));
    ExpiryIsExact(env, t, run[j].now);
    assert b !in lapsed;
    LeftAlone(t, u, lapsed, OwnerProcessLost, run[j].now, b);
  }

  lemma HeartbeatSees(env: Env, s: Core, run: seq<Timed>, i: nat, b: Text)
    requires i < |run| && run[i].event.Heartbeat? && run[i].event.authority.boot == Some(b)
    requires StepAt(env, s, run, i).outcome.Accepted?
    ensures b in At(env, s, run, i + 1).publishers && At(env, s, run, i + 1).publishers[b].lastSeenAt == run[i].now
  {
    hide HeartbeatStep;
    HeartbeatIsExact(At(env, s, run, i), run[i].event, run[i].now);
    assert At(env, s, run, i + 1) == StepAt(env, s, run, i).state;
  }

  lemma LeftAlone(s: Core, t: Core, boots: set<Text>, reason: RevalidationReason, now: i64, b: Text)
    requires AreFenced(s, t, boots, reason, now) && b in s.publishers && b !in boots
    ensures b in t.publishers && t.publishers[b] == s.publishers[b] && (b in t.fencedBoots <==> b in s.fencedBoots)
    ensures forall k :: k in s.members && s.members[k].ownerBoot == Some(b) ==> Stays(s, t, k)
  {
    hide OrphanedTopology, OrphanedEnvelopes, Elsewhere, OrphanedMember;
  }
}
