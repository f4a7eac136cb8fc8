/** Parent edges and CONTAINS edges together: which requests close a cycle that takes both kinds. */
module Unions {
  import opened Wrappers
  import opened Evidence
  import opened Model
  import opened Graph
  import opened RackReadiness
  import opened Machine
  import opened Structure
  import Facts = Progress
  import Runs

  /** From every member to the parent it names and to whatever contains it. */
  ghost function UnionGraph(s: Core): Edges<MemberKey> {
    ParentGraph(s.members) + ContainsGraph(s.relationships)
  }

  /** The request adds an edge to a node that already reaches its start by edges of both kinds. */
  ghost predicate ClosesUnion(s: Core, e: Event) {
    || (e.PublishMember? && e.record.parent.Some? && Reaches(UnionGraph(s), e.record.parent.value, e.record.key))
    || (e.PublishRelationship? && e.relationship.key.cls.Contains?
        && Reaches(UnionGraph(s), e.relationship.key.from, e.relationship.key.to))
  }

  // ----- The two requests that add an edge -----

  lemma UnionEdges(s: Core, a: MemberKey, b: MemberKey)
    ensures (a, b) in UnionGraph(s) <==>
              || (a in s.members && s.members[a].parent == Some(b))
              || RelationshipKey(Contains, b, a) in s.relationships
  {
    ParentEdges(s.members, a, b);
    ContainsEdges(s.relationships, a, b);
    hide ParentGraph, ContainsGraph;
  }

  lemma ContainsEdges(relationships: map<RelationshipKey, RelationshipRecord>, a: MemberKey, b: MemberKey)
    ensures (a, b) in ContainsGraph(relationships) <==> RelationshipKey(Contains, b, a) in relationships
  {
    var k := RelationshipKey(Contains, b, a);
    if k in relationships {
      assert (k.to, k.from) in ContainsGraph(relationships);
    }
    if (a, b) in ContainsGraph(relationships) {
      var i :| i in relationships && i.cls.Contains? && (i.to, i.from) == (a, b);
      assert i == k;
    }
  }

  lemma ParentUnionIff(s: Core, r: MemberRecord)
    requires Acyclic(UnionGraph(s))
    ensures Acyclic(UnionGraph(PutMember(s, r))) <==>
              (r.parent.Some? ==> !Reaches(UnionGraph(s), r.parent.value, r.key))
  {
    var g, t := UnionGraph(s), PutMember(s, r);
    var h := UnionGraph(t);
    var containers := set e | e in g && e.0 == r.key && RelationshipKey(Contains, e.1, r.key) in s.relationships :: e.1;
    var targets := containers + if r.parent.Some? then {r.parent.value} else {};
    hide UnionGraph;
    forall a, b
      ensures (a, b) in h <==> if a == r.key then b in targets else (a, b) in g
    {
      UnionEdges(s, a, b);
      UnionEdges(t, a, b);
      assert RelationshipKey(Contains, b, r.key) in s.relationships && a == r.key ==> (a, b) in g && b in containers;
    }
    hide Acyclic, Reaches;
    RewiredCyclicIff(g, r.key, targets, h);
    forall c | c in containers
      ensures !Reaches(g, c, r.key)
    {
      NoReturn(g, r.key, c);
    }
    if r.parent.Some? {
      assert r.parent.value in targets;
    }
  }

  lemma ContainsUnionIff(s: Core, t: Core, r: RelationshipRecord)
    requires Acyclic(UnionGraph(s)) && r.key.cls.Contains?
    requires t.members == s.members && t.relationships == s.relationships[r.key := r]
    ensures Acyclic(UnionGraph(t)) <==> !Reaches(UnionGraph(s), r.key.from, r.key.to)
  {
    var g, h := UnionGraph(s), UnionGraph(t);
    var before := set e | e in g && e.0 == r.key.to :: e.1;
    var targets := before + {r.key.from};
    hide UnionGraph;
    forall a, b
      ensures (a, b) in h <==> if a == r.key.to then b in targets else (a, b) in g
    {
      UnionEdges(s, a, b);
      UnionEdges(t, a, b);
      assert (a, b) in g && a == r.key.to ==> b in before;
    }
    hide Acyclic, Reaches;
    RewiredCyclicIff(g, r.key.to, targets, h);
    forall c | c in before
      ensures !Reaches(g, c, r.key.to)
    {
      NoReturn(g, r.key.to, c);
    }
    assert r.key.from in targets;
  }

  // ----- All requests -----

  /** No edge of either kind is new. */
  ghost predicate Lighter(s: Core, t: Core) {
    MembersShrunk(s.members, t.members) && RelationshipsShrunk(s.relationships, t.relationships)
  }

  lemma LighterIsAcyclic(s: Core, t: Core)
    requires Acyclic(UnionGraph(s)) && Lighter(s, t)
    ensures Acyclic(UnionGraph(t))
  {
    assert UnionGraph(t) <= UnionGraph(s);
    SubgraphAcyclic(UnionGraph(s), UnionGraph(t));
  }

  lemma SameEdges(s: Core, t: Core)
    requires t.members == s.members && t.relationships == s.relationships
    ensures UnionGraph(t) == UnionGraph(s)
  {
  }

  lemma ShrunkIsLighter(s: Core, t: Core)
    requires Shrunk(s, t)
    ensures Lighter(s, t)
  {
    hide MembersShrunk, RelationshipsShrunk, DomainsKept;
  }

  lemma SameIsLighter(s: Core, t: Core)
    requires t.members == s.members && t.relationships == s.relationships && forall k :: k in s.members ==> s.members[k].key == k
    ensures Lighter(s, t)
  {
  }

  lemma EndingsKeepUnion(s: Core, publisher: Option<Text>)
    ensures UnionGraph(AdvancePublication(s, publisher)) == UnionGraph(s)
    ensures UnionGraph(NoteRejection(s, publisher)) == UnionGraph(s)
  {
    AdvanceKeepsRecords(s, publisher);
    NoteKeepsRecords(s, publisher);
    SameEdges(s, AdvancePublication(s, publisher));
    SameEdges(s, NoteRejection(s, publisher));
  }

  /** After the step the union is acyclic unless the request was accepted and closes it. */
  ghost predicate UnionIff(s: Core, e: Event, step: Step) {
    Acyclic(UnionGraph(step.state)) <==> !(step.outcome.Accepted? && ClosesUnion(s, e))
  }

  lemma ConcludedUnion(s: Core, e: Event, publisher: Option<Text>, o: Outcome, u: Core)
    requires Acyclic(UnionGraph(s))
    requires o.Accepted? ==> (Acyclic(UnionGraph(u)) <==> !ClosesUnion(s, e))
    ensures UnionIff(s, e, Conclude(s, publisher, o, AdvancePublication(u, publisher)))
  {
    hide UnionGraph, Acyclic, ClosesUnion, AdvancePublication, NoteRejection;
    EndingsKeepUnion(s, publisher);
    EndingsKeepUnion(u, publisher);
  }

  lemma LighterConcluded(s: Core, e: Event, publisher: Option<Text>, o: Outcome, u: Core)
    requires Acyclic(UnionGraph(s)) && !ClosesUnion(s, e) && Shrunk(s, u)
    ensures UnionIff(s, e, Conclude(s, publisher, o, AdvancePublication(u, publisher)))
  {
    hide UnionGraph, Acyclic, ClosesUnion, AdvancePublication, NoteRejection, Shrunk, Lighter, Conclude;
    ShrunkIsLighter(s, u);
    LighterIsAcyclic(s, u);
    ConcludedUnion(s, e, publisher, o, u);
  }

  lemma DeniedUnion(s: Core, e: Event, t: Core, o: Outcome)
    requires Acyclic(UnionGraph(s)) && !o.Accepted? && t.members == s.members && t.relationships == s.relationships
    ensures UnionIff(s, e, Step(t, o))
  {
    hide Acyclic, ClosesUnion;
    SameEdges(s, t);
  }

  lemma PublishMemberUnion(s: Core, limits: Limits, e: Event)
    requires e.PublishMember? && Acyclic(UnionGraph(s))
    ensures UnionIff(s, e, PublishMemberStep(s, limits, e))
  {
    hide UnionIff, UnionGraph, Acyclic, CheckAuthority, JudgeMember, Conclude, AdvancePublication, Committed, Reaches;
    Facts.GrantMeans(s, e.authority, true);
    var a := CheckAuthority(s, e.authority, true);
    if a.Granted? {
      var target := TargetGeneration(PreviousGeneration(s, e.record.key), e.record.generation);
      var r := Committed(s, e.authority, a.publisher, Normalized(e.record), target);
      var u := PutMember(s, r);
      var g := u.generations;
      var v := u.(generations := g.(membership := Advance(g.membership), health := FirstIfUnset(g.health),
                                    capabilities := FirstIfUnset(g.capabilities)));
      CommittedParent(s, e.authority, a.publisher, e.record, target);
      ParentUnionIff(s, r);
      SameEdges(u, v);
      ConcludedUnion(s, e, a.publisher, JudgeMember(s, limits, e), v);
    } else {
      DeniedUnion(s, e, s, a.outcome);
    }
  }

  lemma CommittedParent(s: Core, token: AuthorityToken, publisher: Option<Text>, r: MemberRecord, target: u64)
    ensures var c := Committed(s, token, publisher, Normalized(r), target); c.key == r.key && c.parent == r.parent
  {
  }

  lemma RelationshipUnion(s: Core, limits: Limits, e: Event)
    requires e.PublishRelationship? && Acyclic(UnionGraph(s))
    ensures UnionIff(s, e, RelationshipStep(s, limits, e))
  {
    hide UnionIff, UnionGraph, Acyclic, CheckAuthority, JudgeRelationship, Conclude, AdvancePublication, Reaches,
      OwnerOf, WorkerOf;
    Facts.GrantMeans(s, e.authority, true);
    var a := CheckAuthority(s, e.authority, true);
    if a.Granted? {
      var r := e.relationship.(key := Canonical(e.relationship.key));
      var c := r.(generation := Advance(s.generations.topology), ownerBoot := OwnerOf(e.authority.boot, r.ownerBoot),
                  ownerWorker := WorkerOf(s, a.publisher, r.ownerWorker));
      var u := s.(relationships := s.relationships[r.key := c],
                  generations := s.generations.(topology := Advance(s.generations.topology)));
      if r.key.cls.Contains? {
        ContainsUnionIff(s, u, c);
      } else {
        OtherClassesAddNoEdge(s, u, c);
      }
      ConcludedUnion(s, e, a.publisher, JudgeRelationship(s, limits, e, r), u);
    } else {
      DeniedUnion(s, e, s, a.outcome);
    }
  }

  lemma OtherClassesAddNoEdge(s: Core, t: Core, r: RelationshipRecord)
    requires !r.key.cls.Contains? && t.members == s.members && t.relationships == s.relationships[r.key := r]
    ensures UnionGraph(t) == UnionGraph(s)
  {
    forall a, b
      ensures (a, b) in UnionGraph(t) <==> (a, b) in UnionGraph(s)
    {
      UnionEdges(s, a, b);
      UnionEdges(t, a, b);
    }
  }

  lemma UpdatesUnion(s: Core, limits: Limits, e: Event)
    requires Structured(s) && Acyclic(UnionGraph(s))
    ensures e.PublishHealth? ==> UnionIff(s, e, HealthStep(s, e))
    ensures e.PublishCapability? ==> UnionIff(s, e, CapabilityStep(s, limits, e))
    ensures e.WithdrawEvidence? ==> UnionIff(s, e, WithdrawStep(s, e))
    ensures e.MarkUnavailable? ==> UnionIff(s, e, MarkUnavailableStep(s, e))
  {
    hide Structured, UnionIff, UnionGraph, Acyclic, CheckAuthority, Conclude, AdvancePublication, NoteRejection, Update,
      JudgeHealth, JudgeCapability, JudgeWithdrawal, JudgeUnavailable, Shrunk, WithCapability, Reaches;
    if e.PublishHealth? || e.PublishCapability? || e.WithdrawEvidence? || e.MarkUnavailable? {
      Facts.GrantMeans(s, e.authority, true);
      var a := CheckAuthority(s, e.authority, true);
      Runs.MemberKeyMatches(s, e.member);
      if a.Denied? {
        DeniedUnion(s, e, s, a.outcome);
      } else if e.member !in s.members {
        NoteKeepsRecords(s, a.publisher);
        DeniedUnion(s, e, NoteRejection(s, a.publisher), RejectUnknownMember);
      } else {
        var r := s.members[e.member];
        var stamped := if e.MarkUnavailable? then None else a.publisher;
        var next := if e.PublishHealth? then NextHealth(r, e) else if e.PublishCapability? then NextCapabilities(r, e)
                    else if e.WithdrawEvidence? then Withdrawn(r, e.scope) else MadeUnavailable(r, e.reason);
        var o := if e.PublishHealth? then JudgeHealth(r, e)
                 else if e.PublishCapability? then JudgeCapability(r, limits, e)
                 else if e.WithdrawEvidence? then JudgeWithdrawal(r, e) else JudgeUnavailable(r, e);
        var u := Update(s, stamped, next);
        var v := if e.PublishHealth? then AdvanceHealth(u) else if e.PublishCapability? then AdvanceCapabilities(u)
                 else AdvanceMembership(u);
        assert v == u.(generations := v.generations);
        UpdateShrinks(s, stamped, next, v);
        LighterConcluded(s, e, a.publisher, o, v);
      }
    }
  }

  lemma RetirementUnion(s: Core, e: Event)
    requires e.RetireMember? && Acyclic(UnionGraph(s))
    ensures UnionIff(s, e, RetireMemberStep(s, e))
  {
    hide UnionIff, UnionGraph, Acyclic, CheckAuthority, Conclude, AdvancePublication, NoteRejection, Shrunk,
      RetiredMember, Retirement, JudgeRetirement;
    Facts.GrantMeans(s, e.authority, true);
    var a := CheckAuthority(s, e.authority, true);
    if a.Denied? {
      DeniedUnion(s, e, s, a.outcome);
    } else if e.member !in s.members {
      NoteKeepsRecords(s, a.publisher);
      DeniedUnion(s, e, NoteRejection(s, a.publisher), RejectUnknownMember);
    } else {
      RetiredMemberShrinks(s, e.member);
      LighterConcluded(s, e, a.publisher, JudgeRetirement(s.members[e.member]),
                       RetiredMember(s, e.member, Retirement(s.members[e.member])));
    }
  }

  lemma WithdrawalUnion(s: Core, e: Event)
    requires e.WithdrawRelationship? && Structured(s) && Acyclic(UnionGraph(s))
    ensures UnionIff(s, e, WithdrawRelationshipStep(s, e))
  {
    hide UnionIff, UnionGraph, Acyclic, CheckAuthority, Conclude, AdvancePublication, Shrunk, Canonical,
      JudgeRelationshipWithdrawal;
    Facts.GrantMeans(s, e.authority, true);
    var a := CheckAuthority(s, e.authority, true);
    if a.Denied? {
      DeniedUnion(s, e, s, a.outcome);
    } else {
      var u := WithoutRelationship(s, Canonical(e.key));
      assert Shrunk(s, u) by {
        WithdrawalShrinks(s, Canonical(e.key));
      }
      LighterConcluded(s, e, a.publisher, JudgeRelationshipWithdrawal(s, e), u);
    }
  }

  lemma WithdrawalShrinks(s: Core, k: RelationshipKey)
    requires Structured(s)
    ensures Shrunk(s, WithoutRelationship(s, k))
  {
    hide Acyclic, Canonical;
  }

  lemma DeclarationIsLighter(s: Core, e: Event, now: i64)
    requires Structured(s) && e.DeclareRack?
    ensures Lighter(s, Declare(s, e, now).state)
  {
    hide Structured, CheckAuthority, Redeclared, IsIdentity, IsLabel, Shrunk, Lighter;
    StructuredKeys(s);
    var t := Declare(s, e, now).state;
    if s.rack.Some? && s.rack.value.generation < U64_MAX && e.rackEpoch.Some? {
      var u := Redeclared(s, e.rackEpoch.value, e.labelText, s.rack.value.generation + 1, now);
      RedeclaredShrinks(s, e.rackEpoch.value, e.labelText, s.rack.value.generation + 1, now);
      ShrunkIsLighter(s, u);
      assert t == u || t == s;
      SameIsLighter(s, s);
    } else {
      SameIsLighter(s, t);
    }
  }

  lemma RackRetirementIsLighter(s: Core, e: Event, now: i64)
    requires Structured(s) && e.RetireRack?
    ensures Lighter(s, RetireRackStep(s, e, now).state)
  {
    hide Structured, CheckAuthority, AdvancePublication, RetiredRack, Shrunk, Lighter;
    StructuredKeys(s);
    SameIsLighter(s, s);
    var a := CheckAuthority(s, e.authority, true);
    if s.rack.Some? && s.rack.value.generation < U64_MAX && a.Granted? {
      var u := RetiredRack(s, s.rack.value.generation + 1, now);
      RetiredRackShrinks(s, s.rack.value.generation + 1, now);
      ShrunkIsLighter(s, u);
      AdvanceKeepsRecords(u, a.publisher);
      SameRecordsLighter(s, u, AdvancePublication(u, a.publisher));
    }
  }

  lemma RevalidationIsLighter(s: Core, e: Event)
    requires Structured(s) && e.RevalidateMembers?
    ensures Lighter(s, RevalidateStep(s, e).state)
  {
    hide Structured, CheckAuthority, AdvancePublication, NoteRejection, RevalidateEach, Outstanding, MembersShrunk,
      Lighter;
    StructuredKeys(s);
    SameIsLighter(s, s);
    var a := CheckAuthority(s, e.authority, true);
    if a.Granted? {
      var targets := if e.all then Outstanding(s.members) else e.members;
      var u := s.(members := RevalidateEach(s.members, targets, e.authority, false).members);
      RevalidateEachShrinks(s.members, targets, e.authority, false);
      RevalidatedIsLighter(s, u);
      NoteKeepsRecords(u, a.publisher);
      AdvanceKeepsRecords(AdvanceMembership(u), a.publisher);
      SameRecordsLighter(s, u, NoteRejection(u, a.publisher));
      SameRecordsLighter(s, u, AdvancePublication(AdvanceMembership(u), a.publisher));
    }
  }

  lemma StructuredKeys(s: Core)
    requires Structured(s)
    ensures forall k :: k in s.members ==> s.members[k].key == k
  {
    hide Acyclic;
  }

  lemma RevalidatedIsLighter(s: Core, u: Core)
    requires MembersShrunk(s.members, u.members) && u.relationships == s.relationships
    ensures Lighter(s, u)
  {
    hide MembersShrunk;
  }

  lemma SameRecordsLighter(s: Core, u: Core, t: Core)
    requires Lighter(s, u) && t.members == u.members && t.relationships == u.relationships
    ensures Lighter(s, t)
  {
    hide MembersShrunk, RelationshipsShrunk;
  }

  lemma FenceUnion(s: Core, epoch: u64, boot: Option<Text>, reason: RevalidationReason, now: i64)
    requires Acyclic(UnionGraph(s))
    ensures Acyclic(UnionGraph(FenceStep(s, epoch, boot, reason, now).state))
  {
    hide Acyclic, UnionGraph, FenceBoot, Shrunk, Lighter;
    if boot.Some? && boot.value in s.publishers {
      FenceBootShrinks(s, boot.value, reason, now);
      ShrunkIsLighter(s, FenceBoot(s, boot.value, reason, now));
      LighterIsAcyclic(s, FenceBoot(s, boot.value, reason, now));
    }
  }

  lemma {:induction false} FenceEachUnion(s: Core, boots: seq<Text>, now: i64)
    requires Acyclic(UnionGraph(s))
    ensures Acyclic(UnionGraph(FenceEach(s, boots, now).state))
    decreases |boots|
  {
    hide Acyclic, UnionGraph, FenceStep;
    if boots != [] {
      FenceUnion(s, s.generations.coordinatorEpoch, Some(boots[0]), OwnerProcessLost, now);
      FenceEachUnion(FenceStep(s, s.generations.coordinatorEpoch, Some(boots[0]), OwnerProcessLost, now).state,
                     boots[1..], now);
    }
  }

  lemma ConcludeKeepsRelationships(s: Core, publisher: Option<Text>, o: Outcome, t: Core)
    requires t.relationships == s.relationships
    ensures Conclude(s, publisher, o, t).state.relationships == s.relationships
  {
  }

  lemma CommitsKeep(env: Env, s: Core, token: AuthorityToken, publisher: Option<Text>, now: i64)
    ensures forall d :: CommitDomain(s, token, publisher, d).relationships == s.relationships
    ensures forall p :: CommitPower(env, s, token, publisher, p, now).relationships == s.relationships
    ensures forall c :: CommitCooling(env, s, token, publisher, c, now).relationships == s.relationships
  {
    hide DerivedPower, DerivedCooling, SortZones, OwnerOf, WorkerOf;
  }

  lemma CommitsKeepRelationships(env: Env, s: Core, e: Event, now: i64)
    ensures e.PublishFailureDomain? ==> DomainStep(s, env.limits, e).state.relationships == s.relationships
    ensures e.PublishPower? ==> PowerStep(env, s, e, now).state.relationships == s.relationships
    ensures e.PublishCooling? ==> CoolingStep(env, s, e, now).state.relationships == s.relationships
  {
    hide CheckAuthority, JudgeDomain, JudgePower, JudgeCooling, UniqueParents, Conclude, CommitDomain, CommitPower,
      CommitCooling;
    if e.PublishFailureDomain? || e.PublishPower? || e.PublishCooling? {
      var a := CheckAuthority(s, e.authority, true);
      if a.Granted? {
        CommitsKeep(env, s, e.authority, a.publisher, now);
        forall o, t: Core | t.relationships == s.relationships {
          ConcludeKeepsRelationships(s, a.publisher, o, t);
        }
      }
    }
  }

  lemma OthersKeepRelationships(env: Env, s: Core, e: Event, now: i64)
    ensures e.RegisterPublisher? ==> Register(s, env.limits, e, now).state.relationships == s.relationships
    ensures e.Heartbeat? ==> HeartbeatStep(s, e, now).state.relationships == s.relationships
    ensures e.PublishSnapshot? ==> SnapshotStep(env, s, e, now).state.relationships == s.relationships
  {
    hide CheckPublisher, BuildSnapshot, Retain, SnapshotId, IsIdentity, IsLabel;
  }

  /** With the union acyclic before, a request makes it cyclic exactly when it is accepted and closes a cycle. */
  lemma StepKeepsUnionIff(env: Env, s: Core, e: Event, now: i64)
    requires Structured(s) && Acyclic(UnionGraph(s))
    ensures UnionIff(s, e, Apply(env, s, e, now))
  {
    hide Structured, UnionGraph, Acyclic, Lighter, Reaches, PublishMemberStep, RevalidateStep, RetireMemberStep,
      RetireRackStep, Declare, FenceStep, FenceEach, HealthStep, CapabilityStep, WithdrawStep, MarkUnavailableStep,
      Expired, Register, RelationshipStep, DomainStep, WithdrawRelationshipStep, PowerStep, CoolingStep, HeartbeatStep,
      SnapshotStep;
    var t := Apply(env, s, e, now).state;
    match e {
      case PublishMember(_, _, _, _) => PublishMemberUnion(s, env.limits, e);
      case PublishRelationship(_, _, _) => RelationshipUnion(s, env.limits, e);
      case PublishHealth(_, _, _, _, _, _) => UpdatesUnion(s, env.limits, e);
      case PublishCapability(_, _, _) => UpdatesUnion(s, env.limits, e);
      case WithdrawEvidence(_, _, _) => UpdatesUnion(s, env.limits, e);
      case MarkUnavailable(_, _, _) => UpdatesUnion(s, env.limits, e);
      case RetireMember(_, _) => RetirementUnion(s, e);
      case WithdrawRelationship(_, _) => WithdrawalUnion(s, e);
      case FencePublisher(epoch, boot, reason) => FenceUnion(s, epoch, boot, reason, now);
      case ExpirePublishers => FenceEachUnion(s, Expired(s, now), now);
      case DeclareRack(_, _, _, _) =>
        DeclarationIsLighter(s, e, now);
        LighterIsAcyclic(s, t);
      case RetireRack(_) =>
        RackRetirementIsLighter(s, e, now);
        LighterIsAcyclic(s, t);
      case RevalidateMembers(_, _, _) =>
        RevalidationIsLighter(s, e);
        LighterIsAcyclic(s, t);
      case _ =>
        Runs.CommittedStepsKeepMembers(env, s, e, now);
        Runs.OthersKeepMembers(env, s, e, now);
        CommitsKeepRelationships(env, s, e, now);
        OthersKeepRelationships(env, s, e, now);
        SameEdges(s, t);
    }
  }

  /** Along a run the union stays acyclic as long as no accepted request closes it. */
  lemma {:induction false} RunKeepsUnion(env: Env, s: Core, run: seq<Timed>, n: nat)
    requires Runs.Regular(s) && Acyclic(UnionGraph(s)) && n <= |run|
    requires forall i :: 0 <= i < n ==> !(StepAt(env, s, run, i).outcome.Accepted? && ClosesUnion(At(env, s, run, i), run[i].event))
    ensures Acyclic(UnionGraph(At(env, s, run, n)))
    decreases n
  {
    hide Runs.Regular, Structured, UnionGraph, Acyclic, Apply, ClosesUnion;
    if n > 0 {
      RunKeepsUnion(env, s, run, n - 1);
      Runs.RunIsRegular(env, s, run, n - 1);
      Runs.RegularIsStructured(At(env, s, run, n - 1));
      StepKeepsUnionIff(env, At(env, s, run, n - 1), run[n - 1].event, run[n - 1].now);
      assert At(env, s, run, n) == StepAt(env, s, run, n - 1).state;
    }
  }

  // ----- Such requests are accepted -----

  /**
   * Where `b` contains `a` by a relationship, whoever may change `b`, if its stored record is valid, can make `a` its
   * parent: the search that guards the request follows parents only.
   */
  lemma MemberMayCloseUnion(env: Env, s: Core, token: AuthorityToken, a: MemberKey, b: MemberKey, now: i64)
    requires Structured(s) && Acyclic(UnionGraph(s)) && CheckAuthority(s, token, true).Granted?
    requires a in s.members && b in s.members && a != b && RelationshipKey(Contains, b, a) in s.relationships
    requires !OwnerConflict(s.members[b].ownerBoot, token)
    requires !Reaches(ParentGraph(s.members), a, b) && s.members[b].parent != Some(a)
    requires !s.members[b].lifecycle.Retired? && s.members[b].generation < U64_MAX
    requires ValidMemberRecord(s.members[b], env.limits) && JudgeDomainReferences(s, s.members[b]).Accepted?
    ensures var step := Apply(env, s, PublishMember(token, s.members[b].(parent := Some(a), generation := 0), None, false),
                              now);
            step.outcome.Accepted? && !Acyclic(UnionGraph(step.state))
  {
    hide CheckAuthority, Acyclic, UnionGraph, Reaches, Structured, JudgeDomainReferences, ValidEvidence, IsIdentity,
      IsLabel, ValidCapability, DetailsMatchKind, CommitMember, ParentGraph;
    var r := s.members[b].(parent := Some(a), generation := 0);
    var e := PublishMember(token, r, None, false);
    Runs.MemberKeyMatches(s, b);
    DomainReferencesIgnoreParent(s, s.members[b], r);
    assert JudgeReplacement(s.members[b], e).Accepted?;
    assert JudgeMember(s, env.limits, e).Accepted?;
    UnionEdges(s, a, b);
    ReachesSelf(UnionGraph(s), a);
    ReachesEdge(UnionGraph(s), a, a, b);
    StepKeepsUnionIff(env, s, e, now);
  }

  lemma DomainReferencesIgnoreParent(s: Core, r: MemberRecord, q: MemberRecord)
    requires q == r.(parent := q.parent, generation := q.generation)
    ensures JudgeDomainReferences(s, q) == JudgeDomainReferences(s, r)
  {
  }

  /**
   * Where `low` names `mid` as its parent and `top` contains `mid`, whoever may publish can say that `low` contains `top`:
   * the two searches that guard the request follow one kind of edge each.
   */
  lemma ContainmentMayCloseUnion(
    env: Env, s: Core, token: AuthorityToken, low: MemberKey, mid: MemberKey, top: MemberKey, stamp: Stamp, now: i64)
    requires Structured(s) && Acyclic(UnionGraph(s)) && CheckAuthority(s, token, true).Granted? && ValidEvidence(stamp)
    requires low in s.members && top in s.members && s.members[low].parent == Some(mid)
    requires RelationshipKey(Contains, top, mid) in s.relationships
    requires RelationshipKey(Contains, low, top) !in s.relationships && low != top
    requires !Reaches(ParentGraph(s.members), low, top) && !Reaches(ContainsGraph(s.relationships), low, top)
    requires |s.relationships| < env.limits.maxRelationships && s.generations.topology < U64_MAX
    ensures var r := RelationshipRecord(RelationshipKey(Contains, low, top), stamp, 0, None, None, None, None, None);
            var step := Apply(env, s, PublishRelationship(token, r, None), now);
            step.outcome.Accepted? && !Acyclic(UnionGraph(step.state))
  {
    hide CheckAuthority, Acyclic, UnionGraph, Reaches, Structured, ValidEvidence, ParentGraph, ContainsGraph,
      CommitRelationship;
    var r := RelationshipRecord(RelationshipKey(Contains, low, top), stamp, 0, None, None, None, None, None);
    var e := PublishRelationship(token, r, None);
    assert JudgeRelationship(s, env.limits, e, r).Accepted?;
    UnionEdges(s, low, mid);
    UnionEdges(s, mid, top);
    ReachesSelf(UnionGraph(s), low);
    ReachesEdge(UnionGraph(s), low, low, mid);
    ReachesEdge(UnionGraph(s), low, mid, top);
    StepKeepsUnionIff(env, s, e, now);
  }
}
