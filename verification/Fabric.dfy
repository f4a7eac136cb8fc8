/** The coordinator: every mutation updates the records and indexes in place, and refines its step on values. */
module Fabric {
  import opened Wrappers
  import opened Evidence
  import opened Model
  import opened Ordering
  import opened Graph
  import opened Indexes
  import opened RackReadiness
  import opened Machine
  import opened Structure
  import opened State
  import opened Buckets
  import opened Evaluation
  import Facts = Progress

  /** Rewrites every value of a map in place. */
  method RewriteAll<K(==), V>(m: map<K, V>, f: V -> V) returns (n: map<K, V>)
    ensures n.Keys == m.Keys && forall k :: k in m ==> n[k] == f(m[k])
  {
    n := m;
    var rest := m.Keys;
    while rest != {}
      invariant rest <= m.Keys && n.Keys == m.Keys
      invariant forall k :: k in m ==> n[k] == if k in rest then m[k] else f(m[k])
      decreases rest
    {
      var k :| k in rest;
      n := n[k := f(n[k])];
      rest := rest - {k};
    }
  }

  /** Both records put the same entries into the indexes. */
  predicate SameReferences(r: MemberRecord, q: MemberRecord) {
    && q.powerDomain == r.powerDomain && q.coolingDomain == r.coolingDomain && q.ownerBoot == r.ownerBoot
    && q.parent == r.parent && q.failureDomains == r.failureDomains
  }

  lemma ReferencesSame(m: map<MemberKey, MemberRecord>, n: map<MemberKey, MemberRecord>)
    requires m.Keys == n.Keys && forall k :: k in m ==> SameReferences(m[k], n[k])
    ensures KindRefs(m) == KindRefs(n) && PowerRefs(m) == PowerRefs(n) && CoolingRefs(m) == CoolingRefs(n)
    ensures OwnerRefs(m) == OwnerRefs(n) && ParentRefs(m) == ParentRefs(n) && DomainRefs(m) == DomainRefs(n)
  {
  }

  function Untouched(relationships: map<RelationshipKey, RelationshipRecord>, member: MemberKey)
    : map<RelationshipKey, RelationshipRecord>
  {
    map k | k in relationships && !Touches(k, member) :: relationships[k]
  }

  lemma KeysOf(s: Core)
    requires Structured(s)
    ensures forall k :: k in s.members ==> s.members[k].key == k
    ensures forall k :: k in s.relationships ==> s.relationships[k].key == k
    ensures forall d :: d in s.failureDomains ==> s.failureDomains[d].id == d
    ensures Acyclic(ParentGraph(s.members)) && Acyclic(ContainsGraph(s.relationships))
    ensures Acyclic(DomainGraph(s.failureDomains))
  {
    hide Acyclic;
  }

  class RackFabric {
    const state: RackState
    const env: Env

    constructor (env: Env)
      ensures fresh(state) && this.env == env
      ensures state.Valid() && state.DomainIndexComplete() && state.HasExactBuckets() && state.Value() == INITIAL
    {
      this.env := env;
      state := new RackState();
    }

    method NoteRejection(publisher: Option<Text>)
      modifies state`publishers
      ensures state.Value() == Machine.NoteRejection(old(state.Value()), publisher)
    {
      if publisher.Some? && publisher.value in state.publishers {
        var p := state.publishers[publisher.value];
        state.publishers := state.publishers[publisher.value := p.(rejectedMutations := Bump(p.rejectedMutations))];
      }
    }

    method AdvancePublication(publisher: Option<Text>)
      modifies state`publishers, state`operatorPublication
      ensures state.Value() == Machine.AdvancePublication(old(state.Value()), publisher)
    {
      if publisher.None? {
        state.operatorPublication := Advance(state.operatorPublication);
      } else if publisher.value in state.publishers {
        var p := state.publishers[publisher.value];
        state.publishers := state.publishers[publisher.value := p.(
          publicationGeneration := Advance(p.publicationGeneration),
          state := PublisherState.Active,
          acceptedMutations := Bump(p.acceptedMutations))];
      }
    }

    /** Ends a request that is not committed. */
    method Refuse(publisher: Option<Text>, outcome: Outcome, ghost committed: Core)
      requires !outcome.Accepted?
      modifies state`publishers
      ensures Step(state.Value(), outcome) == Conclude(old(state.Value()), publisher, outcome, committed)
    {
      if !outcome.NoChange? {
        NoteRejection(publisher);
      }
    }

    // ----- Members -----

    method JudgeParentEdge(r: MemberRecord) returns (outcome: Outcome)
      requires state.Valid()
      ensures outcome == JudgeReferences(state.Value(), r)
    {
      hide Structured, Reaches, Acyclic, JudgeDomainReferences, RackState.Indexed, ParentGraph;
      KeysOf(state.Value());
      if r.parent.Some? {
        if r.parent.value == r.key {
          return RejectInvalidRelationship;
        }
        if r.parent.value !in state.members {
          return RejectUnknownParent;
        }
        var cyclic := state.ContainsCycle(r.parent.value, r.key);
        if cyclic {
          return RejectInvalidRelationship;
        }
      }
      outcome := JudgeDomainReferences(state.Value(), r);
    }

    method JudgePublication(e: Event) returns (outcome: Outcome)
      requires e.PublishMember? && state.Valid()
      ensures outcome == JudgeMember(state.Value(), env.limits, e)
    {
      hide ValidMemberRecord, JudgeReplacement, JudgeReferences, Structured, RackState.Indexed;
      var r := e.record;
      if !ValidMemberRecord(r, env.limits) {
        return RejectInvalidInput;
      }
      if r.ownerBoot.Some? && e.authority.boot.Some? && r.ownerBoot.value != e.authority.boot.value {
        return RejectNotAuthorized;
      }
      if r.key !in state.members && |state.members| >= env.limits.maxMembers {
        return RejectLimitExceeded;
      }
      if r.key in state.members {
        var judged := JudgeReplacement(state.members[r.key], e);
        if !judged.Accepted? {
          return judged;
        }
      }
      var references := JudgeParentEdge(Normalized(r));
      if !references.Accepted? {
        return references;
      }
      var previous := PreviousGeneration(state.Value(), r.key);
      outcome := if TargetGeneration(previous, r.generation) == previous then RejectLimitExceeded else Accepted;
    }

    method PublishMember(e: Event) returns (outcome: Outcome)
      requires e.PublishMember? && state.Valid()
      modifies state
      ensures state.Valid()
      ensures Step(state.Value(), outcome) == PublishMemberStep(old(state.Value()), env.limits, e)
      ensures old(state.DomainIndexComplete()) ==> state.DomainIndexComplete()
      ensures old(state.HasExactBuckets()) ==>
                (state.HasExactBuckets() <==>
                 !outcome.Accepted? || KeepsNames(old(state.members), e.record, old(state.failureDomains)))
      ensures Shifted(old(state.membersByFailureDomain), old(state.members), state.membersByFailureDomain, state.members,
                      if outcome.Accepted? then {e.record.key} else {}, {}, {})
      ensures state.failureDomains == old(state.failureDomains)
    {
      hide Structured, CheckAuthority, JudgeMember, Conclude, RackState.MembersIndexed, Agrees, DomainSound,
        DomainComplete, ExactBuckets, Shifted, DomainRefs, Machine.CommitMember;
      NothingShifts(state.membersByFailureDomain, state.members, state.members);
      ghost var s := state.Value();
      PublishMemberStructured(s, env.limits, e);
      KeysOf(s);
      var a := CheckAuthority(state.Value(), e.authority, true);
      if a.Denied? {
        Facts.GrantMeans(s, e.authority, true);
        return a.outcome;
      }
      outcome := JudgePublication(e);
      if outcome.Accepted? {
        CommitMember(e.record, e.authority, a.publisher);
      } else {
        Refuse(a.publisher, outcome, Machine.CommitMember(s, e.authority, a.publisher, e.record));
      }
      Concluded(s, a.publisher, outcome, Machine.CommitMember(s, e.authority, a.publisher, e.record));
    }

    method CommitMember(record: MemberRecord, token: AuthorityToken, publisher: Option<Text>)
      requires state.Indexed() && forall k :: k in state.members ==> state.members[k].key == k
      modifies state
      ensures state.Indexed()
      ensures state.Value() == Machine.CommitMember(old(state.Value()), token, publisher, record)
      ensures old(state.DomainIndexComplete()) ==> state.DomainIndexComplete()
      ensures old(state.HasExactBuckets()) ==>
                (state.HasExactBuckets() <==> KeepsNames(old(state.members), record, old(state.failureDomains)))
      ensures Shifted(old(state.membersByFailureDomain), old(state.members), state.membersByFailureDomain, state.members,
                      {record.key}, {}, {})
      ensures state.failureDomains == old(state.failureDomains)
    {
      hide RackState.MembersIndexed, Agrees, DomainSound, DomainComplete, ExactBuckets, Shifted, DomainRefs,
        Machine.AdvancePublication, Committed, TargetGeneration, Normalized, PreviousGeneration;
      var target := TargetGeneration(PreviousGeneration(state.Value(), record.key), record.generation);
      var r := Committed(state.Value(), token, publisher, Normalized(record), target);
      CommittedKey(state.Value(), token, publisher, record, target);
      NamesDependOnDomains(state.members, r, record, state.failureDomains);
      var g := state.generations;
      Replace(r, g.(membership := Advance(g.membership),
                    health := FirstIfUnset(g.health),
                    capabilities := FirstIfUnset(g.capabilities)));
      AdvancePublication(publisher);
    }

    /** Replaces one member with its index entries, and moves the generations. */
    method Replace(r: MemberRecord, generations: GenerationSet)
      requires state.Indexed() && (r.key in state.members ==> state.members[r.key].key == r.key)
      modifies state
      ensures state.Indexed()
      ensures state.Value() == PutMember(old(state.Value()), r).(generations := generations)
      ensures old(state.DomainIndexComplete()) ==> state.DomainIndexComplete()
      ensures old(state.HasExactBuckets()) ==>
                (state.HasExactBuckets() <==> KeepsNames(old(state.members), r, state.failureDomains))
      ensures Shifted(old(state.membersByFailureDomain), old(state.members), state.membersByFailureDomain, state.members,
                      {r.key}, {}, {})
    {
      hide RackState.MembersIndexed, Agrees, DomainSound, DomainComplete, ExactBuckets, Shifted, DomainRefs;
      state.generations := generations;
      state.PutMember(r);
    }

    // ----- Updates of one existing member -----

    /** Commits a changed record under the next generation. */
    method CommitUpdate(stamped: Option<Text>, r: MemberRecord, generations: GenerationSet, publisher: Option<Text>)
      requires state.Indexed() && r.key in state.members && state.members[r.key].key == r.key
      requires r.failureDomains == state.members[r.key].failureDomains
      modifies state
      ensures state.Indexed()
      ensures state.Value() == Machine.AdvancePublication(
                                 Update(old(state.Value()), stamped, r).(generations := generations), publisher)
      ensures state.Moved({r.key})
    {
      hide RackState.MembersIndexed, Agrees, DomainSound, DomainComplete, ExactBuckets, Shifted, DomainRefs,
        Machine.AdvancePublication;
      var next := StampPublication(state.Value(), stamped, r.(generation := Advance(r.generation)));
      SameNames(state.members, next);
      Replace(next, generations);
      AdvancePublication(publisher);
    }

    method PublishHealth(e: Event) returns (outcome: Outcome)
      requires e.PublishHealth? && state.Valid()
      modifies state
      ensures state.Valid()
      ensures Step(state.Value(), outcome) == HealthStep(old(state.Value()), e)
      ensures state.Moved(if outcome.Accepted? then {e.member} else {})
    {
      hide Structured, CheckAuthority, JudgeHealth, Conclude, RackState.MembersIndexed, Agrees, DomainSound,
        DomainComplete, ExactBuckets, Shifted, DomainRefs, Machine.AdvancePublication, Update, Machine.NoteRejection;
      NothingShifts(state.membersByFailureDomain, state.members, state.members);
      ghost var s := state.Value();
      HealthStructured(s, e);
      KeysOf(s);
      var a := CheckAuthority(state.Value(), e.authority, true);
      if a.Denied? {
        Facts.GrantMeans(s, e.authority, true);
        return a.outcome;
      }
      if e.member !in state.members {
        NoteRejection(a.publisher);
        return RejectUnknownMember;
      }
      var r := state.members[e.member];
      outcome := JudgeHealth(r, e);
      var changed := NextHealth(r, e);
      ghost var committed := Machine.AdvancePublication(AdvanceHealth(Update(s, a.publisher, changed)), a.publisher);
      Concluded(s, a.publisher, outcome, committed);
      if outcome.Accepted? {
        UpdateGenerations(s, a.publisher, changed);
        CommitUpdate(a.publisher, changed, AdvanceHealth(state.Value()).generations, a.publisher);
      } else {
        Refuse(a.publisher, outcome, committed);
      }
    }

    method PublishCapability(e: Event) returns (outcome: Outcome)
      requires e.PublishCapability? && state.Valid()
      modifies state
      ensures state.Valid()
      ensures Step(state.Value(), outcome) == CapabilityStep(old(state.Value()), env.limits, e)
      ensures state.Moved(if outcome.Accepted? then {e.member} else {})
    {
      hide Structured, CheckAuthority, JudgeCapability, Conclude, RackState.MembersIndexed, Agrees, DomainSound,
        DomainComplete, ExactBuckets, Shifted, DomainRefs, Machine.AdvancePublication, Update, Machine.NoteRejection,
        WithCapability;
      NothingShifts(state.membersByFailureDomain, state.members, state.members);
      ghost var s := state.Value();
      CapabilityStructured(s, env.limits, e);
      KeysOf(s);
      var a := CheckAuthority(state.Value(), e.authority, true);
      if a.Denied? {
        Facts.GrantMeans(s, e.authority, true);
        return a.outcome;
      }
      if e.member !in state.members {
        NoteRejection(a.publisher);
        return RejectUnknownMember;
      }
      var r := state.members[e.member];
      outcome := JudgeCapability(r, env.limits, e);
      var changed := NextCapabilities(r, e);
      ghost var committed := Machine.AdvancePublication(AdvanceCapabilities(Update(s, a.publisher, changed)), a.publisher);
      Concluded(s, a.publisher, outcome, committed);
      if outcome.Accepted? {
        UpdateGenerations(s, a.publisher, changed);
        CommitUpdate(a.publisher, changed, AdvanceCapabilities(state.Value()).generations, a.publisher);
      } else {
        Refuse(a.publisher, outcome, committed);
      }
    }

    method WithdrawEvidence(e: Event) returns (outcome: Outcome)
      requires e.WithdrawEvidence? && state.Valid()
      modifies state
      ensures state.Valid()
      ensures Step(state.Value(), outcome) == WithdrawStep(old(state.Value()), e)
      ensures state.Moved(if outcome.Accepted? then {e.member} else {})
    {
      hide Structured, CheckAuthority, JudgeWithdrawal, Conclude, RackState.MembersIndexed, Agrees, DomainSound,
        DomainComplete, ExactBuckets, Shifted, DomainRefs, Machine.AdvancePublication, Update, Machine.NoteRejection;
      NothingShifts(state.membersByFailureDomain, state.members, state.members);
      ghost var s := state.Value();
      WithdrawStructured(s, e);
      KeysOf(s);
      var a := CheckAuthority(state.Value(), e.authority, true);
      if a.Denied? {
        Facts.GrantMeans(s, e.authority, true);
        return a.outcome;
      }
      if e.member !in state.members {
        NoteRejection(a.publisher);
        return RejectUnknownMember;
      }
      var r := state.members[e.member];
      outcome := JudgeWithdrawal(r, e);
      var changed := Withdrawn(r, e.scope);
      ghost var committed := Machine.AdvancePublication(AdvanceMembership(Update(s, a.publisher, changed)), a.publisher);
      Concluded(s, a.publisher, outcome, committed);
      if outcome.Accepted? {
        UpdateGenerations(s, a.publisher, changed);
        CommitUpdate(a.publisher, changed, AdvanceMembership(state.Value()).generations, a.publisher);
      } else {
        Refuse(a.publisher, outcome, committed);
      }
    }

    method MarkUnavailable(e: Event) returns (outcome: Outcome)
      requires e.MarkUnavailable? && state.Valid()
      modifies state
      ensures state.Valid()
      ensures Step(state.Value(), outcome) == MarkUnavailableStep(old(state.Value()), e)
      ensures state.Moved(if outcome.Accepted? then {e.member} else {})
    {
      hide Structured, CheckAuthority, JudgeUnavailable, Conclude, RackState.MembersIndexed, Agrees, DomainSound,
        DomainComplete, ExactBuckets, Shifted, DomainRefs, Machine.AdvancePublication, Update, Machine.NoteRejection;
      NothingShifts(state.membersByFailureDomain, state.members, state.members);
      ghost var s := state.Value();
      MarkUnavailableStructured(s, e);
      KeysOf(s);
      var a := CheckAuthority(state.Value(), e.authority, true);
      if a.Denied? {
        Facts.GrantMeans(s, e.authority, true);
        return a.outcome;
      }
      if e.member !in state.members {
        NoteRejection(a.publisher);
        return RejectUnknownMember;
      }
      var r := state.members[e.member];
      outcome := JudgeUnavailable(r, e);
      var changed := MadeUnavailable(r, e.reason);
      ghost var committed := Machine.AdvancePublication(AdvanceMembership(Update(s, None, changed)), a.publisher);
      Concluded(s, a.publisher, outcome, committed);
      if outcome.Accepted? {
        UpdateGenerations(s, None, changed);
        CommitUpdate(None, changed, AdvanceMembership(state.Value()).generations, a.publisher);
      } else {
        Refuse(a.publisher, outcome, committed);
      }
    }

    // ----- Topology and failure domains -----

    method JudgeRelationship(e: Event, r: RelationshipRecord) returns (outcome: Outcome)
      requires e.PublishRelationship? && state.Valid()
      ensures outcome == Machine.JudgeRelationship(state.Value(), env.limits, e, r)
    {
      hide Structured, Reaches, Acyclic, RackState.MembersIndexed, Agrees, DomainSound, ParentGraph, ContainsGraph,
        JudgeRelationshipReplacement;
      KeysOf(state.Value());
      if r.key.from == r.key.to {
        return RejectInvalidRelationship;
      }
      if !ValidEvidence(r.stamp) {
        return RejectInvalidInput;
      }
      if r.capacity.Some? && !ValidQuantity(r.capacity.value, r.capacity.value.unit) {
        return RejectInvalidInput;
      }
      if r.key.from !in state.members || r.key.to !in state.members {
        return RejectUnknownParent;
      }
      if r.key.cls.Contains? {
        var cyclic := state.ContainsCycle(r.key.from, r.key.to);
        if !cyclic {
          cyclic := state.RelationshipContainsCycle(r.key.from, r.key.to);
        }
        if cyclic {
          return RejectInvalidRelationship;
        }
      }
      if |state.relationships| >= env.limits.maxRelationships && r.key !in state.relationships {
        return RejectLimitExceeded;
      }
      outcome := JudgeRelationshipReplacement(state.Value(), e, r);
    }

    method PublishRelationship(e: Event) returns (outcome: Outcome)
      requires e.PublishRelationship? && state.Valid()
      modifies state
      ensures state.Valid()
      ensures Step(state.Value(), outcome) == RelationshipStep(old(state.Value()), env.limits, e)
      ensures state.Moved({})
    {
      hide Structured, CheckAuthority, Machine.JudgeRelationship, Conclude, RackState.MembersIndexed, Agrees,
        DomainSound, DomainComplete, ExactBuckets, Shifted, DomainRefs, Machine.CommitRelationship, Canonical;
      NothingShifts(state.membersByFailureDomain, state.members, state.members);
      ghost var s := state.Value();
      RelationshipStructured(s, env.limits, e);
      var a := CheckAuthority(state.Value(), e.authority, true);
      if a.Denied? {
        return a.outcome;
      }
      var r := e.relationship.(key := Canonical(e.relationship.key));
      outcome := JudgeRelationship(e, r);
      ghost var committed := Machine.CommitRelationship(s, e.authority, a.publisher, r);
      Concluded(s, a.publisher, outcome, committed);
      if outcome.Accepted? {
        CommitRelationship(r, e.authority, a.publisher);
      } else {
        Refuse(a.publisher, outcome, committed);
      }
    }

    method CommitRelationship(r: RelationshipRecord, token: AuthorityToken, publisher: Option<Text>)
      requires state.Indexed()
      modifies state`relationships, state`relationshipsByMember, state`generations, state`publishers,
               state`operatorPublication
      ensures state.Indexed()
      ensures state.Value() == Machine.CommitRelationship(old(state.Value()), token, publisher, r)
    {
      hide RackState.MembersIndexed, Agrees, DomainSound, Machine.AdvancePublication;
      var next := Advance(state.generations.topology);
      var committed := r.(generation := next,
                          ownerBoot := OwnerOf(token.boot, r.ownerBoot),
                          ownerWorker := WorkerOf(state.Value(), publisher, r.ownerWorker));
      state.generations := state.generations.(topology := next);
      state.PutRelationship(committed);
      AdvancePublication(publisher);
    }

    method WithdrawRelationship(e: Event) returns (outcome: Outcome)
      requires e.WithdrawRelationship? && state.Valid()
      modifies state
      ensures state.Valid()
      ensures Step(state.Value(), outcome) == WithdrawRelationshipStep(old(state.Value()), e)
      ensures state.Moved({})
    {
      hide Structured, CheckAuthority, Conclude, RackState.MembersIndexed, Agrees, DomainSound,
        DomainComplete, ExactBuckets, Shifted, DomainRefs, Machine.AdvancePublication, Canonical;
      NothingShifts(state.membersByFailureDomain, state.members, state.members);
      ghost var s := state.Value();
      WithdrawRelationshipStructured(s, e);
      var a := CheckAuthority(state.Value(), e.authority, true);
      if a.Denied? {
        return a.outcome;
      }
      var key := Canonical(e.key);
      outcome := JudgeRelationshipWithdrawal(state.Value(), e);
      ghost var committed := Machine.AdvancePublication(WithoutRelationship(s, key), a.publisher);
      Concluded(s, a.publisher, outcome, committed);
      if outcome.Accepted? {
        state.generations := state.generations.(topology := Advance(state.generations.topology));
        state.DropRelationship(key);
        AdvancePublication(a.publisher);
      } else {
        Refuse(a.publisher, outcome, committed);
      }
    }

    /** Checks the parent edges in order. */
    method JudgeDomainParents(id: Text, parents: seq<Text>) returns (outcome: Outcome)
      ensures outcome == JudgeParents(state.failureDomains, id, parents)
    {
      hide Reaches, DomainGraph;
      for i := 0 to |parents|
        invariant JudgeParents(state.failureDomains, id, parents) == JudgeParents(state.failureDomains, id, parents[i..])
      {
        var parent := parents[i];
        assert parents[i..][0] == parent && parents[i..][1..] == parents[i + 1..];
        if parent == id {
          return RejectInvalidRelationship;
        }
        if parent !in state.failureDomains {
          return RejectUnknownParent;
        }
        var cyclic := state.DomainContainsCycle(parent, id);
        if cyclic {
          return RejectInvalidRelationship;
        }
      }
      outcome := Accepted;
    }

    method JudgeDomain(e: Event, d: FailureDomainRecord) returns (outcome: Outcome)
      requires e.PublishFailureDomain?
      ensures outcome == Machine.JudgeDomain(state.Value(), env.limits, e, d)
    {
      hide JudgeParents, JudgeDomainReplacement, IsIdentity, IsLabel;
      if !IsIdentity(d.id) {
        return RejectInvalidInput;
      }
      if d.labelText.Some? && !IsLabel(d.labelText.value) {
        return RejectInvalidInput;
      }
      if !ValidEvidence(d.stamp) {
        return RejectInvalidInput;
      }
      var parents := JudgeDomainParents(d.id, d.parents);
      if !parents.Accepted? {
        return parents;
      }
      if d.id !in state.failureDomains && |state.failureDomains| >= env.limits.maxFailureDomains {
        return RejectLimitExceeded;
      }
      outcome := JudgeDomainReplacement(state.Value(), e, d);
    }

    /** The member buckets stay complete unless the domain existed before and some member names it. */
    method PublishFailureDomain(e: Event) returns (outcome: Outcome)
      requires e.PublishFailureDomain? && state.Valid()
      modifies state
      ensures state.Valid()
      ensures Step(state.Value(), outcome) == DomainStep(old(state.Value()), env.limits, e)
      ensures old(state.DomainIndexComplete()) ==>
                (state.DomainIndexComplete() <==>
                 !outcome.Accepted? || e.domain.id !in old(state.failureDomains) || !IsNamed(old(state.members), e.domain.id))
      ensures old(state.HasExactBuckets()) ==>
                (state.HasExactBuckets() <==>
                 !outcome.Accepted? || e.domain.id !in old(state.failureDomains) || !IsNamed(old(state.members), e.domain.id))
      ensures Shifted(old(state.membersByFailureDomain), old(state.members), state.membersByFailureDomain, state.members,
                      {}, if outcome.Accepted? && e.domain.id in old(state.failureDomains) then {e.domain.id} else {},
                      if outcome.Accepted? then {e.domain.id} else {})
      ensures state.members == old(state.members)
      ensures state.failureDomains.Keys == old(state.failureDomains).Keys + if outcome.Accepted? then {e.domain.id} else {}
    {
      hide Structured, CheckAuthority, Machine.JudgeDomain, Conclude, RackState.MembersIndexed, Agrees, DomainSound,
        DomainComplete, ExactBuckets, Shifted, DomainRefs, Machine.CommitDomain, StrictTotal, Ascends, IsNamed,
        KeepsNames;
      NothingShifts(state.membersByFailureDomain, state.members, state.members);
      ghost var s := state.Value();
      DomainStructured(s, env.limits, e);
      KeysOf(s);
      var a := CheckAuthority(state.Value(), e.authority, true);
      if a.Denied? {
        Facts.GrantMeans(s, e.authority, true);
        return a.outcome;
      }
      TextOrder();
      var parents := Sorted((set p | p in e.domain.parents), TextLess);
      var d := e.domain.(parents := parents);
      outcome := JudgeDomain(e, d);
      ghost var committed := Machine.CommitDomain(s, e.authority, a.publisher, d);
      Concluded(s, a.publisher, outcome, committed);
      if outcome.Accepted? {
        CommitDomain(d, e.authority, a.publisher);
      } else {
        Refuse(a.publisher, outcome, committed);
      }
    }

    method CommitDomain(d: FailureDomainRecord, token: AuthorityToken, publisher: Option<Text>)
      requires state.Indexed() && (d.id in state.failureDomains ==> state.failureDomains[d.id].id == d.id)
      modifies state`failureDomains, state`childrenByDomain, state`membersByFailureDomain, state`generations,
               state`publishers, state`operatorPublication
      ensures state.Indexed()
      ensures state.Value() == Machine.CommitDomain(old(state.Value()), token, publisher, d)
      ensures old(state.DomainIndexComplete()) ==>
                (state.DomainIndexComplete() <==> d.id !in old(state.failureDomains) || !IsNamed(old(state.members), d.id))
      ensures old(state.HasExactBuckets()) ==>
                (state.HasExactBuckets() <==> d.id !in old(state.failureDomains) || !IsNamed(old(state.members), d.id))
      ensures Shifted(old(state.membersByFailureDomain), old(state.members), state.membersByFailureDomain, state.members,
                      {}, if d.id in old(state.failureDomains) then {d.id} else {}, {d.id})
      ensures state.failureDomains.Keys == old(state.failureDomains).Keys + {d.id}
    {
      hide RackState.MembersIndexed, Agrees, DomainSound, DomainComplete, ExactBuckets, Shifted, DomainRefs,
        Machine.AdvancePublication, IsNamed, KeepsNames;
      var next := Advance(state.generations.failureDomains);
      var committed := d.(generation := next,
                          ownerBoot := OwnerOf(token.boot, d.ownerBoot),
                          ownerWorker := WorkerOf(state.Value(), publisher, d.ownerWorker));
      state.generations := state.generations.(failureDomains := next);
      state.PutFailureDomain(committed);
      AdvancePublication(publisher);
    }

    // ----- Envelopes -----

    method PublishPower(e: Event, now: i64) returns (outcome: Outcome)
      requires e.PublishPower? && state.Valid()
      modifies state`power, state`generations, state`publishers, state`operatorPublication
      ensures state.Valid()
      ensures Step(state.Value(), outcome) == PowerStep(env, old(state.Value()), e, now)
      ensures state.Moved({})
    {
      hide Structured, CheckAuthority, JudgePower, Conclude, RackState.MembersIndexed, Agrees, DomainSound,
        DomainComplete, ExactBuckets, Shifted, DomainRefs, Machine.AdvancePublication, DerivedPower;
      NothingShifts(state.membersByFailureDomain, state.members, state.members);
      ghost var s := state.Value();
      PowerStructured(env, s, e, now);
      var a := CheckAuthority(state.Value(), e.authority, true);
      if a.Denied? {
        return a.outcome;
      }
      outcome := JudgePower(state.Value(), e);
      ghost var committed := CommitPower(env, s, e.authority, a.publisher, e.power, now);
      Concluded(s, a.publisher, outcome, committed);
      if outcome.Accepted? {
        var g := state.generations;
        var envelope := e.power.(generation := Advance(g.power),
                                 stamp := e.power.stamp.(revalidationRequired := false),
                                 ownerBoot := OwnerOf(e.authority.boot, e.power.ownerBoot),
                                 ownerWorker := WorkerOf(state.Value(), a.publisher, e.power.ownerWorker));
        state.power := Some(DerivedPower(env, envelope, now));
        state.generations := g.(power := Advance(g.power), constraints := Advance(g.constraints));
        AdvancePublication(a.publisher);
      } else {
        Refuse(a.publisher, outcome, committed);
      }
    }

    /** Checks the zones in order. */
    method JudgeCoolingZones(zones: seq<CoolingZone>) returns (outcome: Outcome)
      ensures outcome == JudgeZones(state.Value(), zones)
    {
      hide ValidIfPresent, ValidEvidence;
      for i := 0 to |zones|
        invariant JudgeZones(state.Value(), zones) == JudgeZones(state.Value(), zones[i..])
      {
        var z := zones[i];
        assert zones[i..][0] == z && zones[i..][1..] == zones[i + 1..];
        if MemberKey(CoolingDomain, z.zone) !in state.members {
          return RejectUnknownParent;
        }
        if || !ValidIfPresent(z.designThermalLimit, Watts) || !ValidIfPresent(z.coolingCapacity, Watts)
           || !ValidIfPresent(z.observedTemperature, Celsius)
           || (z.throttling.Some? && !ValidEvidence(z.throttling.value.stamp))
        {
          return RejectInvalidInput;
        }
      }
      outcome := Accepted;
    }

    method JudgeCooling(e: Event) returns (outcome: Outcome)
      requires e.PublishCooling?
      ensures outcome == Machine.JudgeCooling(state.Value(), e)
    {
      hide JudgeZones, ValidEvidence;
      var c := e.cooling;
      if !ValidEvidence(c.stamp) {
        return RejectInvalidInput;
      }
      var zones := JudgeCoolingZones(c.zones);
      if !zones.Accepted? {
        return zones;
      }
      if state.cooling.Some? && e.expectedGeneration.Some?
         && e.expectedGeneration.value < state.generations.cooling {
        return RejectStaleGeneration;
      }
      if state.cooling.Some? && c.generation != 0 && c.generation < state.cooling.value.generation {
        return RejectStaleGeneration;
      }
      outcome := if state.generations.cooling == U64_MAX then RejectLimitExceeded else Accepted;
    }

    method PublishCooling(e: Event, now: i64) returns (outcome: Outcome)
      requires e.PublishCooling? && state.Valid()
      modifies state`cooling, state`generations, state`publishers, state`operatorPublication
      ensures state.Valid()
      ensures Step(state.Value(), outcome) == CoolingStep(env, old(state.Value()), e, now)
      ensures state.Moved({})
    {
      hide Structured, CheckAuthority, Machine.JudgeCooling, Conclude, RackState.MembersIndexed, Agrees, DomainSound,
        DomainComplete, ExactBuckets, Shifted, DomainRefs, Machine.AdvancePublication, DerivedCooling, SortZones;
      NothingShifts(state.membersByFailureDomain, state.members, state.members);
      ghost var s := state.Value();
      CoolingStructured(env, s, e, now);
      var a := CheckAuthority(state.Value(), e.authority, true);
      if a.Denied? {
        return a.outcome;
      }
      outcome := JudgeCooling(e);
      ghost var committed := CommitCooling(env, s, e.authority, a.publisher, e.cooling, now);
      Concluded(s, a.publisher, outcome, committed);
      if outcome.Accepted? {
        var g := state.generations;
        var envelope := e.cooling.(generation := Advance(g.cooling),
                                   zones := SortZones(e.cooling.zones),
                                   stamp := e.cooling.stamp.(revalidationRequired := false),
                                   ownerBoot := OwnerOf(e.authority.boot, e.cooling.ownerBoot),
                                   ownerWorker := WorkerOf(state.Value(), a.publisher, e.cooling.ownerWorker));
        state.cooling := Some(DerivedCooling(env, envelope, now));
        state.generations := g.(cooling := Advance(g.cooling), constraints := Advance(g.constraints));
        AdvancePublication(a.publisher);
      } else {
        Refuse(a.publisher, outcome, committed);
      }
    }

    // ----- Snapshots -----

    method PublishSnapshot(e: Event, now: i64) returns (outcome: Outcome)
      requires e.PublishSnapshot? && state.Valid()
      modifies state`snapshots, state`snapshotGeneration, state`publishers, state`operatorPublication
      ensures state.Valid()
      ensures Step(state.Value(), outcome) == SnapshotStep(env, old(state.Value()), e, now)
      ensures state.Moved({})
    {
      hide Structured, CheckPublisher, RackState.MembersIndexed, Agrees, DomainSound, DomainComplete, ExactBuckets,
        Shifted, DomainRefs, Machine.AdvancePublication, BuildSnapshot, Retain, SnapshotId, IsIdentity;
      NothingShifts(state.membersByFailureDomain, state.members, state.members);
      ghost var s := state.Value();
      SnapshotStructured(env, s, e, now);
      var a := CheckAuthority(state.Value(), e.authority, true);
      if a.Denied? {
        return a.outcome;
      }
      if state.snapshotGeneration == U64_MAX {
        return RejectLimitExceeded;
      }
      var generation := state.snapshotGeneration + 1;
      var id := SnapshotId(state.rack.value.id, generation);
      if !IsIdentity(id) {
        return RejectInvalidInput;
      }
      var publication := SnapshotPublication(state.Value(), a.publisher);
      var snapshot := TakeSnapshot(env, state, id, generation, publication, now);
      state.snapshotGeneration := generation;
      RetainSnapshot(generation, snapshot);
      AdvancePublication(a.publisher);
      outcome := Accepted;
    }

    method RetainSnapshot(generation: u64, snapshot: RackSnapshot)
      modifies state`snapshots
      ensures state.snapshots == Retain(old(state.snapshots), env.limits.maxRetainedSnapshots, generation, snapshot)
    {
      CounterOrder();
      if |state.snapshots| >= env.limits.maxRetainedSnapshots && state.snapshots != map[] {
        var oldest := PickLeast<nat>(state.snapshots.Keys, CounterLess);
        LeastIsUnique<nat>(state.snapshots.Keys, CounterLess, oldest);
        state.snapshots := state.snapshots - {oldest};
      }
      state.snapshots := state.snapshots[generation := snapshot];
    }

    // ----- Registration and liveness -----

    method RegisterPublisher(e: Event, now: i64) returns (outcome: Outcome)
      requires e.RegisterPublisher? && state.Valid()
      modifies state`publishers
      ensures state.Valid()
      ensures Step(state.Value(), outcome) == Register(old(state.Value()), env.limits, e, now)
      ensures state.Moved({})
    {
      hide Structured, RackState.MembersIndexed, Agrees, DomainSound, DomainComplete, ExactBuckets, Shifted, DomainRefs,
        IsLabel;
      NothingShifts(state.membersByFailureDomain, state.members, state.members);
      ghost var s := state.Value();
      RegisterStructured(s, env.limits, e, now);
      if e.rack.None? || e.worker.None? || e.boot.None? {
        return RejectInvalidInput;
      }
      if e.epoch != state.generations.coordinatorEpoch {
        return RejectStaleCoordinatorEpoch;
      }
      if state.rack.None? || e.rack.value != state.rack.value.id {
        return RejectUnknownRack;
      }
      if state.rack.value.retired {
        return RejectRackRetired;
      }
      var boot := e.boot.value;
      if boot in state.fencedBoots {
        return RejectStaleWorkerBoot;
      }
      if |state.publishers| >= env.limits.maxConnections && boot !in state.publishers {
        return RejectLimitExceeded;
      }
      if boot in state.publishers {
        var p := state.publishers[boot];
        if IsOutdated(p.state) {
          return RejectStaleWorkerBoot;
        }
        if p.worker != e.worker.value {
          return RejectNotAuthorized;
        }
        state.publishers := state.publishers[boot := p.(lastSeenAt := now, state := PublisherState.Active)];
        return NoChange;
      }
      if e.labelText.Some? && !IsLabel(e.labelText.value) {
        return RejectInvalidInput;
      }
      state.publishers := state.publishers[boot := PublisherRecord(
        e.worker.value, boot, state.generations.coordinatorEpoch, 1, PublisherState.Active, now, now,
        env.limits.publisherLeaseMillis, e.labelText, 0, 0)];
      outcome := Accepted;
    }

    method Heartbeat(e: Event, now: i64) returns (outcome: Outcome)
      requires e.Heartbeat? && state.Valid()
      modifies state`publishers
      ensures state.Valid()
      ensures Step(state.Value(), outcome) == HeartbeatStep(old(state.Value()), e, now)
      ensures state.Moved({})
    {
      hide Structured, RackState.MembersIndexed, Agrees, DomainSound, DomainComplete, ExactBuckets, Shifted, DomainRefs,
        CheckPublisher;
      NothingShifts(state.membersByFailureDomain, state.members, state.members);
      HeartbeatStructured(state.Value(), e, now);
      var a := CheckAuthority(state.Value(), e.authority, false);
      if a.Denied? {
        return a.outcome;
      }
      if a.publisher.None? || a.publisher.value !in state.publishers {
        return RejectNotRegistered;
      }
      var p := state.publishers[a.publisher.value];
      state.publishers := state.publishers[a.publisher.value := p.(lastSeenAt := now, state := PublisherState.Active)];
      outcome := Accepted;
    }

    // ----- Mutations of many records -----

    /** Rewrites all members in place, leaving what the indexes are derived from. */
    method RewriteMembers(f: MemberRecord -> MemberRecord)
      requires state.Indexed()
      requires forall r: MemberRecord :: SameReferences(r, f(r))
      modifies state`members
      ensures state.Indexed()
      ensures DomainRefs(state.members) == DomainRefs(old(state.members))
      ensures state.members.Keys == old(state.members).Keys
      ensures forall k :: k in state.members ==> state.members[k] == f(old(state.members)[k])
    {
      hide Agrees, Listed, Refers, SameReferences;
      var rewritten := RewriteAll(state.members, f);
      ReferencesSame(state.members, rewritten);
      state.members := rewritten;
    }

    method Redeclare(epoch: Text, labelText: Option<Text>, generation: u64, now: i64)
      requires state.Indexed() && state.rack.Some?
      modifies state`rack, state`members, state`relationships, state`failureDomains, state`generations
      ensures state.Indexed()
      ensures state.Value() == Redeclared(old(state.Value()), epoch, labelText, generation, now)
      ensures DomainRefs(state.members) == DomainRefs(old(state.members))
      ensures state.failureDomains.Keys == old(state.failureDomains).Keys
    {
      hide RackState.Indexed, RackState.DomainIndexComplete, RackState.HasExactBuckets, Redeclared;
      ghost var s := state.Value();
      RewriteMembers((r: MemberRecord) => r.Revalidate(true, RevalidationReason.Superseded));
      RewriteTopology((r: RelationshipRecord) => r.(stamp := r.stamp.(revalidationRequired := true)),
                      (d: FailureDomainRecord) => d.(stamp := d.stamp.(revalidationRequired := true)));
      RedeclaredIs(s, epoch, labelText, generation, now, state.members, state.relationships, state.failureDomains);
      SetRack(state.rack.value.(epoch := epoch, generation := generation, labelText := labelText, declaredAt := now));
    }

    method SetRack(rack: RackRecord)
      requires state.Indexed()
      modifies state`rack, state`generations
      ensures state.Indexed()
      ensures state.Value() == old(state.Value()).(
                                 rack := Some(rack), generations := old(state.generations).(rack := rack.generation))
    {
      hide RackState.MembersIndexed, Agrees, DomainSound, DomainComplete, ExactBuckets, Shifted, DomainRefs;
      state.rack := Some(rack);
      state.generations := state.generations.(rack := rack.generation);
    }

    /** Rewrites all relationships and failure domains in place, leaving their endpoints and parents. */
    method RewriteTopology(f: RelationshipRecord -> RelationshipRecord, g: FailureDomainRecord -> FailureDomainRecord)
      requires state.Indexed() && forall d: FailureDomainRecord :: g(d).parents == d.parents
      modifies state`relationships, state`failureDomains
      ensures state.Indexed()
      ensures state.relationships.Keys == old(state.relationships).Keys
      ensures forall k :: k in state.relationships ==> state.relationships[k] == f(old(state.relationships)[k])
      ensures state.failureDomains.Keys == old(state.failureDomains).Keys
      ensures forall d :: d in state.failureDomains ==> state.failureDomains[d] == g(old(state.failureDomains)[d])
    {
      hide RackState.MembersIndexed, Agrees, DomainSound;
      var relationships := RewriteAll(state.relationships, f);
      var domains := RewriteAll(state.failureDomains, g);
      assert EndpointRefs(relationships) == EndpointRefs(state.relationships);
      assert DomainParentRefs(domains) == DomainParentRefs(state.failureDomains);
      state.relationships := relationships;
      state.failureDomains := domains;
    }

    method DeclareRack(e: Event, now: i64) returns (outcome: Outcome)
      requires e.DeclareRack? && state.Valid()
      modifies state
      ensures state.Valid()
      ensures Step(state.Value(), outcome) == Declare(old(state.Value()), e, now)
      ensures state.Moved({})
    {
      hide Structured, RackState.MembersIndexed, Agrees, DomainSound, DomainComplete, ExactBuckets, Shifted, DomainRefs,
        CheckAuthority, Redeclared, IsIdentity, IsLabel;
      NothingShifts(state.membersByFailureDomain, state.members, state.members);
      DeclareStructured(state.Value(), e, now);
      if e.rackEpoch.None? || !IsIdentity(e.rackEpoch.value) {
        return RejectInvalidInput;
      }
      if e.labelText.Some? && !IsLabel(e.labelText.value) {
        return RejectInvalidInput;
      }
      if e.authority.rack.None? {
        return RejectInvalidInput;
      }
      var a := CheckAuthority(state.Value(), e.authority, false);
      if a.Denied? {
        return a.outcome;
      }
      if state.rack.None? {
        state.rack := Some(RackRecord(e.authority.rack.value, e.rackEpoch.value, 1, false, e.labelText, now));
        state.generations := state.generations.(rack := 1);
        return Accepted;
      }
      if state.rack.value.id != e.authority.rack.value {
        return RejectConflict;
      }
      if state.rack.value.epoch == e.rackEpoch.value {
        return if e.labelText.Some? && state.rack.value.labelText != e.labelText then RejectConflict else NoChange;
      }
      if !e.redeclare {
        return RejectConflict;
      }
      var next := Next(state.rack.value.generation);
      if next.None? {
        return RejectLimitExceeded;
      }
      ghost var members := state.members;
      Redeclare(e.rackEpoch.value, e.labelText, next.value, now);
      NothingShifts(state.membersByFailureDomain, members, state.members);
      outcome := Accepted;
    }

    /** Withdraws every relationship that touches a member, as the index lists them. */
    method DropTouching(member: MemberKey) returns (dropped: bool)
      requires state.Indexed()
      modifies state`relationships, state`relationshipsByMember
      ensures state.Indexed()
      ensures state.relationships == Untouched(old(state.relationships), member)
      ensures dropped <==> state.relationships != old(state.relationships)
    {
      var rest := if member in state.relationshipsByMember then state.relationshipsByMember[member] else {};
      ghost var before := state.relationships;
      ghost var touching := rest;
      TouchingAre(state.relationshipsByMember, before, member);
      hide RackState.MembersIndexed, Agrees, DomainSound;
      dropped := rest != {};
      while rest != {}
        invariant state.Indexed() && rest <= touching
        invariant state.relationships == map k | k in before && (k in touching ==> k in rest) :: before[k]
        decreases rest
      {
        var key :| key in rest;
        if key in state.relationships {
          state.DropRelationship(key);
        }
        rest := rest - {key};
      }
      if dropped {
        ghost var key :| key in touching;
        assert key in before && key !in state.relationships;
      }
    }

    /** Takes away the parent of every member that names this one. */
    method DetachChildren(parent: MemberKey)
      requires state.Indexed() && forall k :: k in state.members ==> state.members[k].key == k
      modifies state`members, state`membersByKind, state`membersByFailureDomain, state`membersByPowerDomain,
               state`membersByCoolingDomain, state`membersByOwnerBoot, state`childrenByParent
      ensures state.Indexed()
      ensures state.members == DetachedMembers(old(state.members), parent)
      ensures state.Moved(Children(old(state.members), parent))
    {
      hide RackState.Indexed, Shifted, DomainRefs;
      NothingShifts(state.membersByFailureDomain, state.members, state.members);
      ghost var before, index, touched := state.members, state.membersByFailureDomain, {};
      var rest := state.members.Keys;
      while rest != {}
        invariant state.Indexed() && rest <= before.Keys && state.members.Keys == before.Keys
        invariant forall k :: k in before ==>
                    state.members[k] == if k in rest then before[k] else Detached(before[k], parent)
        invariant touched == Children(before, parent) - rest
        invariant Shifted(index, before, state.membersByFailureDomain, state.members, touched, {}, {})
        invariant DomainRefs(state.members) == DomainRefs(before)
        decreases rest
      {
        var key :| key in rest;
        if state.members[key].parent == Some(parent) {
          state.Touch(state.members[key].(parent := None), index, before, touched);
          touched := touched + {key};
        }
        rest := rest - {key};
      }
      assert touched == Children(before, parent);
    }

    method RetireMember(e: Event) returns (outcome: Outcome)
      requires e.RetireMember? && state.Valid()
      modifies state
      ensures state.Valid()
      ensures Step(state.Value(), outcome) == RetireMemberStep(old(state.Value()), e)
      ensures state.Moved(if outcome.Accepted? then Children(old(state.members), e.member) + {e.member} else {})
    {
      hide Structured, CheckAuthority, Conclude, RackState.MembersIndexed, Agrees, DomainSound, DomainComplete,
        ExactBuckets, Shifted, DomainRefs, Machine.AdvancePublication, Machine.NoteRejection, RetiredMember, Retirement;
      NothingShifts(state.membersByFailureDomain, state.members, state.members);
      ghost var s := state.Value();
      RetireMemberStructured(s, e);
      KeysOf(s);
      var a := CheckAuthority(state.Value(), e.authority, true);
      if a.Denied? {
        Facts.GrantMeans(s, e.authority, true);
        return a.outcome;
      }
      if e.member !in state.members {
        NoteRejection(a.publisher);
        return RejectUnknownMember;
      }
      var r := state.members[e.member];
      outcome := JudgeRetirement(r);
      ghost var committed := Machine.AdvancePublication(RetiredMember(s, e.member, Retirement(r)), a.publisher);
      Concluded(s, a.publisher, outcome, committed);
      if outcome.Accepted? {
        CommitRetirement(e.member);
        AdvancePublication(a.publisher);
      } else {
        Refuse(a.publisher, outcome, committed);
      }
    }

    method CommitRetirement(member: MemberKey)
      requires state.Indexed() && member in state.members
      requires forall k :: k in state.members ==> state.members[k].key == k
      modifies state
      ensures state.Indexed()
      ensures state.Value() == RetiredMember(old(state.Value()), member, Retirement(old(state.members)[member]))
      ensures state.Moved(Children(old(state.members), member) + {member})
    {
      hide RackState.Indexed, RackState.DomainIndexComplete, RackState.HasExactBuckets, Shifted, DomainRefs, KeepsNames,
        Retirement, DetachedMembers, RetiredMember, Untouched;
      ghost var s := state.Value();
      var record := Retirement(state.members[member]);
      RetirementKey(state.members[member]);
      ghost var before, index := state.members, state.membersByFailureDomain;
      var dropped := Detach(member);
      ghost var b, n := state.membersByFailureDomain, state.members;
      SameNames(n, record);
      RetiredMemberIs(s, member, record, state.relationships);
      var g := state.generations;
      Replace(record, g.(membership := Advance(g.membership),
                         topology := if dropped then Advance(g.topology) else g.topology));
      ShiftedTwice(index, before, b, n, state.membersByFailureDomain, state.members, Children(before, member), {member});
    }

    method Detach(member: MemberKey) returns (dropped: bool)
      requires state.Indexed() && forall k :: k in state.members ==> state.members[k].key == k
      modifies state
      ensures state.Indexed() && state.Moved(Children(old(state.members), member))
      ensures state.Value() == old(state.Value()).(members := DetachedMembers(old(state.members), member),
                                                   relationships := Untouched(old(state.relationships), member))
      ensures state.members.Keys == old(state.members).Keys
      ensures forall k :: k in state.members ==>
                state.members[k].key == k && state.members[k].failureDomains == old(state.members)[k].failureDomains
      ensures dropped <==> state.relationships != old(state.relationships)
    {
      hide RackState.Indexed, RackState.DomainIndexComplete, RackState.HasExactBuckets, Shifted, DomainRefs,
        DetachedMembers, Untouched;
      DetachedKeys(state.members, member);
      dropped := DropTouching(member);
      DetachChildren(member);
    }

    /** Every registered process loses its authority for good. */
    method FenceAll(now: i64)
      modifies state`publishers, state`fencedBoots
      ensures state.publishers.Keys == old(state.publishers).Keys
      ensures forall b :: b in state.publishers ==>
                state.publishers[b] == old(state.publishers)[b].(state := PublisherState.Lost)
      ensures state.fencedBoots.Keys == old(state.fencedBoots).Keys + state.publishers.Keys
      ensures forall b :: b in state.fencedBoots ==>
                state.fencedBoots[b] ==
                if b in state.publishers then FencedRecord(old(state.Value()), b, now, RevalidationReason.Superseded)
                else old(state.fencedBoots)[b]
    {
      ghost var before, fenced := state.publishers, state.fencedBoots;
      ghost var epoch := state.generations.coordinatorEpoch;
      var rest := state.publishers.Keys;
      while rest != {}
        invariant rest <= before.Keys && state.publishers.Keys == before.Keys
        invariant forall b :: b in before ==>
                    state.publishers[b] == if b in rest then before[b] else before[b].(state := PublisherState.Lost)
        invariant state.fencedBoots.Keys == fenced.Keys + (before.Keys - rest)
        invariant forall b :: b in state.fencedBoots ==>
                    state.fencedBoots[b] ==
                    if b in before && b !in rest then
                      FencedBootRecord(b, Some(before[b].worker), epoch, now, RevalidationReason.Superseded)
                    else fenced[b]
        decreases rest
      {
        var boot :| boot in rest;
        var p := state.publishers[boot];
        state.publishers := state.publishers[boot := p.(state := PublisherState.Lost)];
        state.fencedBoots := state.fencedBoots[boot := FencedBootRecord(
          boot, Some(p.worker), state.generations.coordinatorEpoch, now, RevalidationReason.Superseded)];
        rest := rest - {boot};
      }
    }

    method RetireRack(e: Event, now: i64) returns (outcome: Outcome)
      requires e.RetireRack? && state.Valid()
      modifies state
      ensures state.Valid()
      ensures Step(state.Value(), outcome) == RetireRackStep(old(state.Value()), e, now)
      ensures state.Moved({})
    {
      hide Structured, CheckAuthority, RackState.MembersIndexed, Agrees, DomainSound, DomainComplete, ExactBuckets,
        Shifted, DomainRefs, Machine.AdvancePublication, RetiredRack;
      NothingShifts(state.membersByFailureDomain, state.members, state.members);
      ghost var s := state.Value();
      RetireRackStructured(s, e, now);
      if state.rack.None? {
        return RejectUnknownRack;
      }
      if state.rack.value.retired {
        return NoChange;
      }
      var a := CheckAuthority(state.Value(), e.authority, true);
      if a.Denied? {
        return a.outcome;
      }
      var next := Next(state.rack.value.generation);
      if next.None? {
        return RejectLimitExceeded;
      }
      ghost var members := state.members;
      CommitRackRetirement(next.value, now);
      NothingShifts(state.membersByFailureDomain, members, state.members);
      AdvancePublication(a.publisher);
      outcome := Accepted;
    }

    method CommitRackRetirement(generation: u64, now: i64)
      requires state.Indexed() && state.rack.Some?
      modifies state`rack, state`generations, state`members, state`publishers, state`fencedBoots
      ensures state.Indexed()
      ensures state.Value() == RetiredRack(old(state.Value()), generation, now)
      ensures DomainRefs(state.members) == DomainRefs(old(state.members))
    {
      hide RackState.Indexed, RackState.DomainIndexComplete, RackState.HasExactBuckets, LeftByRack, RetiredRack;
      ghost var s := state.Value();
      LeavingKeeps();
      RewriteMembers(LeftByRack);
      SetRack(state.rack.value.(retired := true, generation := generation));
      RevokeAll(now);
      RetiredRackIs(s, generation, now, state.members, state.publishers, state.fencedBoots);
    }

    method RevokeAll(now: i64)
      requires state.Indexed()
      modifies state`publishers, state`fencedBoots
      ensures state.Indexed()
      ensures state.publishers.Keys == old(state.publishers).Keys
      ensures forall b :: b in state.publishers ==>
                state.publishers[b] == old(state.publishers)[b].(state := PublisherState.Lost)
      ensures state.fencedBoots.Keys == old(state.fencedBoots).Keys + state.publishers.Keys
      ensures forall b :: b in state.fencedBoots ==>
                state.fencedBoots[b] ==
                if b in state.publishers then FencedRecord(old(state.Value()), b, now, RevalidationReason.Superseded)
                else old(state.fencedBoots)[b]
    {
      hide RackState.MembersIndexed, Agrees, DomainSound, DomainComplete, ExactBuckets, Shifted, DomainRefs;
      FenceAll(now);
    }

    // ----- Revalidation and fencing -----

    /** Commits target by target; a target that fails leaves the earlier ones committed. */
    method RevalidateTargets(targets: seq<MemberKey>, token: AuthorityToken) returns (changed: bool, outcome: Outcome)
      requires state.Indexed() && forall k :: k in state.members ==> state.members[k].key == k
      modifies state`members, state`membersByKind, state`membersByFailureDomain, state`membersByPowerDomain,
               state`membersByCoolingDomain, state`membersByOwnerBoot, state`childrenByParent
      ensures state.Indexed() && state.Moved(Changed(old(state.members), state.members))
      ensures Machine.Progress(state.members, changed, outcome)
           == RevalidateEach(old(state.members), targets, token, false)
    {
      hide RackState.Indexed, Shifted, DomainRefs;
      NothingShifts(state.membersByFailureDomain, state.members, state.members);
      ghost var before, index, touched := state.members, state.membersByFailureDomain, {};
      changed := false;
      for i := 0 to |targets|
        invariant state.Indexed() && touched == Changed(before, state.members)
        invariant Shifted(index, before, state.membersByFailureDomain, state.members, touched, {}, {})
        invariant DomainRefs(state.members) == DomainRefs(before) && NoneLowered(before, state.members)
        invariant forall k :: k in state.members ==> state.members[k].key == k
        invariant RevalidateEach(old(state.members), targets, token, false)
               == RevalidateEach(state.members, targets[i..], token, changed)
      {
        var key := targets[i];
        assert targets[i..][0] == key && targets[i..][1..] == targets[i + 1..];
        if key !in state.members {
          return changed, RejectUnknownMember;
        }
        if OwnerConflict(state.members[key].ownerBoot, token) {
          return changed, RejectNotAuthorized;
        }
        if state.members[key].stamp.revalidationRequired {
          if state.members[key].generation == U64_MAX {
            return changed, RejectLimitExceeded;
          }
          RaisedIsChanged(before, state.members, key, Revalidated(state.members[key]));
          state.Touch(Revalidated(state.members[key]), index, before, touched);
          touched := touched + {key};
          changed := true;
        }
      }
      outcome := if changed then Accepted else NoChange;
    }

    method RevalidateMembers(e: Event) returns (outcome: Outcome)
      requires e.RevalidateMembers? && state.Valid()
      modifies state
      ensures state.Valid()
      ensures Step(state.Value(), outcome) == RevalidateStep(old(state.Value()), e)
      ensures state.Moved(Changed(old(state.members), state.members))
    {
      hide Structured, CheckAuthority, RackState.Indexed, RackState.DomainIndexComplete, RackState.HasExactBuckets,
        Shifted, DomainRefs, Changed, Machine.AdvancePublication, Machine.NoteRejection, StrictTotal, Ascends,
        RevalidateEach;
      NothingShifts(state.membersByFailureDomain, state.members, state.members);
      ghost var s := state.Value();
      RevalidateStructured(s, e);
      NoneChanged(s.members);
      KeysOf(s);
      var a := CheckAuthority(state.Value(), e.authority, true);
      if a.Denied? {
        return a.outcome;
      }
      var targets := e.members;
      if e.all {
        MemberOrder();
        targets := Sorted((set k | k in state.members && state.members[k].stamp.revalidationRequired), MemberLess);
      }
      var changed;
      changed, outcome := RevalidateTargets(targets, e.authority);
      EndRevalidation(a.publisher, outcome);
    }

    method EndRevalidation(publisher: Option<Text>, outcome: Outcome)
      requires state.Indexed()
      modifies state`generations, state`publishers, state`operatorPublication
      ensures state.Indexed()
      ensures state.Value() == RevalidationEnd(old(state.Value()), publisher, outcome)
    {
      hide RackState.Indexed, RackState.DomainIndexComplete, RackState.HasExactBuckets, Machine.AdvancePublication,
        Machine.NoteRejection;
      if outcome.Accepted? {
        SetGenerations(AdvanceMembership(state.Value()).generations);
        CountPublication(publisher);
      } else if !outcome.NoChange? {
        CountRejection(publisher);
      }
    }

    method CountPublication(publisher: Option<Text>)
      requires state.Indexed()
      modifies state`publishers, state`operatorPublication
      ensures state.Indexed()
      ensures state.Value() == Machine.AdvancePublication(old(state.Value()), publisher)
    {
      hide RackState.MembersIndexed, Agrees, DomainSound, DomainComplete, ExactBuckets, Shifted, DomainRefs,
        Machine.AdvancePublication;
      AdvancePublication(publisher);
    }

    method CountRejection(publisher: Option<Text>)
      requires state.Indexed()
      modifies state`publishers
      ensures state.Indexed()
      ensures state.Value() == Machine.NoteRejection(old(state.Value()), publisher)
    {
      hide RackState.MembersIndexed, Agrees, DomainSound, DomainComplete, ExactBuckets, Shifted, DomainRefs,
        Machine.NoteRejection;
      NoteRejection(publisher);
    }

    method SetGenerations(generations: GenerationSet)
      requires state.Indexed()
      modifies state`generations
      ensures state.Indexed()
      ensures state.Value() == old(state.Value()).(generations := generations)
    {
      hide RackState.MembersIndexed, Agrees, DomainSound, DomainComplete, ExactBuckets, Shifted, DomainRefs;
      state.generations := generations;
    }

    /** Orphans the members the owner index lists under a boot, which are all the members it owns. */
    method FenceOwned(boot: Text, reason: RevalidationReason)
      requires state.Indexed() && forall k :: k in state.members ==> state.members[k].key == k
      modifies state`members, state`membersByKind, state`membersByFailureDomain, state`membersByPowerDomain,
               state`membersByCoolingDomain, state`membersByOwnerBoot, state`childrenByParent
      ensures state.Indexed() && state.Moved(OwnedBy(old(state.members), {boot}))
      ensures state.members.Keys == old(state.members).Keys
      ensures forall k :: k in state.members ==>
                state.members[k] == FencedIfOwned(old(state.members)[k], boot, reason)
    {
      hide RackState.Indexed, FencedMember, Shifted, DomainRefs;
      NothingShifts(state.membersByFailureDomain, state.members, state.members);
      ghost var before, index, touched := state.members, state.membersByFailureDomain, {};
      OwnedAre(state, boot);
      var rest := if boot in state.membersByOwnerBoot then state.membersByOwnerBoot[boot] else {};
      ghost var owned := rest;
      assert owned == OwnedBy(before, {boot});
      FencingKeepsKeys();
      while rest != {}
        invariant rest <= owned && state.Indexed() && touched == owned - rest
        invariant Shifted(index, before, state.membersByFailureDomain, state.members, touched, {}, {})
        invariant DomainRefs(state.members) == DomainRefs(before)
        invariant state.members.Keys == before.Keys
        invariant forall k :: k in before ==>
                    state.members[k] == if k in rest then before[k] else FencedIfOwned(before[k], boot, reason)
        decreases rest
      {
        var key :| key in rest;
        assert key in state.members;
        state.Touch(FencedMember(state.members[key], reason), index, before, touched);
        touched := touched + {key};
        rest := rest - {key};
      }
      assert touched == owned;
    }

    /** Takes all authority from a registered boot. */
    method Revoke(boot: Text, reason: RevalidationReason, now: i64)
      requires state.Indexed() && boot in state.publishers
      modifies state`publishers, state`fencedBoots
      ensures state.Indexed()
      ensures state.Value() == old(state.Value()).(
                publishers := old(state.publishers)[boot := old(state.publishers)[boot].(state := PublisherState.Fenced)],
                fencedBoots := old(state.fencedBoots)[boot := FencedRecord(old(state.Value()), boot, now, reason)])
    {
      hide RackState.MembersIndexed, Agrees, DomainSound, DomainComplete, ExactBuckets, Shifted, DomainRefs;
      var p := state.publishers[boot];
      state.publishers := state.publishers[boot := p.(state := PublisherState.Fenced)];
      state.fencedBoots := state.fencedBoots[boot := FencedBootRecord(
        boot, Some(p.worker), state.generations.coordinatorEpoch, now, reason)];
    }

    method FencePlant(boot: Text)
      requires state.Indexed()
      modifies state`power, state`cooling, state`generations
      ensures state.Indexed()
      ensures state.Value() == AdvanceMembership(old(state.Value())).(
                power := if old(state.power).Some? then Some(FencedPower(old(state.power).value, boot)) else None,
                cooling := if old(state.cooling).Some? then Some(FencedCooling(old(state.cooling).value, boot)) else None)
    {
      hide RackState.MembersIndexed, Agrees, DomainSound, DomainComplete, ExactBuckets, Shifted, DomainRefs,
        FencedCooling, FencedPower;
      if state.power.Some? {
        state.power := Some(FencedPower(state.power.value, boot));
      }
      if state.cooling.Some? {
        state.cooling := Some(FencedCooling(state.cooling.value, boot));
      }
      state.generations := AdvanceMembership(state.Value()).generations;
    }

    method FenceRecords(boot: Text, reason: RevalidationReason)
      requires state.Indexed() && forall k :: k in state.members ==> state.members[k].key == k
      modifies state
      ensures state.Indexed() && state.Moved(OwnedBy(old(state.members), {boot}))
      ensures state.Value() == WithFencedRecords(old(state.Value()), boot, reason)
    {
      hide RackState.Indexed, RackState.DomainIndexComplete, RackState.HasExactBuckets, Shifted, DomainRefs,
        FencedIfOwned, FencedRelationship, FencedDomain, WithFencedRecords;
      ghost var s := state.Value();
      FenceOwned(boot, reason);
      FencingKeepsParents(boot);
      RewriteTopology(r => FencedRelationship(r, boot), d => FencedDomain(d, boot));
      FencedRecordsAre(s, boot, reason, state.Value());
    }

    method FenceBoot(boot: Text, reason: RevalidationReason, now: i64)
      requires state.Valid() && boot in state.publishers
      modifies state
      ensures state.Indexed() && state.Moved(OwnedBy(old(state.members), {boot}))
      ensures state.Value() == Machine.FenceBoot(old(state.Value()), boot, reason, now)
    {
      hide RackState.Indexed, RackState.DomainIndexComplete, RackState.HasExactBuckets, Shifted, DomainRefs, Structured,
        Machine.FenceBoot, FencedRecord, WithFencedRecords, FencedPower, FencedCooling, AdvanceMembership;
      ghost var s := state.Value();
      KeysOf(s);
      FenceBootIs(s, boot, reason, now);
      Revoke(boot, reason, now);
      FenceRecords(boot, reason);
      FencePlant(boot);
    }

    method FencePublisher(epoch: u64, boot: Option<Text>, reason: RevalidationReason, now: i64)
      returns (outcome: Outcome)
      requires state.Valid()
      modifies state
      ensures state.Valid()
      ensures Step(state.Value(), outcome) == FenceStep(old(state.Value()), epoch, boot, reason, now)
      ensures state.Moved(if outcome.Accepted? && boot.Some? then OwnedBy(old(state.members), {boot.value}) else {})
    {
      hide RackState.MembersIndexed, Agrees, DomainSound, DomainComplete, ExactBuckets, Shifted, DomainRefs, Structured,
        Machine.FenceBoot;
      NothingShifts(state.membersByFailureDomain, state.members, state.members);
      FenceStructured(state.Value(), epoch, boot, reason, now);
      if boot.None? {
        return RejectInvalidInput;
      }
      if epoch != state.generations.coordinatorEpoch {
        return RejectStaleCoordinatorEpoch;
      }
      if boot.value !in state.publishers {
        return if boot.value in state.fencedBoots then NoChange else RejectNotRegistered;
      }
      if state.publishers[boot.value].state.Fenced? {
        return NoChange;
      }
      FenceBoot(boot.value, reason, now);
      outcome := Accepted;
    }

    /** Fences the next of some boots: what it owns is touched as well. */
    method FenceNext(
      boots: seq<Text>, i: nat, now: i64, ghost index: map<Text, set<MemberKey>>,
      ghost before: map<MemberKey, MemberRecord>)
      requires state.Valid() && Waiting(state.Value(), before, boots, i) && i < |boots|
      requires Orphaned(index, before, state.membersByFailureDomain, state.members, boots, i)
      modifies state
      ensures state.Valid() && Waiting(state.Value(), before, boots, i + 1)
      ensures Orphaned(index, before, state.membersByFailureDomain, state.members, boots, i + 1)
      ensures state.failureDomains.Keys == old(state.failureDomains).Keys
      ensures Step(state.Value(), Accepted)
           == FenceStep(old(state.Value()), old(state.generations).coordinatorEpoch, Some(boots[i]), OwnerProcessLost, now)
    {
      hide RackState.Valid, FenceStep, Shifted, DomainRefs, Waiting, OwnedBy, StrictTotal, Orphaned;
      ghost var u, b, n := state.Value(), state.membersByFailureDomain, state.members;
      TextOrder();
      NextIsWaiting(u, before, boots, i, now);
      var outcome := FencePublisher(state.generations.coordinatorEpoch, Some(boots[i]), OwnerProcessLost, now);
      assert outcome.Accepted?;
      OrphanedNext(index, before, b, n, state.membersByFailureDomain, state.members, boots, i);
    }

    /** Fences every boot whose lease ran out, in the order of the publisher map. */
    method ExpirePublishers(now: i64) returns (outcome: Outcome)
      requires state.Valid()
      modifies state
      ensures state.Valid()
      ensures Step(state.Value(), outcome) == FenceEach(old(state.Value()), Expired(old(state.Value()), now), now)
      ensures state.Moved(OwnedBy(old(state.members), Expiring(old(state.Value()), now)))
    {
      hide RackState.Valid, FenceStep, StrictTotal, Shifted, DomainRefs, Waiting, OwnedBy, Ascends, Orphaned, Expiring;
      TextOrder();
      var expired := Sorted((set b | b in state.publishers && IsExpired(state.publishers[b], now)), TextLess);
      ghost var s, before, index := state.Value(), state.members, state.membersByFailureDomain;
      ExpiredAreWaiting(s, expired, now);
      NobodyOrphaned(index, before, expired);
      outcome := NoChange;
      for i := 0 to |expired|
        invariant state.Valid() && Waiting(state.Value(), before, expired, i)
        invariant Orphaned(index, before, state.membersByFailureDomain, state.members, expired, i)
        invariant state.failureDomains.Keys == old(state.failureDomains).Keys
        invariant var rest := FenceEach(state.Value(), expired[i..], now);
                  FenceEach(s, expired, now)
                  == Step(rest.state, if outcome.Accepted? then Accepted else rest.outcome)
        invariant outcome.Accepted? || outcome.NoChange?
      {
        assert expired[i..][0] == expired[i] && expired[i..][1..] == expired[i + 1..];
        FenceNext(expired, i, now, index, before);
        outcome := Accepted;
      }
      AllOrphaned(index, before, state.membersByFailureDomain, state.members, expired);
    }

    // ----- Runs -----

    method PerformOnMembers(e: Event, now: i64) returns (outcome: Outcome)
      requires state.Valid() && IsAboutMembers(e)
      modifies state
      ensures state.Valid()
      ensures Step(state.Value(), outcome) == Apply(env, old(state.Value()), e, now)
      ensures old(state.DomainIndexComplete()) ==>
                (state.DomainIndexComplete() <==> !(outcome.Accepted? && DropsBucket(old(state.Value()), e)))
      ensures old(state.HasExactBuckets()) ==>
                (state.HasExactBuckets() <==> !(outcome.Accepted? && LosesBucket(old(state.Value()), e)))
      ensures Follows(old(state.Value()), old(state.membersByFailureDomain), e, Step(state.Value(), outcome), now,
                      state.membersByFailureDomain)
    {
      hide Follows, Shifted, DomainRefs, RackState.Valid, DomainComplete, ExactBuckets, Declare, Register,
        PublishMemberStep, RelationshipStep, DomainStep, PowerStep, CoolingStep, HealthStep, CapabilityStep,
        WithdrawStep, WithdrawRelationshipStep, MarkUnavailableStep, RetireMemberStep, RetireRackStep, RevalidateStep,
        HeartbeatStep, FenceStep, FenceEach, Expired, SnapshotStep, IsNamed, KeepsNames;
      ghost var s, index := state.Value(), state.membersByFailureDomain;
      match e {
        case PublishMember(_, _, _, _) =>
          outcome := PublishMember(e);
          TouchesFollow(s, index, e, Step(state.Value(), outcome), now, state.membersByFailureDomain,
                        if outcome.Accepted? then {e.record.key} else {});
        case PublishHealth(_, _, _, _, _, _) =>
          outcome := PublishHealth(e);
          TouchesKeep(s, index, e, outcome, now, state, if outcome.Accepted? then {e.member} else {});
        case PublishCapability(_, _, _) =>
          outcome := PublishCapability(e);
          TouchesKeep(s, index, e, outcome, now, state, if outcome.Accepted? then {e.member} else {});
        case WithdrawEvidence(_, _, _) =>
          outcome := WithdrawEvidence(e);
          TouchesKeep(s, index, e, outcome, now, state, if outcome.Accepted? then {e.member} else {});
        case MarkUnavailable(_, _, _) =>
          outcome := MarkUnavailable(e);
          TouchesKeep(s, index, e, outcome, now, state, if outcome.Accepted? then {e.member} else {});
        case RevalidateMembers(_, _, _) =>
          outcome := RevalidateMembers(e);
          TouchesKeep(s, index, e, outcome, now, state, Changed(s.members, state.members));
      }
    }

    method PerformOnTopology(e: Event, now: i64) returns (outcome: Outcome)
      requires state.Valid() && IsAboutTopology(e)
      modifies state
      ensures state.Valid()
      ensures Step(state.Value(), outcome) == Apply(env, old(state.Value()), e, now)
      ensures old(state.DomainIndexComplete()) ==>
                (state.DomainIndexComplete() <==> !(outcome.Accepted? && DropsBucket(old(state.Value()), e)))
      ensures old(state.HasExactBuckets()) ==>
                (state.HasExactBuckets() <==> !(outcome.Accepted? && LosesBucket(old(state.Value()), e)))
      ensures Follows(old(state.Value()), old(state.membersByFailureDomain), e, Step(state.Value(), outcome), now,
                      state.membersByFailureDomain)
    {
      hide Follows, Shifted, DomainRefs, RackState.Valid, DomainComplete, ExactBuckets, Declare, Register,
        PublishMemberStep, RelationshipStep, DomainStep, PowerStep, CoolingStep, HealthStep, CapabilityStep,
        WithdrawStep, WithdrawRelationshipStep, MarkUnavailableStep, RetireMemberStep, RetireRackStep, RevalidateStep,
        HeartbeatStep, FenceStep, FenceEach, Expired, SnapshotStep, IsNamed, KeepsNames;
      ghost var s, index := state.Value(), state.membersByFailureDomain;
      match e {
        case PublishRelationship(_, _, _) =>
          outcome := PublishRelationship(e);
          TouchesKeep(s, index, e, outcome, now, state, {});
        case PublishFailureDomain(_, _, _) =>
          outcome := PublishFailureDomain(e);
          PublicationFollows(s, index, e, Step(state.Value(), outcome), now, state.membersByFailureDomain);
        case WithdrawRelationship(_, _) =>
          outcome := WithdrawRelationship(e);
          TouchesKeep(s, index, e, outcome, now, state, {});
        case PublishPower(_, _, _) =>
          outcome := PublishPower(e, now);
          TouchesKeep(s, index, e, outcome, now, state, {});
        case PublishCooling(_, _, _) =>
          outcome := PublishCooling(e, now);
          TouchesKeep(s, index, e, outcome, now, state, {});
        case PublishSnapshot(_) =>
          outcome := PublishSnapshot(e, now);
          TouchesKeep(s, index, e, outcome, now, state, {});
      }
    }

    method PerformOnAuthority(e: Event, now: i64) returns (outcome: Outcome)
      requires state.Valid() && !IsAboutMembers(e) && !IsAboutTopology(e)
      modifies state
      ensures state.Valid()
      ensures Step(state.Value(), outcome) == Apply(env, old(state.Value()), e, now)
      ensures old(state.DomainIndexComplete()) ==>
                (state.DomainIndexComplete() <==> !(outcome.Accepted? && DropsBucket(old(state.Value()), e)))
      ensures old(state.HasExactBuckets()) ==>
                (state.HasExactBuckets() <==> !(outcome.Accepted? && LosesBucket(old(state.Value()), e)))
      ensures Follows(old(state.Value()), old(state.membersByFailureDomain), e, Step(state.Value(), outcome), now,
                      state.membersByFailureDomain)
    {
      hide Follows, Shifted, DomainRefs, RackState.Valid, DomainComplete, ExactBuckets, Declare, Register,
        PublishMemberStep, RelationshipStep, DomainStep, PowerStep, CoolingStep, HealthStep, CapabilityStep,
        WithdrawStep, WithdrawRelationshipStep, MarkUnavailableStep, RetireMemberStep, RetireRackStep, RevalidateStep,
        HeartbeatStep, FenceStep, FenceEach, Expired, SnapshotStep, IsNamed, KeepsNames;
      ghost var s, index := state.Value(), state.membersByFailureDomain;
      match e {
        case RegisterPublisher(_, _, _, _, _) =>
          outcome := RegisterPublisher(e, now);
          TouchesKeep(s, index, e, outcome, now, state, {});
        case DeclareRack(_, _, _, _) =>
          outcome := DeclareRack(e, now);
          TouchesKeep(s, index, e, outcome, now, state, {});
        case RetireMember(_, _) =>
          outcome := RetireMember(e);
          TouchesKeep(s, index, e, outcome, now, state,
                      if outcome.Accepted? then Children(s.members, e.member) + {e.member} else {});
        case RetireRack(_) =>
          outcome := RetireRack(e, now);
          TouchesKeep(s, index, e, outcome, now, state, {});
        case Heartbeat(_) =>
          outcome := Heartbeat(e, now);
          TouchesKeep(s, index, e, outcome, now, state, {});
        case FencePublisher(epoch, boot, reason) =>
          outcome := FencePublisher(epoch, boot, reason, now);
          TouchesKeep(s, index, e, outcome, now, state,
                      if outcome.Accepted? && boot.Some? then OwnedBy(s.members, {boot.value}) else {});
        case ExpirePublishers =>
          outcome := ExpirePublishers(now);
          TouchesKeep(s, index, e, outcome, now, state, OwnedBy(s.members, Expiring(s, now)));
      }
    }

    method Perform(e: Event, now: i64) returns (outcome: Outcome)
      requires state.Valid()
      modifies state
      ensures state.Valid()
      ensures Step(state.Value(), outcome) == Apply(env, old(state.Value()), e, now)
      ensures old(state.DomainIndexComplete()) ==>
                (state.DomainIndexComplete() <==> !(outcome.Accepted? && DropsBucket(old(state.Value()), e)))
      ensures old(state.HasExactBuckets()) ==>
                (state.HasExactBuckets() <==> !(outcome.Accepted? && LosesBucket(old(state.Value()), e)))
      ensures Follows(old(state.Value()), old(state.membersByFailureDomain), e, Step(state.Value(), outcome), now,
                      state.membersByFailureDomain)
    {
      hide Follows, RackState.Valid, RackState.DomainIndexComplete, RackState.HasExactBuckets, Apply, DropsBucket,
        LosesBucket;
      if IsAboutMembers(e) {
        outcome := PerformOnMembers(e, now);
      } else if IsAboutTopology(e) {
        outcome := PerformOnTopology(e, now);
      } else {
        outcome := PerformOnAuthority(e, now);
      }
    }

    /**
     * A whole run: the records end where the steps on values end. From complete member buckets on, those are complete
     * exactly when no member was forgotten, and from exact ones on they are exact exactly when nothing was lost.
     */
    method Replay(run: seq<Timed>)
      requires state.Valid()
      modifies state
      ensures state.Valid()
      ensures state.Value() == At(env, old(state.Value()), run, |run|)
      ensures old(state.DomainIndexComplete()) ==>
                (state.DomainIndexComplete() <==> NoneForgotten(env, old(state.Value()), run, |run|))
      ensures old(state.HasExactBuckets()) ==>
                (state.HasExactBuckets() <==> NothingLost(env, old(state.Value()), run, |run|))
    {
      hide RackState.Valid, Apply, DropsBucket, LosesBucket, Follows, ListsAgree, BucketsAgree, NoneForgotten,
        NothingLost, DomainComplete, ExactBuckets, DomainSound;
      ghost var s, index := state.Value(), state.membersByFailureDomain;
      ghost var complete, exact := DomainComplete(index, s.members), ExactBuckets(index, s.members, s.failureDomains);
      AgreeAtFirst(env, s, run, index);
      for i := 0 to |run|
        invariant state.Valid() && state.Value() == At(env, s, run, i)
        invariant complete ==> ListsAgree(env, s, run, i, state.membersByFailureDomain)
        invariant exact ==> BucketsAgree(env, s, run, i, state.membersByFailureDomain)
      {
        ghost var before := state.membersByFailureDomain;
        var outcome := Perform(run[i].event, run[i].now);
        assert Step(state.Value(), outcome) == StepAt(env, s, run, i);
        assert At(env, s, run, i + 1) == StepAt(env, s, run, i).state;
        AgreeNext(env, s, run, i, before, state.membersByFailureDomain);
      }
      SoundBuckets(state);
      if exact {
        ExactParts(index, s.members, s.failureDomains);
      }
      ReplayedBuckets(env, s, run, state.membersByFailureDomain);
    }
  }

  lemma AgreeNext(
    env: Env, s: Core, run: seq<Timed>, n: nat, a: map<Text, set<MemberKey>>, b: map<Text, set<MemberKey>>)
    requires n < |run| && Follows(At(env, s, run, n), a, run[n].event, StepAt(env, s, run, n), run[n].now, b)
    ensures ListsAgree(env, s, run, n, a) ==> ListsAgree(env, s, run, n + 1, b)
    ensures BucketsAgree(env, s, run, n, a) ==> BucketsAgree(env, s, run, n + 1, b)
  {
    hide Apply, Follows, ListsAgree, BucketsAgree;
    if ListsAgree(env, s, run, n, a) {
      ListsAgreeNext(env, s, run, n, a, b);
    }
    if BucketsAgree(env, s, run, n, a) {
      BucketsAgreeNext(env, s, run, n, a, b);
    }
  }

  lemma ReplayedBuckets(env: Env, s: Core, run: seq<Timed>, b: map<Text, set<MemberKey>>)
    ensures ListsAgree(env, s, run, |run|, b) ==>
              (DomainComplete(b, At(env, s, run, |run|).members) <==> NoneForgotten(env, s, run, |run|))
    ensures ListsAgree(env, s, run, |run|, b) && BucketsAgree(env, s, run, |run|, b)
            && DomainSound(b, At(env, s, run, |run|).members) ==>
              (ExactBuckets(b, At(env, s, run, |run|).members, At(env, s, run, |run|).failureDomains) <==>
               NothingLost(env, s, run, |run|))
  {
    hide Apply, ListsAgree, BucketsAgree, NoneForgotten, NothingLost, DomainComplete, ExactBuckets, DomainSound;
    if ListsAgree(env, s, run, |run|, b) {
      CompleteIffNoneForgotten(env, s, run, |run|, b);
      if BucketsAgree(env, s, run, |run|, b) && DomainSound(b, At(env, s, run, |run|).members) {
        ExactIffNothingLost(env, s, run, |run|, b);
      }
    }
  }

  lemma SoundBuckets(state: RackState)
    requires state.Valid()
    ensures DomainSound(state.membersByFailureDomain, state.Value().members)
  {
    hide RackState.MembersIndexed, Agrees, DomainSound, Structured;
  }

  /** What a touch of members means for the buckets. */
  lemma TouchesKeep(
    s: Core, a: map<Text, set<MemberKey>>, e: Event, outcome: Outcome, now: i64, state: RackState, touched: set<MemberKey>)
    requires state.Valid() && !e.PublishFailureDomain?
    requires Shifted(a, s.members, state.membersByFailureDomain, state.members, touched, {}, {})
    requires DomainRefs(state.members) == DomainRefs(s.members) && state.failureDomains.Keys == s.failureDomains.Keys
    requires touched == Touched(s, e, Step(state.Value(), outcome), now)
    ensures Follows(s, a, e, Step(state.Value(), outcome), now, state.membersByFailureDomain)
    ensures DomainComplete(a, s.members) ==> state.DomainIndexComplete()
    ensures ExactBuckets(a, s.members, s.failureDomains) ==> state.HasExactBuckets()
  {
    hide Follows, Touched, Shifted, DomainRefs, RackState.Valid, DomainSound, DomainComplete, ExactBuckets;
    SoundBuckets(state);
    TouchesFollow(s, a, e, Step(state.Value(), outcome), now, state.membersByFailureDomain, touched);
    ShiftedKeeps(a, s.members, state.membersByFailureDomain, state.members, touched, s.failureDomains,
                 state.failureDomains);
  }

  /** From `i` on the boots are registered and not fenced, and the members are owned as in `m`. */
  ghost predicate Waiting(u: Core, m: map<MemberKey, MemberRecord>, boots: seq<Text>, i: nat) {
    && i <= |boots| && Ascends(boots, TextLess)
    && (forall j :: i <= j < |boots| ==> boots[j] in u.publishers && !u.publishers[boots[j]].state.Fenced?)
    && u.members.Keys == m.Keys && forall k :: k in m ==> u.members[k].ownerBoot == m[k].ownerBoot
  }

  lemma ExpiredAreWaiting(s: Core, boots: seq<Text>, now: i64)
    requires StrictTotal(TextLess) && boots == Expired(s, now)
    ensures Waiting(s, s.members, boots, 0) && ToSet(boots) == Expiring(s, now)
  {
    hide StrictTotal, Ascends;
    forall j | 0 <= j < |boots|
      ensures boots[j] in s.publishers && !s.publishers[boots[j]].state.Fenced?
    {
      assert boots[j] in boots;
    }
  }

  /** Fencing the next boot is accepted, touches what it owns, and leaves the others waiting. */
  lemma NextIsWaiting(u: Core, m: map<MemberKey, MemberRecord>, boots: seq<Text>, i: nat, now: i64)
    requires Waiting(u, m, boots, i) && i < |boots| && StrictTotal(TextLess)
    ensures var step := FenceStep(u, u.generations.coordinatorEpoch, Some(boots[i]), OwnerProcessLost, now);
            step.outcome.Accepted? && Waiting(step.state, m, boots, i + 1)
    ensures OwnedBy(u.members, {boots[i]}) == OwnedBy(m, {boots[i]})
  {
    hide StrictTotal, FencedRelationship, FencedDomain, FencedPower, FencedCooling, FencedRecord;
    var t := FenceBoot(u, boots[i], OwnerProcessLost, now);
    forall j | i + 1 <= j < |boots|
      ensures boots[j] in t.publishers && !t.publishers[boots[j]].state.Fenced?
    {
      LessIsOther(boots, i, j);
    }
  }

  lemma LessIsOther(boots: seq<Text>, i: nat, j: nat)
    requires StrictTotal(TextLess) && Ascends(boots, TextLess) && i < j < |boots|
    ensures boots[i] != boots[j]
  {
    assert TextLess(boots[i], boots[j]);
  }

  lemma NoneChanged(m: map<MemberKey, MemberRecord>)
    ensures Changed(m, m) == {}
  {
  }

  lemma OwnedByNobody(m: map<MemberKey, MemberRecord>)
    ensures OwnedBy(m, {}) == {}
  {
  }

  /** What the first `i` boots own was touched since the members were `m`. */
  ghost predicate Orphaned(
    a: map<Text, set<MemberKey>>, m: map<MemberKey, MemberRecord>, b: map<Text, set<MemberKey>>,
    n: map<MemberKey, MemberRecord>, boots: seq<Text>, i: nat)
  {
    && i <= |boots| && DomainRefs(n) == DomainRefs(m)
    && Shifted(a, m, b, n, OwnedBy(m, ToSet(boots[..i])), {}, {})
  }

  lemma NobodyOrphaned(a: map<Text, set<MemberKey>>, m: map<MemberKey, MemberRecord>, boots: seq<Text>)
    ensures Orphaned(a, m, a, m, boots, 0)
  {
    hide Shifted, DomainRefs;
    assert ToSet(boots[..0]) == {};
    OwnedByNobody(m);
    NothingShifts(a, m, m);
  }

  lemma OrphanedNext(
    a: map<Text, set<MemberKey>>, m: map<MemberKey, MemberRecord>, b: map<Text, set<MemberKey>>,
    n: map<MemberKey, MemberRecord>, c: map<Text, set<MemberKey>>, o: map<MemberKey, MemberRecord>,
    boots: seq<Text>, i: nat)
    requires i < |boots| && Orphaned(a, m, b, n, boots, i) && DomainRefs(o) == DomainRefs(n)
    requires Shifted(b, n, c, o, OwnedBy(m, {boots[i]}), {}, {})
    ensures Orphaned(a, m, c, o, boots, i + 1)
  {
    hide Shifted, DomainRefs, OwnedBy;
    var fenced := ToSet(boots[..i]);
    ToSetExtends(boots, i);
    OwnedByOneMore(m, fenced, boots[i]);
    ShiftedTwice(a, m, b, n, c, o, OwnedBy(m, fenced), OwnedBy(m, {boots[i]}));
  }

  lemma AllOrphaned(
    a: map<Text, set<MemberKey>>, m: map<MemberKey, MemberRecord>, b: map<Text, set<MemberKey>>,
    n: map<MemberKey, MemberRecord>, boots: seq<Text>)
    requires Orphaned(a, m, b, n, boots, |boots|)
    ensures DomainRefs(n) == DomainRefs(m) && Shifted(a, m, b, n, OwnedBy(m, ToSet(boots)), {}, {})
  {
    hide Shifted, DomainRefs, OwnedBy;
    assert boots[..|boots|] == boots;
  }

  lemma OwnedByOneMore(m: map<MemberKey, MemberRecord>, boots: set<Text>, b: Text)
    ensures OwnedBy(m, boots + {b}) == OwnedBy(m, boots) + OwnedBy(m, {b})
  {
  }

  ghost predicate NoneLowered(m: map<MemberKey, MemberRecord>, n: map<MemberKey, MemberRecord>) {
    n.Keys == m.Keys && forall k :: k in m ==> m[k].generation <= n[k].generation
  }

  lemma RaisedIsChanged(m: map<MemberKey, MemberRecord>, n: map<MemberKey, MemberRecord>, k: MemberKey, r: MemberRecord)
    requires NoneLowered(m, n) && k in n && n[k].generation < r.generation
    ensures Changed(m, n[k := r]) == Changed(m, n) + {k} && NoneLowered(m, n[k := r])
  {
  }

  lemma CommittedKey(s: Core, token: AuthorityToken, publisher: Option<Text>, r: MemberRecord, generation: u64)
    ensures Committed(s, token, publisher, Normalized(r), generation).key == r.key
    ensures Committed(s, token, publisher, Normalized(r), generation).failureDomains == r.failureDomains
  {
  }

  lemma UpdateGenerations(s: Core, publisher: Option<Text>, r: MemberRecord)
    ensures Update(s, publisher, r).generations == s.generations
  {
  }

  lemma LeastIsUnique<T(!new)>(s: set<T>, less: (T, T) -> bool, m: T)
    requires StrictTotal(less) && IsLeast(s, less, m)
    ensures m == Least(s, less)
  {
    var other := Least(s, less);
    assert m == other || less(m, other);
  }

  lemma RedeclaredIs(
    s: Core, epoch: Text, labelText: Option<Text>, generation: u64, now: i64, members: map<MemberKey, MemberRecord>,
    relationships: map<RelationshipKey, RelationshipRecord>, domains: map<Text, FailureDomainRecord>)
    requires s.rack.Some?
    requires members.Keys == s.members.Keys
    requires forall k :: k in members ==> members[k] == s.members[k].Revalidate(true, RevalidationReason.Superseded)
    requires relationships.Keys == s.relationships.Keys
    requires forall k :: k in relationships ==>
               relationships[k] == s.relationships[k].(stamp := s.relationships[k].stamp.(revalidationRequired := true))
    requires domains.Keys == s.failureDomains.Keys
    requires forall d :: d in domains ==>
               domains[d] == s.failureDomains[d].(stamp := s.failureDomains[d].stamp.(revalidationRequired := true))
    ensures var rack := s.rack.value.(epoch := epoch, generation := generation, labelText := labelText,
                                      declaredAt := now);
            Redeclared(s, epoch, labelText, generation, now)
            == s.(rack := Some(rack), members := members, relationships := relationships, failureDomains := domains,
                  generations := s.generations.(rack := generation))
  {
    var t := Redeclared(s, epoch, labelText, generation, now);
    assert t.members == members && t.relationships == relationships && t.failureDomains == domains;
  }

  lemma RetiredMemberIs(
    s: Core, member: MemberKey, r: MemberRecord, remaining: map<RelationshipKey, RelationshipRecord>)
    requires remaining == Untouched(s.relationships, member)
    ensures var g := s.generations;
            RetiredMember(s, member, r)
            == s.(members := DetachedMembers(s.members, member)[member := r], relationships := remaining,
                  generations := g.(membership := Advance(g.membership),
                                    topology := if remaining != s.relationships then Advance(g.topology) else g.topology))
  {
  }

  lemma RetiredRackIs(
    s: Core, generation: u64, now: i64, members: map<MemberKey, MemberRecord>,
    publishers: map<Text, PublisherRecord>, fenced: map<Text, FencedBootRecord>)
    requires s.rack.Some?
    requires members.Keys == s.members.Keys && forall k :: k in members ==> members[k] == LeftByRack(s.members[k])
    requires publishers.Keys == s.publishers.Keys
    requires forall b :: b in publishers ==> publishers[b] == s.publishers[b].(state := PublisherState.Lost)
    requires fenced.Keys == s.fencedBoots.Keys + publishers.Keys
    requires forall b :: b in fenced ==>
               fenced[b] == if b in publishers then FencedRecord(s, b, now, RevalidationReason.Superseded)
                            else s.fencedBoots[b]
    ensures RetiredRack(s, generation, now)
         == s.(rack := Some(s.rack.value.(retired := true, generation := generation)),
               generations := s.generations.(rack := generation),
               members := members, publishers := publishers, fencedBoots := fenced)
  {
    hide LeftByRack, FencedRecord;
    var t := RetiredRack(s, generation, now);
    assert t.members == members;
    assert t.publishers == publishers;
    var added := map b | b in s.publishers :: FencedRecord(s, b, now, RevalidationReason.Superseded);
    assert added.Keys == publishers.Keys;
    assert t.fencedBoots == s.fencedBoots + added == fenced;
  }

  function FencedIfOwned(r: MemberRecord, boot: Text, reason: RevalidationReason): MemberRecord {
    if r.ownerBoot == Some(boot) then FencedMember(r, reason) else r
  }

  lemma FencingKeepsKeys()
    ensures forall r, reason :: FencedMember(r, reason).key == r.key
                             && FencedMember(r, reason).failureDomains == r.failureDomains
  {
  }

  /** The owner index is complete, so fencing a boot misses none of its members. */
  lemma OwnedAre(state: RackState, boot: Text)
    requires state.Indexed()
    ensures var owned := if boot in state.membersByOwnerBoot then state.membersByOwnerBoot[boot] else {};
            forall k :: k in owned <==> k in state.members && state.members[k].ownerBoot == Some(boot)
  {
    var owned := if boot in state.membersByOwnerBoot then state.membersByOwnerBoot[boot] else {};
    forall k
      ensures k in owned <==> k in state.members && state.members[k].ownerBoot == Some(boot)
    {
      assert Listed(state.membersByOwnerBoot, boot, k) <==> Refers(OwnerRefs(state.members), k, boot);
    }
  }

  lemma FencingKeepsParents(boot: Text)
    ensures forall d :: FencedDomain(d, boot).parents == d.parents
  {
  }

  function WithFencedRecords(s: Core, boot: Text, reason: RevalidationReason): Core {
    s.(members := map k | k in s.members ::
         if s.members[k].ownerBoot == Some(boot) then FencedMember(s.members[k], reason) else s.members[k],
       relationships := map k | k in s.relationships :: FencedRelationship(s.relationships[k], boot),
       failureDomains := map d | d in s.failureDomains :: FencedDomain(s.failureDomains[d], boot))
  }

  lemma FencedRecordsAre(s: Core, boot: Text, reason: RevalidationReason, t: Core)
    requires t == s.(members := t.members, relationships := t.relationships, failureDomains := t.failureDomains)
    requires t.members.Keys == s.members.Keys
    requires forall k :: k in t.members ==> t.members[k] == FencedIfOwned(s.members[k], boot, reason)
    requires t.relationships.Keys == s.relationships.Keys
    requires forall k :: k in t.relationships ==> t.relationships[k] == FencedRelationship(s.relationships[k], boot)
    requires t.failureDomains.Keys == s.failureDomains.Keys
    requires forall d :: d in t.failureDomains ==> t.failureDomains[d] == FencedDomain(s.failureDomains[d], boot)
    ensures t == WithFencedRecords(s, boot, reason)
  {
    hide FencedRelationship, FencedDomain, FencedMember;
    var u := WithFencedRecords(s, boot, reason);
    assert t.members == u.members && t.relationships == u.relationships && t.failureDomains == u.failureDomains;
  }

  /** Fencing is revoking the boot, orphaning its records, and dropping its live envelope readings. */
  lemma FenceBootIs(s: Core, boot: Text, reason: RevalidationReason, now: i64)
    requires boot in s.publishers
    ensures var revoked := s.(
              publishers := s.publishers[boot := s.publishers[boot].(state := PublisherState.Fenced)],
              fencedBoots := s.fencedBoots[boot := FencedRecord(s, boot, now, reason)]);
            FenceBoot(s, boot, reason, now)
            == AdvanceMembership(WithFencedRecords(revoked, boot, reason)).(
                 power := if s.power.Some? then Some(FencedPower(s.power.value, boot)) else None,
                 cooling := if s.cooling.Some? then Some(FencedCooling(s.cooling.value, boot)) else None)
    ensures forall t :: WithFencedRecords(t, boot, reason).power == t.power
                     && WithFencedRecords(t, boot, reason).cooling == t.cooling
  {
    hide FencedRelationship, FencedDomain, FencedMember, FencedRecord, FencedPower, FencedCooling;
  }

  predicate IsAboutMembers(e: Event) {
    || e.PublishMember? || e.PublishHealth? || e.PublishCapability? || e.WithdrawEvidence? || e.MarkUnavailable?
    || e.RevalidateMembers?
  }

  predicate IsAboutTopology(e: Event) {
    || e.PublishRelationship? || e.PublishFailureDomain? || e.WithdrawRelationship? || e.PublishPower?
    || e.PublishCooling? || e.PublishSnapshot?
  }

  /** The request publishes a known domain again although members name it: they are no longer listed under it. */
  ghost predicate DropsBucket(s: Core, e: Event) {
    e.PublishFailureDomain? && e.domain.id in s.failureDomains && IsNamed(s.members, e.domain.id)
  }

  /** The request drops a bucket, or takes the last name of a known domain out of the record it replaces. */
  ghost predicate LosesBucket(s: Core, e: Event) {
    DropsBucket(s, e) || (e.PublishMember? && !KeepsNames(s.members, e.record, s.failureDomains))
  }

  /**
   * Maintained indexes are the ones a rebuild of the same records yields: seven are equal, and the failure-domain
   * buckets agree on every lookup as long as both are complete.
   */
  lemma IndexesAreDetermined(a: RackState, b: RackState)
    requires a.Indexed() && b.Indexed()
    requires a.members == b.members && a.relationships == b.relationships && a.failureDomains == b.failureDomains
    ensures a.relationshipsByMember == b.relationshipsByMember && a.membersByKind == b.membersByKind
    ensures a.membersByPowerDomain == b.membersByPowerDomain && a.membersByCoolingDomain == b.membersByCoolingDomain
    ensures a.membersByOwnerBoot == b.membersByOwnerBoot && a.childrenByParent == b.childrenByParent
    ensures a.childrenByDomain == b.childrenByDomain
    ensures a.DomainIndexComplete() && b.DomainIndexComplete() ==>
              forall d, k {:trigger Listed(a.membersByFailureDomain, d, k)} ::
                Listed(a.membersByFailureDomain, d, k) <==> Listed(b.membersByFailureDomain, d, k)
  {
    hide Agrees;
    AgreementIsUnique(a.relationshipsByMember, b.relationshipsByMember, EndpointRefs(a.relationships));
    AgreementIsUnique(a.membersByKind, b.membersByKind, KindRefs(a.members));
    AgreementIsUnique(a.membersByPowerDomain, b.membersByPowerDomain, PowerRefs(a.members));
    AgreementIsUnique(a.membersByCoolingDomain, b.membersByCoolingDomain, CoolingRefs(a.members));
    AgreementIsUnique(a.membersByOwnerBoot, b.membersByOwnerBoot, OwnerRefs(a.members));
    AgreementIsUnique(a.childrenByParent, b.childrenByParent, ParentRefs(a.members));
    AgreementIsUnique(a.childrenByDomain, b.childrenByDomain, DomainParentRefs(a.failureDomains));
    if a.DomainIndexComplete() && b.DomainIndexComplete() {
      forall d, k
        ensures Listed(a.membersByFailureDomain, d, k) <==> Listed(b.membersByFailureDomain, d, k)
      {
        assert Listed(a.membersByFailureDomain, d, k) <==> Refers(DomainRefs(a.members), k, d);
        assert Listed(b.membersByFailureDomain, d, k) <==> Refers(DomainRefs(b.members), k, d);
      }
    }
  }

  function RevalidationEnd(s: Core, publisher: Option<Text>, outcome: Outcome): Core {
    if outcome.Accepted? then Machine.AdvancePublication(AdvanceMembership(s), publisher)
    else if outcome.NoChange? then s
    else Machine.NoteRejection(s, publisher)
  }

  lemma RetirementKey(r: MemberRecord)
    ensures Retirement(r).key == r.key && Retirement(r).failureDomains == r.failureDomains
  {
  }

  lemma DetachedKeys(members: map<MemberKey, MemberRecord>, parent: MemberKey)
    requires forall k :: k in members ==> members[k].key == k
    ensures DetachedMembers(members, parent).Keys == members.Keys
    ensures forall k :: k in members ==>
              && DetachedMembers(members, parent)[k].key == k
              && DetachedMembers(members, parent)[k].failureDomains == members[k].failureDomains
  {
  }

  lemma LeavingKeeps()
    ensures forall r: MemberRecord :: SameReferences(r, LeftByRack(r))
  {
  }

  lemma TouchingAre(
    index: map<MemberKey, set<RelationshipKey>>, relationships: map<RelationshipKey, RelationshipRecord>,
    member: MemberKey)
    requires Agrees(index, EndpointRefs(relationships))
    ensures var touching := if member in index then index[member] else {};
            forall k :: k in touching <==> k in relationships && Touches(k, member)
  {
    var touching := if member in index then index[member] else {};
    forall k
      ensures k in touching <==> k in relationships && Touches(k, member)
    {
      assert Listed(index, member, k) <==> Refers(EndpointRefs(relationships), k, member);
    }
  }

  lemma Concluded(s: Core, publisher: Option<Text>, o: Outcome, committed: Core)
    ensures o.Accepted? ==> Conclude(s, publisher, o, committed) == Step(committed, Accepted)
  {
  }
}
