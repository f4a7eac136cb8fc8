/** What accepted mutations do to the records, as their callers see it. */
module Effects {
  import opened Wrappers
  import opened Evidence
  import opened Model
  import opened Ordering
  import opened Graph
  import opened RackReadiness
  import opened Machine
  import Facts = Progress
  import opened Structure
  import opened Runs
  import opened Fences

  // ----- Relationship keys -----

  /** Both keys name one relationship: they are equal, or the same symmetric relationship read from either end. */
  predicate SameRelationship(a: RelationshipKey, b: RelationshipKey) {
    a == b || (a.cls == b.cls && IsSymmetric(a.cls) && a.from == b.to && a.to == b.from)
  }

  /** The directed classes: all others read the same from either end. */
  lemma DirectedClasses(c: RelationshipClass)
    ensures !IsSymmetric(c) <==>
              c.Contains? || c.AttachedTo? || c.ReachableThrough? || c.StorageLocal? || c.NicLocal?
  {
  }

  /** Canonical keys are equal exactly when the keys name one relationship. */
  lemma CanonicalKeysMeet(a: RelationshipKey, b: RelationshipKey)
    ensures Canonical(a) == Canonical(b) <==> SameRelationship(a, b)
    ensures Canonical(Canonical(a)) == Canonical(a) && SameRelationship(a, Canonical(a))
  {
    MemberOrder();
    assert MemberLess(a.from, a.to) || a.from == a.to || MemberLess(a.to, a.from);
    assert MemberLess(b.from, b.to) || b.from == b.to || MemberLess(b.to, b.from);
    assert MemberLess(a.to, a.from) ==> !MemberLess(a.from, a.to);
    assert MemberLess(b.to, b.from) ==> !MemberLess(b.from, b.to);
    hide StrictTotal, MemberLess;
  }

  /** A relationship published from either end is stored once. */
  lemma EitherEndIsStoredOnce(s: Core, limits: Limits, e: Event, f: Event)
    requires e.PublishRelationship? && f.PublishRelationship?
    requires f == e.(relationship := e.relationship.(key := f.relationship.key))
    requires SameRelationship(e.relationship.key, f.relationship.key)
    ensures RelationshipStep(s, limits, e) == RelationshipStep(s, limits, f)
  {
    CanonicalKeysMeet(e.relationship.key, f.relationship.key);
    hide Canonical, Machine.JudgeRelationship, CommitRelationship, CheckAuthority, Conclude;
    var r := e.relationship.(key := Canonical(e.relationship.key));
    SameJudgement(s, limits, e, f, r);
  }

  lemma SameJudgement(s: Core, limits: Limits, e: Event, f: Event, r: RelationshipRecord)
    requires e.PublishRelationship? && f.PublishRelationship?
    requires e.authority == f.authority && e.expectedGeneration == f.expectedGeneration
    ensures JudgeRelationship(s, limits, e, r) == JudgeRelationship(s, limits, f, r)
  {
    hide Reaches;
  }

  // ----- Members -----

  /** Everything but one member is as before. */
  ghost predicate OthersKept(s: Core, t: Core, k: MemberKey) {
    && t.members.Keys == s.members.Keys + {k}
    && (forall j :: j in s.members && j != k ==> t.members[j] == s.members[j])
    && t.relationships == s.relationships && t.failureDomains == s.failureDomains
    && t.power == s.power && t.cooling == s.cooling && t.fencedBoots == s.fencedBoots && t.snapshots == s.snapshots
    && t.rack == s.rack && t.snapshotGeneration == s.snapshotGeneration
  }

  lemma EndingKeepsRecords(u: Core, publisher: Option<Text>)
    ensures var t := AdvancePublication(u, publisher);
            t == u.(publishers := t.publishers, operatorPublication := t.operatorPublication)
  {
  }

  /** An accepted request moves the publication of the operator, or of the process it came from, which is then active. */
  ghost predicate Counted(s: Core, token: AuthorityToken, t: Core) {
    match token.boot
    case None => t.publishers == s.publishers && t.operatorPublication == Advance(s.operatorPublication)
    case Some(b) =>
      && t.operatorPublication == s.operatorPublication && b in s.publishers
      && t.publishers == s.publishers[b := s.publishers[b].(
           publicationGeneration := Advance(s.publishers[b].publicationGeneration), state := PublisherState.Active,
           acceptedMutations := (s.publishers[b].acceptedMutations + 1) % 0x1_0000_0000_0000_0000)]
  }

  lemma EndingIsCounted(s: Core, token: AuthorityToken, u: Core, publisher: Option<Text>)
    requires u.publishers == s.publishers && u.operatorPublication == s.operatorPublication
    requires publisher == token.boot && (publisher.Some? ==> publisher.value in s.publishers)
    ensures Counted(s, token, AdvancePublication(u, publisher))
  {
  }

  lemma OnlyAccepted(s: Core, publisher: Option<Text>, o: Outcome, committed: Core)
    requires Conclude(s, publisher, o, committed).outcome.Accepted?
    ensures o.Accepted? && Conclude(s, publisher, o, committed).state == committed
  {
  }

  /**
   * An accepted publication stores the record that was sent, under the process that sent it and the next or requested
   * generation, with references that exist; a retired member is stored without live evidence. Nothing else changes.
   */
  lemma MemberIsWhatWasPublished(s: Core, limits: Limits, e: Event, at: i64)
    requires e.PublishMember? && PublishMemberStep(s, limits, e).outcome.Accepted?
    ensures var t, k := PublishMemberStep(s, limits, e).state, e.record.key;
            && OthersKept(s, t, k) && Counted(s, e.authority, t)
            && t.generations == s.generations.(
                 membership := Advance(s.generations.membership),
                 health := if s.generations.health == 0 then 1 else s.generations.health,
                 capabilities := if s.generations.capabilities == 0 then 1 else s.generations.capabilities)
            && (!e.record.lifecycle.Retired? ==> t.members[k] == AsStored(t.members[k], e.record))
            && (e.record.lifecycle.Retired? ==>
                  && SameButEvidence(t.members[k], AsStored(t.members[k], e.record))
                  && !t.members[k].stamp.IsFreshAt(at) && !t.members[k].health.stamp.IsFreshAt(at)
                  && !t.members[k].readiness.stamp.IsFreshAt(at) && !t.members[k].reachability.stamp.IsFreshAt(at))
    ensures var t, k := PublishMemberStep(s, limits, e).state, e.record.key;
            var previous := if k in s.members then s.members[k].generation else 0;
            && t.members[k].generation == (if e.record.generation > previous then e.record.generation else previous + 1)
            && (e.authority.boot.Some? ==>
                  && e.authority.boot.value in s.publishers
                  && t.members[k].ownerBoot == e.authority.boot
                  && t.members[k].ownerWorker == Some(s.publishers[e.authority.boot.value].worker)
                  && t.members[k].publicationGeneration == s.publishers[e.authority.boot.value].publicationGeneration)
            && (e.authority.boot.None? ==>
                  && t.members[k].ownerBoot == e.record.ownerBoot && t.members[k].ownerWorker == e.record.ownerWorker
                  && t.members[k].publicationGeneration == e.record.publicationGeneration)
            && (e.record.parent.Some? ==> e.record.parent.value in s.members && e.record.parent.value != k)
            && forall d :: d in e.record.failureDomains ==> d in s.failureDomains
  {
    hide CheckAuthority, ValidMemberRecord, JudgeReplacement, AdvancePublication, Conclude, Reaches, CommitMember,
      Counted,
      Machine.JudgeMember, JudgeReferences, WithoutLiveEvidence, OthersKept, AsStored, SameButEvidence, Stamp.IsFreshAt;
    Facts.GrantMeans(s, e.authority, true);
    var a := CheckAuthority(s, e.authority, true);
    assert a.Granted?;
    var o, committed := JudgeMember(s, limits, e), CommitMember(s, e.authority, a.publisher, e.record);
    OnlyAccepted(s, a.publisher, o, committed);
    ReferencesExist(s, limits, e);
    CommittedMember(s, e.authority, a.publisher, e.record, at);
    CommittedIsCounted(s, e.authority, a.publisher, e.record);
    CommittedOwner(s, e.authority, a.publisher, e.record);
    TargetIsAhead(s, limits, e);
  }

  /** The record under the generations and owners it is stored with. */
  function AsStored(stored: MemberRecord, r: MemberRecord): MemberRecord {
    r.(generation := stored.generation, publicationGeneration := stored.publicationGeneration,
       ownerBoot := stored.ownerBoot, ownerWorker := stored.ownerWorker)
  }

  predicate SameButEvidence(a: MemberRecord, b: MemberRecord) {
    a == b.(stamp := a.stamp, health := a.health, readiness := a.readiness, reachability := a.reachability)
  }

  lemma ReferencesExist(s: Core, limits: Limits, e: Event)
    requires e.PublishMember? && JudgeMember(s, limits, e).Accepted?
    ensures e.record.parent.Some? ==> e.record.parent.value in s.members && e.record.parent.value != e.record.key
    ensures forall d :: d in e.record.failureDomains ==> d in s.failureDomains
  {
    hide ValidMemberRecord, JudgeReplacement, Reaches;
  }

  lemma TargetIsAhead(s: Core, limits: Limits, e: Event)
    requires e.PublishMember? && JudgeMember(s, limits, e).Accepted?
    ensures var previous := PreviousGeneration(s, e.record.key);
            TargetGeneration(previous, e.record.generation)
            == if e.record.generation > previous then e.record.generation else previous + 1
  {
    hide ValidMemberRecord, JudgeReplacement, JudgeReferences;
  }

  lemma CommittedMember(s: Core, token: AuthorityToken, publisher: Option<Text>, record: MemberRecord, at: i64)
    ensures var t, k := CommitMember(s, token, publisher, record), record.key;
            && OthersKept(s, t, k)
            && t.generations == s.generations.(
                 membership := Advance(s.generations.membership),
                 health := if s.generations.health == 0 then 1 else s.generations.health,
                 capabilities := if s.generations.capabilities == 0 then 1 else s.generations.capabilities)
            && t.members[k].generation == TargetGeneration(PreviousGeneration(s, k), record.generation)
            && (!record.lifecycle.Retired? ==> t.members[k] == AsStored(t.members[k], record))
            && (record.lifecycle.Retired? ==>
                  && SameButEvidence(t.members[k], AsStored(t.members[k], record))
                  && !t.members[k].stamp.IsFreshAt(at) && !t.members[k].health.stamp.IsFreshAt(at)
                  && !t.members[k].readiness.stamp.IsFreshAt(at) && !t.members[k].reachability.stamp.IsFreshAt(at))
  {
    hide AdvancePublication, TargetGeneration;
    var target := TargetGeneration(PreviousGeneration(s, record.key), record.generation);
    var u := PutMember(s, Committed(s, token, publisher, Normalized(record), target));
    var g := u.generations;
    EndingKeepsRecords(u.(generations := g.(membership := Advance(g.membership), health := FirstIfUnset(g.health),
                                            capabilities := FirstIfUnset(g.capabilities))), publisher);
  }

  lemma CommittedIsCounted(s: Core, token: AuthorityToken, publisher: Option<Text>, record: MemberRecord)
    requires publisher == token.boot && (publisher.Some? ==> publisher.value in s.publishers)
    ensures Counted(s, token, CommitMember(s, token, publisher, record))
  {
    hide AdvancePublication, TargetGeneration, Committed, Counted;
    var target := TargetGeneration(PreviousGeneration(s, record.key), record.generation);
    var u := PutMember(s, Committed(s, token, publisher, Normalized(record), target));
    var g := u.generations;
    EndingIsCounted(s, token, u.(generations := g.(membership := Advance(g.membership), health := FirstIfUnset(g.health),
                                                   capabilities := FirstIfUnset(g.capabilities))), publisher);
  }

  lemma CommittedOwner(s: Core, token: AuthorityToken, publisher: Option<Text>, record: MemberRecord)
    requires publisher == token.boot && (publisher.Some? ==> publisher.value in s.publishers)
    ensures var m := CommitMember(s, token, publisher, record).members;
            && record.key in m
            && (publisher.Some? ==>
                  && m[record.key].ownerBoot == publisher
                  && m[record.key].ownerWorker == Some(s.publishers[publisher.value].worker)
                  && m[record.key].publicationGeneration == s.publishers[publisher.value].publicationGeneration)
            && (publisher.None? ==>
                  && m[record.key].ownerBoot == record.ownerBoot && m[record.key].ownerWorker == record.ownerWorker
                  && m[record.key].publicationGeneration == record.publicationGeneration)
  {
    hide TargetGeneration;
  }

  /** After an accepted health report the member carries exactly the reported health, and is otherwise as before. */
  lemma HealthIsWhatWasPublished(s: Core, e: Event)
    requires e.PublishHealth? && HealthStep(s, e).outcome.Accepted? && Structured(s)
    ensures var t, k := HealthStep(s, e).state, e.member;
            && k in s.members && OthersKept(s, t, k) && Counted(s, e.authority, t)
            && (e.health.stamp.HasEvidence() ==> t.members[k].health == e.health)
            && (!e.health.stamp.HasEvidence() ==>
                  && t.members[k].health.value.Unknown? && t.members[k].health.stamp.provenance.Unknown?
                  && forall at :: LacksHealth(t.members[k].(lifecycle := Present), at))
            && (e.publishReadiness ==> t.members[k].readiness == e.readiness)
            && (!e.publishReadiness ==> t.members[k].readiness == s.members[k].readiness)
            && t.members[k].generation == s.members[k].generation + 1
            && SameButHealth(t.members[k], s.members[k])
            && t.generations == s.generations.(health := Advance(s.generations.health))
  {
    hide Structured, CheckAuthority, AdvancePublication, Conclude, OthersKept, Counted;
    Facts.GrantMeans(s, e.authority, true);
    var a := CheckAuthority(s, e.authority, true);
    assert a.Granted?;
    MemberKeyMatches(s, e.member);
    if e.member in s.members {
      var r := s.members[e.member];
      var u := AdvanceHealth(Update(s, a.publisher, NextHealth(r, e)));
      OnlyAccepted(s, a.publisher, JudgeHealth(r, e), AdvancePublication(u, a.publisher));
      EndingKeepsRecords(u, a.publisher);
      UpdateKeepsPublishers(s, a.publisher, NextHealth(r, e));
      EndingIsCounted(s, e.authority, u, a.publisher);
      UpdateKeepsOthers(s, a.publisher, NextHealth(r, e));
      OthersStillKept(s, Update(s, a.publisher, NextHealth(r, e)), HealthStep(s, e).state, e.member);
    } else {
      RefusalIsNotAccepted(s, a.publisher);
    }
  }

  lemma RefusalIsNotAccepted(s: Core, publisher: Option<Text>)
    ensures !Reject(s, publisher, RejectUnknownMember).outcome.Accepted?
  {
  }

  predicate SameButHealth(a: MemberRecord, b: MemberRecord) {
    a == b.(health := a.health, readiness := a.readiness, generation := a.generation,
            publicationGeneration := a.publicationGeneration)
  }

  lemma UpdateKeepsOthers(s: Core, publisher: Option<Text>, r: MemberRecord)
    requires r.key in s.members
    ensures OthersKept(s, Update(s, publisher, r), r.key)
  {
  }

  lemma UpdateKeepsPublishers(s: Core, publisher: Option<Text>, r: MemberRecord)
    ensures var u := Update(s, publisher, r);
            u.publishers == s.publishers && u.operatorPublication == s.operatorPublication
  {
  }

  lemma OthersStillKept(s: Core, u: Core, t: Core, k: MemberKey)
    requires OthersKept(s, u, k)
    requires t == u.(publishers := t.publishers, operatorPublication := t.operatorPublication,
                     generations := t.generations)
    ensures OthersKept(s, t, k)
  {
  }

  /** Withdrawing all evidence takes a member out of every count of the readiness contract, at any time. */
  lemma WithdrawnNeverCounts(s: Core, e: Event, contract: ReadinessContract, at: i64)
    requires e.WithdrawEvidence? && e.scope.All? && WithdrawStep(s, e).outcome.Accepted? && Structured(s)
    ensures var t, k := WithdrawStep(s, e).state, e.member;
            && k in t.members && OthersKept(s, t, k)
            && !HasCurrentEvidence(t.members[k], at, contract) && !IsCurrentMember(t.members[k].lifecycle)
            && !t.members[k].stamp.IsFreshAt(at) && t.members[k].capabilities == []
            && !t.members[k].health.stamp.IsFreshAt(at)
  {
    hide Structured, CheckAuthority, AdvancePublication, Conclude, OthersKept;
    Facts.GrantMeans(s, e.authority, true);
    var a := CheckAuthority(s, e.authority, true);
    assert a.Granted?;
    MemberKeyMatches(s, e.member);
    if e.member in s.members {
      var r := s.members[e.member];
      var u := AdvanceMembership(Update(s, a.publisher, Withdrawn(r, e.scope)));
      OnlyAccepted(s, a.publisher, JudgeWithdrawal(r, e), AdvancePublication(u, a.publisher));
      EndingKeepsRecords(u, a.publisher);
      UpdateKeepsOthers(s, a.publisher, Withdrawn(r, e.scope));
      OthersStillKept(s, Update(s, a.publisher, Withdrawn(r, e.scope)), WithdrawStep(s, e).state, e.member);
    } else {
      RefusalIsNotAccepted(s, a.publisher);
    }
  }

  /**
   * A retired member takes part in nothing any more: no relationship, no child, no current evidence. Its capabilities,
   * details and references are kept as a record of what it was.
   */
  lemma RetiredTakesPartInNothing(s: Core, e: Event, contract: ReadinessContract, at: i64)
    requires e.RetireMember? && RetireMemberStep(s, e).outcome.Accepted? && Structured(s)
    ensures var t, k := RetireMemberStep(s, e).state, e.member;
            && k in t.members && t.members.Keys == s.members.Keys
            && (forall r :: r in t.relationships <==> r in s.relationships && !Touches(r, k))
            && (forall j :: j in t.members ==> t.members[j].parent != Some(k))
            && (forall j :: j in t.members && j != k ==> t.members[j] == Detached(s.members[j], k))
            && !HasCurrentEvidence(t.members[k], at, contract) && !t.members[k].stamp.IsFreshAt(at)
            && t.members[k].lifecycle.Retired? && t.members[k].generation == s.members[k].generation + 1
            && t.members[k].capabilities == s.members[k].capabilities && t.members[k].details == s.members[k].details
            && t.members[k].failureDomains == s.members[k].failureDomains && t.members[k].parent == s.members[k].parent
  {
    hide CheckAuthority, AdvancePublication, Conclude;
    Facts.GrantMeans(s, e.authority, true);
    var a := CheckAuthority(s, e.authority, true);
    assert a.Granted?;
    NoSelfParent(s, e.member);
    hide Structured;
    if e.member in s.members {
      var r := s.members[e.member];
      var u := RetiredMember(s, e.member, Retirement(r));
      OnlyAccepted(s, a.publisher, JudgeRetirement(r), AdvancePublication(u, a.publisher));
      EndingKeepsRecords(u, a.publisher);
    } else {
      RefusalIsNotAccepted(s, a.publisher);
    }
  }

  // ----- Retirement of the rack -----

  lemma RetiredGrantsNothing(s: Core, token: AuthorityToken, rackScoped: bool)
    requires IsRetired(s)
    ensures CheckAuthority(s, token, rackScoped).Denied?
    ensures !CheckAuthority(s, token, rackScoped).outcome.Accepted?
  {
  }

  predicate IsFencing(e: Event) { e.FencePublisher? || e.ExpirePublishers? }

  lemma RetiredAcceptsNothing(env: Env, s: Core, e: Event, now: i64)
    requires IsRetired(s) && !IsFencing(e)
    ensures !Apply(env, s, e, now).outcome.Accepted?
  {
    if !e.RegisterPublisher? {
      RetiredGrantsNothing(s, e.authority, true);
      RetiredGrantsNothing(s, e.authority, false);
    }
    hide CheckAuthority, IsLabel, IsIdentity, Conclude;
  }

  /** A retired rack stays retired: whatever is asked later, only fencing is still accepted, and it is never ready. */
  lemma RetirementIsFinal(env: Env, s: Core, run: seq<Timed>, i: nat, j: nat, contract: ReadinessContract, at: i64)
    requires Regular(s) && i <= j < |run| && IsRetired(At(env, s, run, i))
    ensures StepAt(env, s, run, j).outcome.Accepted? ==> IsFencing(run[j].event)
    ensures Lifecycle(At(env, s, run, j), contract, at) == RackLifecycle.Retired
  {
    hide Regular, Apply, Facts.MembersGrow, Facts.PublishersGrow, Facts.GenerationsGrow, NeedsRevalidation, Satisfied;
    RunGrows(env, s, run, i, j);
    if !IsFencing(run[j].event) {
      RetiredAcceptsNothing(env, At(env, s, run, j), run[j].event, run[j].now);
    }
  }
}
