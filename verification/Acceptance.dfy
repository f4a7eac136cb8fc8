/** Which accepted requests store what a reader of the saved state refuses. */
module Acceptance {
  import opened Wrappers
  import opened Evidence
  import opened Model
  import opened Ordering
  import opened Graph
  import opened RackReadiness
  import opened Machine
  import Facts = Progress
  import opened Structure
  import opened Runs
  import opened Sanity
  import opened Shapes
  import opened Consistency
  import StateStreams

  // ----- What a request carries unchecked -----

  /** Without a process behind it, a request keeps the owners it carries. */
  predicate NamedOwners(token: AuthorityToken, boot: Option<Text>, worker: Option<Text>) {
    token.boot.None? ==> Named(boot) && Named(worker)
  }

  predicate CheckableBudget(b: PowerDomainBudget) {
    IsIdentity(b.domain) && SaneQuantity(b.limit) && SaneQuantity(b.observedDraw)
  }

  /** A retired member loses its observations; those of another one are checked only where they carry evidence. */
  predicate CheckableMember(r: MemberRecord) {
    (r.lifecycle.Retired? || SaneObservations(r)) && SaneDetails(r.details)
  }

  /**
   * What a reader asks of the parts of a request that no mutation looks at. The identities of a registration and of a
   * declaration are valid by their types; the others may be unset.
   */
  predicate CarriesSane(e: Event) {
    match e
    case RegisterPublisher(_, worker, boot, _, _) => Named(worker) && Named(boot)
    case DeclareRack(token, _, _, _) => Named(token.rack)
    case PublishMember(token, r, _, _) => NamedOwners(token, r.ownerBoot, r.ownerWorker) && CheckableMember(r)
    case PublishRelationship(token, r, _) => NamedOwners(token, r.ownerBoot, r.ownerWorker) && Named(r.link)
    case PublishFailureDomain(token, d, _) => NamedOwners(token, d.ownerBoot, d.ownerWorker)
    case PublishPower(token, p, _) =>
      && NamedOwners(token, p.ownerBoot, p.ownerWorker)
      && forall i :: 0 <= i < |p.domainBudgets| ==> CheckableBudget(p.domainBudgets[i])
    case PublishCooling(token, c, _) => NamedOwners(token, c.ownerBoot, c.ownerWorker)
    case _ => true
  }

  /** The detail record of a published member has the attributes of its kind. */
  predicate CarriesTyped(e: Event) { e.PublishMember? ==> TypedDetails(e.record.details) }

  // ----- States a writer takes, and with `strict` those a reader takes back -----

  predicate FineMember(strict: bool, r: MemberRecord) { TypedDetails(r.details) && (strict ==> SaneMember(r)) }

  predicate FineSnapshot(strict: bool, x: RackSnapshot) { TypedMembers(x.members) && (strict ==> SaneSnapshot(x)) }

  predicate FineMembers(strict: bool, members: map<MemberKey, MemberRecord>) {
    forall k :: k in members ==> FineMember(strict, members[k])
  }

  ghost predicate FineSnapshots(strict: bool, snapshots: map<u64, RackSnapshot>) {
    forall g :: g in snapshots ==> FineSnapshot(strict, snapshots[g])
  }

  predicate SaneRelationships(relationships: map<RelationshipKey, RelationshipRecord>) {
    forall k :: k in relationships ==> SaneRelationship(relationships[k])
  }

  predicate SaneDomains(domains: map<Text, FailureDomainRecord>) {
    forall d :: d in domains ==> SaneDomain(domains[d])
  }

  predicate SanePublishers(publishers: map<Text, PublisherRecord>) {
    forall b :: b in publishers ==> SanePublisher(publishers[b])
  }

  predicate SaneFencedBoots(fenced: map<Text, FencedBootRecord>) {
    forall b :: b in fenced ==> SaneFenced(fenced[b])
  }

  ghost predicate SaneRest(s: Core) {
    && SaneRack(s.rack) && SaneRelationships(s.relationships) && SaneDomains(s.failureDomains)
    && SanePower(s.power) && SaneCooling(s.cooling) && SanePublishers(s.publishers) && SaneFencedBoots(s.fencedBoots)
  }

  ghost predicate Fine(strict: bool, s: Core) {
    FineMembers(strict, s.members) && FineSnapshots(strict, s.snapshots) && (strict ==> SaneRest(s))
  }

  lemma FineMeans(l: Limits, s: Core)
    ensures Fine(false, s) <==> TypedState(s)
    ensures Fine(true, s) <==> TypedState(s) && StateStreams.SaneState(l, s)
  {
    hide TypedDetails, TypedMembers, SaneMember, SaneSnapshot, SaneRelationship, SaneDomain, SanePublisher, SaneFenced,
      SanePower, SaneCooling, SaneRack, StateStreams.SaneState;
    StateIsSane(l, s);
  }

  // ----- Endings -----

  lemma EndingsFine(strict: bool, s: Core, publisher: Option<Text>)
    ensures Fine(strict, AdvancePublication(s, publisher)) <==> Fine(strict, s)
    ensures Fine(strict, NoteRejection(s, publisher)) <==> Fine(strict, s)
  {
    hide FineMembers, FineSnapshots, SaneRelationships, SaneDomains, SanePower, SaneCooling, SaneFencedBoots, SaneRack,
      IsIdentity;
    if publisher.Some? && publisher.value in s.publishers {
      var b := publisher.value;
      var t, u := AdvancePublication(s, publisher).publishers, NoteRejection(s, publisher).publishers;
      assert t == s.publishers[b := t[b]] && u == s.publishers[b := u[b]];
      SameNames(s.publishers, b, t[b]);
      SameNames(s.publishers, b, u[b]);
    }
    hide SanePublishers;
  }

  lemma SameNames(publishers: map<Text, PublisherRecord>, b: Text, p: PublisherRecord)
    requires b in publishers && p.worker == publishers[b].worker && p.boot == publishers[b].boot
    ensures SanePublishers(publishers[b := p]) <==> SanePublishers(publishers)
  {
    hide IsIdentity;
    if SanePublishers(publishers[b := p]) {
      forall c | c in publishers
        ensures SanePublisher(publishers[c])
      {
        assert SanePublisher(publishers[b := p][c]);
      }
    }
  }

  lemma ConcludeFine(strict: bool, s: Core, publisher: Option<Text>, o: Outcome, u: Core)
    requires Fine(strict, s)
    ensures var step := Conclude(s, publisher, o, AdvancePublication(u, publisher));
            && (step.outcome.Accepted? <==> o.Accepted?)
            && (Fine(strict, step.state) <==> (o.Accepted? ==> Fine(strict, u)))
  {
    EndingsFine(strict, s, publisher);
    EndingsFine(strict, u, publisher);
    hide Fine, AdvancePublication, NoteRejection;
  }

  // ----- Members -----

  lemma MembersOnly(strict: bool, s: Core, u: Core)
    requires Fine(strict, s) && u.snapshots == s.snapshots && u.rack == s.rack && u.relationships == s.relationships
    requires u.failureDomains == s.failureDomains && u.power == s.power && u.cooling == s.cooling
    requires u.publishers == s.publishers && u.fencedBoots == s.fencedBoots
    ensures Fine(strict, u) <==> FineMembers(strict, u.members)
  {
    hide FineMembers, FineSnapshots, SaneRelationships, SaneDomains, SanePower, SaneCooling, SaneFencedBoots, SaneRack,
      SanePublishers;
  }

  lemma OneMemberFine(strict: bool, members: map<MemberKey, MemberRecord>, k: MemberKey, r: MemberRecord)
    requires FineMembers(strict, members)
    ensures FineMembers(strict, members[k := r]) <==> FineMember(strict, r)
  {
    hide FineMember;
    if FineMembers(strict, members[k := r]) {
      assert FineMember(strict, members[k := r][k]);
    }
  }

  lemma FineAt(strict: bool, s: Core, k: MemberKey)
    requires Fine(strict, s) && k in s.members
    ensures FineMember(strict, s.members[k])
  {
    hide FineMember;
  }

  lemma UpdateFine(strict: bool, s: Core, publisher: Option<Text>, r: MemberRecord, g: GenerationSet)
    requires Fine(strict, s)
    ensures Fine(strict, Update(s, publisher, r).(generations := g)) <==> FineMember(strict, r)
  {
    hide Fine, FineMembers;
    var next := StampPublication(s, publisher, r.(generation := Advance(r.generation)));
    var u := Update(s, publisher, r).(generations := g);
    assert FineMembers(strict, s.members) by {
      FineHasMembers(strict, s);
    }
    OneMemberFine(strict, s.members, r.key, next);
    CountersAreFine(strict, r, next);
    MembersOnly(strict, s, u);
  }

  lemma FineHasMembers(strict: bool, s: Core)
    requires Fine(strict, s)
    ensures FineMembers(strict, s.members)
  {
    hide FineMembers;
  }

  lemma CountersAreFine(strict: bool, r: MemberRecord, next: MemberRecord)
    requires next == r.(generation := next.generation, publicationGeneration := next.publicationGeneration)
    ensures FineMember(strict, next) <==> FineMember(strict, r)
  {
    hide TypedDetails, IsIdentity, SaneDetails;
  }

  /** The changes that mutations make to a fine member leave it fine. */
  lemma ChangesAreFine(strict: bool, r: MemberRecord, reason: RevalidationReason, required: bool, parent: MemberKey)
    requires FineMember(strict, r)
    ensures FineMember(strict, r.Revalidate(required, reason)) && FineMember(strict, Detached(r, parent))
    ensures FineMember(strict, LeftByRack(r)) && FineMember(strict, MadeUnavailable(r, reason))
    ensures FineMember(strict, Retirement(r))
  {
    hide TypedDetails, IsIdentity, SaneDetails;
  }

  lemma WithdrawnIsFine(strict: bool, r: MemberRecord, scope: WithdrawScope)
    requires FineMember(strict, r)
    ensures FineMember(strict, Withdrawn(r, scope))
  {
    NoDetailsAreFine();
    hide TypedDetails, SaneDetails, IsIdentity, AllNamed, Named;
  }

  lemma NoDetailsAreFine()
    ensures TypedDetails(NoDetails) && SaneDetails(NoDetails)
  {
  }

  lemma FencedIsFine(strict: bool, r: MemberRecord, reason: RevalidationReason)
    requires FineMember(strict, r)
    ensures FineMember(strict, FencedMember(r, reason))
  {
    hide TypedDetails, IsIdentity, SaneDetails, AllNamed, Named;
    var t := FencedMember(r, reason);
    forall i | strict && 0 <= i < |t.capabilities|
      ensures SaneCapability(t.capabilities[i])
    {
      assert SaneCapability(r.capabilities[i]);
    }
  }

  lemma HealthIsFine(strict: bool, r: MemberRecord, e: Event)
    requires FineMember(strict, r) && e.PublishHealth? && JudgeHealth(r, e).Accepted?
    ensures FineMember(strict, NextHealth(r, e))
  {
    hide TypedDetails, IsIdentity, SaneDetails, AllNamed, Named;
  }

  lemma CapabilityIsFine(strict: bool, r: MemberRecord, limits: Limits, e: Event)
    requires FineMember(strict, r) && e.PublishCapability? && JudgeCapability(r, limits, e).Accepted?
    ensures FineMember(strict, NextCapabilities(r, e))
  {
    hide TypedDetails, IsIdentity, SaneDetails, AllNamed, Named;
    var cs := NextCapabilities(r, e).capabilities;
    forall i | strict && 0 <= i < |cs|
      ensures SaneCapability(cs[i])
    {
    }
  }

  lemma UpdatesFine(strict: bool, s: Core, limits: Limits, e: Event)
    requires Fine(strict, s)
    ensures e.PublishHealth? ==> Fine(strict, HealthStep(s, e).state)
    ensures e.PublishCapability? ==> Fine(strict, CapabilityStep(s, limits, e).state)
    ensures e.WithdrawEvidence? ==> Fine(strict, WithdrawStep(s, e).state)
    ensures e.MarkUnavailable? ==> Fine(strict, MarkUnavailableStep(s, e).state)
  {
    hide Fine, FineMember, CheckAuthority, Conclude, AdvancePublication, NoteRejection, Update, JudgeHealth,
      JudgeCapability, JudgeWithdrawal, JudgeUnavailable, NextHealth, NextCapabilities, Withdrawn, MadeUnavailable;
    if e.PublishHealth? || e.PublishCapability? || e.WithdrawEvidence? || e.MarkUnavailable? {
      var a := CheckAuthority(s, e.authority, true);
      if a.Granted? {
        EndingsFine(strict, s, a.publisher);
        if e.member in s.members {
          UpdateStepFine(strict, s, limits, e, a.publisher);
        }
      }
    }
  }

  lemma UpdateStepFine(strict: bool, s: Core, limits: Limits, e: Event, publisher: Option<Text>)
    requires Fine(strict, s)
    requires e.PublishHealth? || e.PublishCapability? || e.WithdrawEvidence? || e.MarkUnavailable?
    requires e.member in s.members
    ensures var r := s.members[e.member];
            && (e.PublishHealth? ==>
                  Fine(strict, Conclude(s, publisher, JudgeHealth(r, e), AdvancePublication(AdvanceHealth(
                    Update(s, publisher, NextHealth(r, e))), publisher)).state))
            && (e.PublishCapability? ==>
                  Fine(strict, Conclude(s, publisher, JudgeCapability(r, limits, e), AdvancePublication(
                    AdvanceCapabilities(Update(s, publisher, NextCapabilities(r, e))), publisher)).state))
            && (e.WithdrawEvidence? ==>
                  Fine(strict, Conclude(s, publisher, JudgeWithdrawal(r, e), AdvancePublication(AdvanceMembership(
                    Update(s, publisher, Withdrawn(r, e.scope))), publisher)).state))
            && (e.MarkUnavailable? ==>
                  Fine(strict, Conclude(s, publisher, JudgeUnavailable(r, e), AdvancePublication(AdvanceMembership(
                    Update(s, None, MadeUnavailable(r, e.reason))), publisher)).state))
  {
    hide Fine, FineMember, Conclude, AdvancePublication, Update, JudgeHealth, JudgeCapability, JudgeWithdrawal,
      JudgeUnavailable, NextHealth, NextCapabilities, Withdrawn, MadeUnavailable;
    var r := s.members[e.member];
    FineAt(strict, s, e.member);
    var stamped := if e.MarkUnavailable? then None else publisher;
    var next := if e.PublishHealth? then NextHealth(r, e) else if e.PublishCapability? then NextCapabilities(r, e)
                else if e.WithdrawEvidence? then Withdrawn(r, e.scope) else MadeUnavailable(r, e.reason);
    var o := if e.PublishHealth? then JudgeHealth(r, e) else if e.PublishCapability? then JudgeCapability(r, limits, e)
             else if e.WithdrawEvidence? then JudgeWithdrawal(r, e) else JudgeUnavailable(r, e);
    var u := Update(s, stamped, next);
    var v := if e.PublishHealth? then AdvanceHealth(u) else if e.PublishCapability? then AdvanceCapabilities(u)
             else AdvanceMembership(u);
    if o.Accepted? {
      if e.PublishHealth? {
        HealthIsFine(strict, r, e);
      } else if e.PublishCapability? {
        CapabilityIsFine(strict, r, limits, e);
      } else if e.WithdrawEvidence? {
        WithdrawnIsFine(strict, r, e.scope);
      } else {
        ChangesAreFine(strict, r, e.reason, true, r.key);
      }
      assert v == u.(generations := v.generations);
      UpdateFine(strict, s, stamped, next, v.generations);
    }
    ConcludeFine(strict, s, publisher, o, v);
  }

  // ----- Publications -----

  ghost predicate BootsKeyed(s: Core) { forall b :: b in s.publishers ==> s.publishers[b].boot == b }

  /** What the steps below start from: the records are keyed, and the process behind the request is registered. */
  ghost predicate Settled(s: Core, token: AuthorityToken, publisher: Option<Text>) {
    Structured(s) && BootsKeyed(s) && publisher == token.boot && (publisher.Some? ==> publisher.value in s.publishers)
  }

  lemma GrantIsSettled(s: Core, token: AuthorityToken, rackScoped: bool)
    requires Structured(s) && BootsKeyed(s) && CheckAuthority(s, token, rackScoped).Granted?
    ensures Settled(s, token, CheckAuthority(s, token, rackScoped).publisher)
  {
    Facts.GrantMeans(s, token, rackScoped);
    hide CheckAuthority, Structured;
  }

  lemma OwnersNamed(s: Core, token: AuthorityToken, publisher: Option<Text>, boot: Option<Text>, worker: Option<Text>)
    requires Settled(s, token, publisher) && SanePublishers(s.publishers)
    ensures Named(OwnerOf(token.boot, boot)) && Named(WorkerOf(s, publisher, worker)) <==> NamedOwners(token, boot, worker)
  {
    hide Structured, IsIdentity;
    if publisher.Some? {
      assert SanePublisher(s.publishers[publisher.value]);
    }
  }

  lemma MemberKeysAreSane(s: Core, k: MemberKey)
    requires Structured(s) && Fine(true, s) && k in s.members
    ensures IsIdentity(k.id)
  {
    hide IsIdentity, Acyclic, TypedDetails;
    assert FineMember(true, s.members[k]);
  }

  lemma DomainIdsAreSane(s: Core, d: Text)
    requires Structured(s) && Fine(true, s) && d in s.failureDomains
    ensures IsIdentity(d)
  {
    hide IsIdentity, Acyclic, TypedDetails, FineMembers;
    assert SaneDomain(s.failureDomains[d]);
  }

  lemma ReferencesAreSane(s: Core, r: MemberRecord)
    requires Structured(s) && Fine(true, s) && JudgeReferences(s, r).Accepted?
    ensures SaneReferences(r)
  {
    hide IsIdentity, Structured, Fine, Reaches;
    if r.parent.Some? {
      MemberKeysAreSane(s, r.parent.value);
    }
    forall i | 0 <= i < |r.failureDomains|
      ensures IsIdentity(r.failureDomains[i])
    {
      DomainIdsAreSane(s, r.failureDomains[i]);
    }
    if r.powerDomain.Some? {
      MemberKeysAreSane(s, MemberKey(PowerDomain, r.powerDomain.value));
    }
    if r.coolingDomain.Some? {
      MemberKeysAreSane(s, MemberKey(CoolingDomain, r.coolingDomain.value));
    }
    if r.switchDomain.Some? {
      MemberKeysAreSane(s, MemberKey(MemberKind.Switch, r.switchDomain.value));
    }
  }

  /** What validation does establish of a member. */
  predicate Validated(r: MemberRecord) {
    && IsIdentity(r.key.id) && Timely(r.stamp)
    && forall i :: 0 <= i < |r.capabilities| ==> SaneCapability(r.capabilities[i])
  }

  lemma ValidIsSane(r: MemberRecord, limits: Limits)
    requires ValidMemberRecord(r, limits)
    ensures Validated(r)
  {
    hide IsIdentity, IsLabel, DetailsMatchKind;
  }

  lemma JudgedMember(s: Core, limits: Limits, e: Event)
    requires e.PublishMember? && JudgeMember(s, limits, e).Accepted?
    ensures ValidMemberRecord(e.record, limits) && JudgeReferences(s, Normalized(e.record)).Accepted?
  {
    hide ValidMemberRecord, JudgeReferences, JudgeReplacement, Normalized;
  }

  lemma CommittedIsFine(
    strict: bool, s: Core, limits: Limits, e: Event, publisher: Option<Text>, target: u64)
    requires e.PublishMember? && Fine(strict, s) && Settled(s, e.authority, publisher)
    requires JudgeMember(s, limits, e).Accepted?
    ensures FineMember(strict, Committed(s, e.authority, publisher, Normalized(e.record), target))
        <==> CarriesTyped(e) && (strict ==> CarriesSane(e))
  {
    hide Fine, JudgeMember, ValidMemberRecord, JudgeReferences, TypedDetails, IsIdentity, Normalized, Structured,
      Settled, SanePublishers, SaneDetails, AllNamed, NamedOwners, Named, SaneCapability, OwnerOf, WorkerOf,
      StampPublication, Committed, Timely;
    var r := Normalized(e.record);
    StampKeeps(s, publisher, e.authority, r, target);
    NormalizedKeeps(e.record);
    if strict {
      JudgedMember(s, limits, e);
      ValidIsSane(e.record, limits);
      ReferencesAreSane(s, r) by {
        SettledIsStructured(s, e.authority, publisher);
      }
      SaneHasPublishers(s);
      OwnersNamed(s, e.authority, publisher, e.record.ownerBoot, e.record.ownerWorker);
      assert publisher == e.authority.boot by {
        SettledIsStructured(s, e.authority, publisher);
      }
    }
  }

  lemma SettledIsStructured(s: Core, token: AuthorityToken, publisher: Option<Text>)
    requires Settled(s, token, publisher)
    ensures Structured(s) && publisher == token.boot
  {
    hide Structured;
  }

  lemma SaneHasPublishers(s: Core)
    requires Fine(true, s)
    ensures SanePublishers(s.publishers)
  {
    hide FineMembers, FineSnapshots, SanePublishers;
  }

  lemma StampKeeps(s: Core, publisher: Option<Text>, token: AuthorityToken, r: MemberRecord, target: u64)
    ensures var c := Committed(s, token, publisher, r, target);
            c == r.(generation := target, publicationGeneration := c.publicationGeneration,
                    ownerBoot := OwnerOf(token.boot, r.ownerBoot), ownerWorker := WorkerOf(s, token.boot, r.ownerWorker))
  {
  }

  lemma NormalizedKeeps(r: MemberRecord)
    ensures var n := Normalized(r);
            && n.key == r.key && n.ownerBoot == r.ownerBoot && n.ownerWorker == r.ownerWorker && n.details == r.details
            && n.capabilities == r.capabilities && (Validated(r) ==> Timely(n.stamp) && Validated(n))
            && (SaneObservations(n) <==> r.lifecycle.Retired? || SaneObservations(r))
  {
    hide IsIdentity, SaneCapability;
  }

  /** After the step a state is fine exactly when the request, if accepted, carried nothing that is not. */
  ghost predicate FineIff(strict: bool, e: Event, step: Step) {
    Fine(strict, step.state) <==> (step.outcome.Accepted? ==> CarriesTyped(e) && (strict ==> CarriesSane(e)))
  }

  lemma ConcludedIff(strict: bool, s: Core, e: Event, publisher: Option<Text>, o: Outcome, u: Core)
    requires Fine(strict, s)
    requires o.Accepted? ==> (Fine(strict, u) <==> CarriesTyped(e) && (strict ==> CarriesSane(e)))
    ensures FineIff(strict, e, Conclude(s, publisher, o, AdvancePublication(u, publisher)))
  {
    hide Fine, Conclude, AdvancePublication, CarriesSane, CarriesTyped;
    ConcludeFine(strict, s, publisher, o, u);
  }

  lemma UnacceptedIff(strict: bool, s: Core, e: Event, o: Outcome)
    requires Fine(strict, s) && !o.Accepted?
    ensures FineIff(strict, e, Step(s, o))
  {
    hide Fine, CarriesSane, CarriesTyped;
  }

  lemma PublishMemberIff(strict: bool, s: Core, limits: Limits, e: Event)
    requires e.PublishMember? && Fine(strict, s) && Structured(s) && BootsKeyed(s)
    ensures FineIff(strict, e, PublishMemberStep(s, limits, e))
  {
    hide Fine, FineIff, CheckAuthority, JudgeMember, Conclude, AdvancePublication, Structured, BootsKeyed, Settled,
      Committed, CarriesSane, CarriesTyped, FineMember;
    Facts.GrantMeans(s, e.authority, true);
    var a := CheckAuthority(s, e.authority, true);
    if a.Granted? {
      GrantIsSettled(s, e.authority, true);
      var target := TargetGeneration(PreviousGeneration(s, e.record.key), e.record.generation);
      var r := Committed(s, e.authority, a.publisher, Normalized(e.record), target);
      var u := PutMember(s, r);
      var g := u.generations;
      var v := u.(generations := g.(membership := Advance(g.membership), health := FirstIfUnset(g.health),
                                    capabilities := FirstIfUnset(g.capabilities)));
      if JudgeMember(s, limits, e).Accepted? {
        CommittedIsFine(strict, s, limits, e, a.publisher, target);
        PutIsFine(strict, s, r, v);
      }
      ConcludedIff(strict, s, e, a.publisher, JudgeMember(s, limits, e), v);
    } else {
      UnacceptedIff(strict, s, e, a.outcome);
    }
  }

  lemma PutIsFine(strict: bool, s: Core, r: MemberRecord, v: Core)
    requires Fine(strict, s) && v == PutMember(s, r).(generations := v.generations)
    ensures Fine(strict, v) <==> FineMember(strict, r)
  {
    hide Fine, FineMember, FineMembers;
    FineHasMembers(strict, s);
    OneMemberFine(strict, s.members, r.key, r);
    MembersOnly(strict, s, v);
  }

  // ----- Topology and domains -----

  lemma OneRelationshipSane(strict: bool, s: Core, r: RelationshipRecord, u: Core)
    requires Fine(strict, s)
    requires u == s.(relationships := s.relationships[r.key := r], generations := u.generations)
    ensures Fine(strict, u) <==> (strict ==> SaneRelationship(r))
  {
    hide FineMembers, FineSnapshots, SaneDomains, SanePower, SaneCooling, SaneFencedBoots, SaneRack, SanePublishers,
      SaneRelationship;
    assert u.relationships[r.key] == r;
  }

  lemma OneDomainSane(strict: bool, s: Core, d: FailureDomainRecord, u: Core)
    requires Fine(strict, s)
    requires u == s.(failureDomains := s.failureDomains[d.id := d], generations := u.generations)
    ensures Fine(strict, u) <==> (strict ==> SaneDomain(d))
  {
    hide FineMembers, FineSnapshots, SaneRelationships, SanePower, SaneCooling, SaneFencedBoots, SaneRack,
      SanePublishers, SaneDomain;
    assert u.failureDomains[d.id] == d;
  }

  lemma EnvelopeSane(strict: bool, s: Core, u: Core)
    requires Fine(strict, s)
    requires u == s.(power := u.power, cooling := u.cooling, generations := u.generations)
    ensures Fine(strict, u) <==> (strict ==> SanePower(u.power) && SaneCooling(u.cooling))
  {
    hide FineMembers, FineSnapshots, SaneRelationships, SaneDomains, SanePower, SaneCooling, SaneFencedBoots, SaneRack,
      SanePublishers;
  }

  lemma QuantityIsTimely(q: Quantity, unit: QuantityUnit)
    requires ValidQuantity(q, unit)
    ensures Timely(q.stamp)
  {
    hide IsFinite, IsNegative;
  }

  lemma CommittedRelationship(s: Core, limits: Limits, e: Event, publisher: Option<Text>, c: RelationshipRecord)
    requires e.PublishRelationship? && Fine(true, s) && Settled(s, e.authority, publisher)
    requires var r := e.relationship.(key := Canonical(e.relationship.key));
             && JudgeRelationship(s, limits, e, r).Accepted?
             && c == r.(generation := c.generation, ownerBoot := OwnerOf(e.authority.boot, r.ownerBoot),
                        ownerWorker := WorkerOf(s, publisher, r.ownerWorker))
    ensures SaneRelationship(c) <==> CarriesSane(e)
  {
    hide Fine, Settled, IsIdentity, Canonical, Reaches, JudgeRelationshipReplacement, Structured, SanePublishers,
      OwnerOf, WorkerOf, Named, ValidQuantity, IsFinite, IsNegative;
    SettledIsStructured(s, e.authority, publisher);
    MemberKeysAreSane(s, c.key.from);
    MemberKeysAreSane(s, c.key.to);
    if c.capacity.Some? {
      QuantityIsTimely(c.capacity.value, c.capacity.value.unit);
    }
    SaneHasPublishers(s);
    OwnersNamed(s, e.authority, publisher, e.relationship.ownerBoot, e.relationship.ownerWorker);
  }

  lemma RelationshipIff(strict: bool, s: Core, limits: Limits, e: Event)
    requires e.PublishRelationship? && Fine(strict, s) && Structured(s) && BootsKeyed(s)
    ensures FineIff(strict, e, RelationshipStep(s, limits, e))
  {
    hide Fine, FineIff, CheckAuthority, JudgeRelationship, Conclude, AdvancePublication, Structured, BootsKeyed,
      Settled, CarriesSane, SaneRelationship, Canonical, OwnerOf, WorkerOf;
    Facts.GrantMeans(s, e.authority, true);
    var a := CheckAuthority(s, e.authority, true);
    if a.Granted? {
      GrantIsSettled(s, e.authority, true);
      var r := e.relationship.(key := Canonical(e.relationship.key));
      var c := r.(generation := Advance(s.generations.topology), ownerBoot := OwnerOf(e.authority.boot, r.ownerBoot),
                  ownerWorker := WorkerOf(s, a.publisher, r.ownerWorker));
      var u := s.(relationships := s.relationships[r.key := c],
                  generations := s.generations.(topology := Advance(s.generations.topology)));
      if strict && JudgeRelationship(s, limits, e, r).Accepted? {
        CommittedRelationship(s, limits, e, a.publisher, c);
      }
      OneRelationshipSane(strict, s, c, u);
      ConcludedIff(strict, s, e, a.publisher, JudgeRelationship(s, limits, e, r), u);
    } else {
      UnacceptedIff(strict, s, e, a.outcome);
    }
  }

  lemma WithdrawRelationshipIff(strict: bool, s: Core, e: Event)
    requires e.WithdrawRelationship? && Fine(strict, s)
    ensures FineIff(strict, e, WithdrawRelationshipStep(s, e))
  {
    hide Fine, FineIff, CheckAuthority, JudgeRelationshipWithdrawal, Conclude, AdvancePublication, Canonical,
      WithoutRelationship;
    Facts.GrantMeans(s, e.authority, true);
    var a := CheckAuthority(s, e.authority, true);
    if a.Granted? {
      FewerRelationshipsSane(strict, s, Canonical(e.key));
      ConcludedIff(strict, s, e, a.publisher, JudgeRelationshipWithdrawal(s, e), WithoutRelationship(s, Canonical(e.key)));
    } else {
      UnacceptedIff(strict, s, e, a.outcome);
    }
  }

  lemma FewerRelationshipsSane(strict: bool, s: Core, k: RelationshipKey)
    requires Fine(strict, s)
    ensures Fine(strict, WithoutRelationship(s, k))
  {
    hide FineMembers, FineSnapshots, SaneDomains, SanePower, SaneCooling, SaneFencedBoots, SaneRack, SanePublishers,
      SaneRelationship;
  }

  lemma {:induction false} ParentsExist(domains: map<Text, FailureDomainRecord>, id: Text, parents: seq<Text>)
    requires JudgeParents(domains, id, parents).Accepted?
    ensures forall i :: 0 <= i < |parents| ==> parents[i] in domains
    decreases |parents|
  {
    hide Reaches;
    if parents != [] {
      ParentsExist(domains, id, parents[1..]);
      forall i | 0 <= i < |parents|
        ensures parents[i] in domains
      {
        if i > 0 {
          assert parents[1..][i - 1] == parents[i];
        }
      }
    }
  }

  lemma CommittedDomain(s: Core, limits: Limits, e: Event, publisher: Option<Text>, c: FailureDomainRecord)
    requires e.PublishFailureDomain? && Fine(true, s) && Settled(s, e.authority, publisher)
    requires var d := UniqueParents(e.domain);
             && JudgeDomain(s, limits, e, d).Accepted?
             && c == d.(generation := c.generation, ownerBoot := OwnerOf(e.authority.boot, d.ownerBoot),
                        ownerWorker := WorkerOf(s, publisher, d.ownerWorker))
    ensures SaneDomain(c) <==> CarriesSane(e)
  {
    hide Fine, Settled, IsIdentity, IsLabel, Structured, SanePublishers, OwnerOf, WorkerOf, Named, JudgeParents,
      JudgeDomainReplacement, StrictTotal;
    SettledIsStructured(s, e.authority, publisher);
    ParentsExist(s.failureDomains, c.id, c.parents);
    forall i | 0 <= i < |c.parents|
      ensures IsIdentity(c.parents[i])
    {
      DomainIdsAreSane(s, c.parents[i]);
    }
    SaneHasPublishers(s);
    OwnersNamed(s, e.authority, publisher, e.domain.ownerBoot, e.domain.ownerWorker);
  }

  lemma DomainIff(strict: bool, s: Core, limits: Limits, e: Event)
    requires e.PublishFailureDomain? && Fine(strict, s) && Structured(s) && BootsKeyed(s)
    ensures FineIff(strict, e, DomainStep(s, limits, e))
  {
    hide Fine, FineIff, CheckAuthority, JudgeDomain, Conclude, AdvancePublication, Structured, BootsKeyed, Settled,
      CarriesSane, SaneDomain, UniqueParents, OwnerOf, WorkerOf;
    Facts.GrantMeans(s, e.authority, true);
    var a := CheckAuthority(s, e.authority, true);
    if a.Granted? {
      GrantIsSettled(s, e.authority, true);
      var d := UniqueParents(e.domain);
      var c := d.(generation := Advance(s.generations.failureDomains), ownerBoot := OwnerOf(e.authority.boot, d.ownerBoot),
                  ownerWorker := WorkerOf(s, a.publisher, d.ownerWorker));
      var u := s.(failureDomains := s.failureDomains[d.id := c],
                  generations := s.generations.(failureDomains := Advance(s.generations.failureDomains)));
      if strict && JudgeDomain(s, limits, e, d).Accepted? {
        CommittedDomain(s, limits, e, a.publisher, c);
      }
      OneDomainSane(strict, s, c, u);
      ConcludedIff(strict, s, e, a.publisher, JudgeDomain(s, limits, e, d), u);
    } else {
      UnacceptedIff(strict, s, e, a.outcome);
    }
  }

  // ----- Envelopes -----

  /** Derived headroom lives as long as what it is derived from. */
  lemma HeadroomIsSane(env: Env, limit: Option<Quantity>, load: Option<Quantity>, now: i64)
    requires SaneQuantity(limit) && SaneQuantity(load)
    ensures SaneQuantity(Headroom(env, limit, load, now))
  {
    hide Stamp.IsFreshAt, IsNotANumber, IsNegative;
  }

  lemma BudgetsAreSane(env: Env, p: PowerEnvelope, now: i64)
    ensures (forall i :: 0 <= i < |p.domainBudgets| ==> SaneBudget(DerivedPower(env, p, now).domainBudgets[i]))
        <==> forall i :: 0 <= i < |p.domainBudgets| ==> CheckableBudget(p.domainBudgets[i])
  {
    hide Headroom, SaneQuantity, IsIdentity;
    var d := DerivedPower(env, p, now).domainBudgets;
    forall i | 0 <= i < |p.domainBudgets|
      ensures SaneBudget(d[i]) <==> CheckableBudget(p.domainBudgets[i])
    {
      var b := p.domainBudgets[i];
      if CheckableBudget(b) {
        HeadroomIsSane(env, b.limit, b.observedDraw, now);
      }
    }
    if forall i :: 0 <= i < |p.domainBudgets| ==> SaneBudget(d[i]) {
      forall i | 0 <= i < |p.domainBudgets|
        ensures CheckableBudget(p.domainBudgets[i])
      {
        assert SaneBudget(d[i]);
      }
    }
  }

  lemma ValidIfPresentIsSane(q: Option<Quantity>, unit: QuantityUnit)
    requires ValidIfPresent(q, unit)
    ensures SaneQuantity(q)
  {
    hide IsFinite, IsNegative;
  }

  lemma CommittedPower(env: Env, s: Core, e: Event, publisher: Option<Text>, c: PowerEnvelope, now: i64)
    requires e.PublishPower? && Fine(true, s) && Settled(s, e.authority, publisher) && JudgePower(s, e).Accepted?
    requires c == e.power.(generation := c.generation, stamp := e.power.stamp.(revalidationRequired := false),
                           ownerBoot := OwnerOf(e.authority.boot, e.power.ownerBoot),
                           ownerWorker := WorkerOf(s, publisher, e.power.ownerWorker))
    ensures SanePower(Some(DerivedPower(env, c, now))) <==> CarriesSane(e)
  {
    hide Fine, Settled, IsIdentity, SanePublishers, OwnerOf, WorkerOf, Named, ValidQuantity, SaneBudget,
      CheckableBudget, Headroom, IsFinite, IsNegative, SaneQuantity, ValidIfPresent;
    var p := e.power;
    ValidIfPresentIsSane(p.rackLimit, Watts);
    if p.rackObservedDraw.Some? {
      QuantityIsTimely(p.rackObservedDraw.value, p.rackObservedDraw.value.unit);
    }
    PresentIsSane(p.rackObservedDraw);
    HeadroomIsSane(env, c.rackLimit, c.rackObservedDraw, now);
    BudgetsAreSane(env, c, now);
    SaneHasPublishers(s);
    OwnersNamed(s, e.authority, publisher, p.ownerBoot, p.ownerWorker);
  }

  lemma PresentIsSane(q: Option<Quantity>)
    ensures SaneQuantity(q) <==> (q.Some? ==> Timely(q.value.stamp))
  {
  }

  lemma PowerIff(strict: bool, env: Env, s: Core, e: Event, now: i64)
    requires e.PublishPower? && Fine(strict, s) && Structured(s) && BootsKeyed(s)
    ensures FineIff(strict, e, PowerStep(env, s, e, now))
  {
    hide Fine, FineIff, CheckAuthority, JudgePower, Conclude, AdvancePublication, Structured, BootsKeyed, Settled,
      CarriesSane, SanePower, SaneCooling, DerivedPower, OwnerOf, WorkerOf;
    Facts.GrantMeans(s, e.authority, true);
    var a := CheckAuthority(s, e.authority, true);
    if a.Granted? {
      GrantIsSettled(s, e.authority, true);
      var g := s.generations;
      var c := e.power.(generation := Advance(g.power), stamp := e.power.stamp.(revalidationRequired := false),
                        ownerBoot := OwnerOf(e.authority.boot, e.power.ownerBoot),
                        ownerWorker := WorkerOf(s, a.publisher, e.power.ownerWorker));
      var u := s.(power := Some(DerivedPower(env, c, now)),
                  generations := g.(power := Advance(g.power), constraints := Advance(g.constraints)));
      if strict && JudgePower(s, e).Accepted? {
        CommittedPower(env, s, e, a.publisher, c, now);
        SaneHasEnvelopes(s);
      }
      EnvelopeSane(strict, s, u);
      ConcludedIff(strict, s, e, a.publisher, JudgePower(s, e), u);
    } else {
      UnacceptedIff(strict, s, e, a.outcome);
    }
  }

  lemma SaneHasEnvelopes(s: Core)
    requires Fine(true, s)
    ensures SanePower(s.power) && SaneCooling(s.cooling)
  {
    hide FineMembers, FineSnapshots, SanePower, SaneCooling;
  }

  /** A zone that was judged is sane as soon as its headroom is. */
  predicate JudgedZone(z: CoolingZone) {
    && IsIdentity(z.zone) && SaneQuantity(z.designThermalLimit) && SaneQuantity(z.observedTemperature)
    && SaneQuantity(z.coolingCapacity) && (z.throttling.Some? ==> Timely(z.throttling.value.stamp))
  }

  lemma {:induction false} ZonesAreJudged(s: Core, zones: seq<CoolingZone>)
    requires Structured(s) && Fine(true, s) && JudgeZones(s, zones).Accepted?
    ensures forall i :: 0 <= i < |zones| ==> JudgedZone(zones[i])
    decreases |zones|
  {
    hide Fine, Structured, IsIdentity, SaneQuantity, ValidIfPresent;
    if zones != [] {
      var z := zones[0];
      MemberKeysAreSane(s, MemberKey(CoolingDomain, z.zone));
      ValidIfPresentIsSane(z.designThermalLimit, Watts);
      ValidIfPresentIsSane(z.coolingCapacity, Watts);
      ValidIfPresentIsSane(z.observedTemperature, Celsius);
      ZonesAreJudged(s, zones[1..]);
      forall i | 0 <= i < |zones|
        ensures JudgedZone(zones[i])
      {
        if i > 0 {
          assert zones[1..][i - 1] == zones[i];
        }
      }
    }
  }

  lemma {:induction false} InsertedAreJudged(z: CoolingZone, zones: seq<CoolingZone>)
    requires JudgedZone(z) && forall i :: 0 <= i < |zones| ==> JudgedZone(zones[i])
    ensures forall i :: 0 <= i < |InsertZone(z, zones)| ==> JudgedZone(InsertZone(z, zones)[i])
    decreases |zones|
  {
    hide JudgedZone;
    if zones != [] && TextLess(zones[0].zone, z.zone) {
      InsertedAreJudged(z, zones[1..]);
    }
  }

  lemma {:induction false} SortedAreJudged(zones: seq<CoolingZone>)
    requires forall i :: 0 <= i < |zones| ==> JudgedZone(zones[i])
    ensures forall i :: 0 <= i < |SortZones(zones)| ==> JudgedZone(SortZones(zones)[i])
    decreases |zones|
  {
    hide JudgedZone, InsertZone;
    if zones != [] {
      SortedAreJudged(zones[1..]);
      InsertedAreJudged(zones[0], SortZones(zones[1..]));
    }
  }

  lemma DerivedZonesAreSane(env: Env, c: CoolingEnvelope, now: i64)
    requires forall i :: 0 <= i < |c.zones| ==> JudgedZone(c.zones[i])
    ensures forall i :: 0 <= i < |c.zones| ==> SaneZone(DerivedCooling(env, c, now).zones[i])
  {
    hide Headroom, SaneQuantity, IsIdentity;
    forall i | 0 <= i < |c.zones|
      ensures SaneZone(DerivedCooling(env, c, now).zones[i])
    {
      assert JudgedZone(c.zones[i]);
      HeadroomIsSane(env, c.zones[i].coolingCapacity, c.zones[i].designThermalLimit, now);
    }
  }

  lemma CommittedCooling(env: Env, s: Core, e: Event, publisher: Option<Text>, c: CoolingEnvelope, now: i64)
    requires e.PublishCooling? && Fine(true, s) && Settled(s, e.authority, publisher) && JudgeCooling(s, e).Accepted?
    requires c == e.cooling.(generation := c.generation, zones := SortZones(e.cooling.zones),
                             stamp := e.cooling.stamp.(revalidationRequired := false),
                             ownerBoot := OwnerOf(e.authority.boot, e.cooling.ownerBoot),
                             ownerWorker := WorkerOf(s, publisher, e.cooling.ownerWorker))
    ensures SaneCooling(Some(DerivedCooling(env, c, now))) <==> CarriesSane(e)
  {
    hide Fine, Settled, IsIdentity, SanePublishers, OwnerOf, WorkerOf, Named, JudgeZones, SortZones, SaneZone,
      JudgedZone, Headroom, Structured;
    SettledIsStructured(s, e.authority, publisher);
    ZonesAreJudged(s, e.cooling.zones);
    SortedAreJudged(e.cooling.zones);
    DerivedZonesAreSane(env, c, now);
    SaneHasPublishers(s);
    OwnersNamed(s, e.authority, publisher, e.cooling.ownerBoot, e.cooling.ownerWorker);
  }

  lemma CoolingIff(strict: bool, env: Env, s: Core, e: Event, now: i64)
    requires e.PublishCooling? && Fine(strict, s) && Structured(s) && BootsKeyed(s)
    ensures FineIff(strict, e, CoolingStep(env, s, e, now))
  {
    hide Fine, FineIff, CheckAuthority, JudgeCooling, Conclude, AdvancePublication, Structured, BootsKeyed, Settled,
      CarriesSane, SanePower, SaneCooling, DerivedCooling, OwnerOf, WorkerOf, SortZones;
    Facts.GrantMeans(s, e.authority, true);
    var a := CheckAuthority(s, e.authority, true);
    if a.Granted? {
      GrantIsSettled(s, e.authority, true);
      var g := s.generations;
      var c := e.cooling.(generation := Advance(g.cooling), zones := SortZones(e.cooling.zones),
                          stamp := e.cooling.stamp.(revalidationRequired := false),
                          ownerBoot := OwnerOf(e.authority.boot, e.cooling.ownerBoot),
                          ownerWorker := WorkerOf(s, a.publisher, e.cooling.ownerWorker));
      var u := s.(cooling := Some(DerivedCooling(env, c, now)),
                  generations := g.(cooling := Advance(g.cooling), constraints := Advance(g.constraints)));
      if strict && JudgeCooling(s, e).Accepted? {
        CommittedCooling(env, s, e, a.publisher, c, now);
        SaneHasEnvelopes(s);
      }
      EnvelopeSane(strict, s, u);
      ConcludedIff(strict, s, e, a.publisher, JudgeCooling(s, e), u);
    } else {
      UnacceptedIff(strict, s, e, a.outcome);
    }
  }

  // ----- The rack and its publishers -----

  lemma OnePublisherSane(strict: bool, s: Core, b: Text, p: PublisherRecord)
    requires Fine(strict, s)
    ensures Fine(strict, s.(publishers := s.publishers[b := p])) <==> (strict ==> SanePublisher(p))
  {
    hide FineMembers, FineSnapshots, SaneRelationships, SaneDomains, SanePower, SaneCooling, SaneFencedBoots, SaneRack,
      SanePublisher;
    assert s.publishers[b := p][b] == p;
  }

  lemma RegisterIff(strict: bool, s: Core, limits: Limits, e: Event, now: i64)
    requires e.RegisterPublisher? && Fine(strict, s)
    ensures FineIff(strict, e, Register(s, limits, e, now))
  {
    hide Fine, IsIdentity, IsLabel;
    if e.boot.Some? && e.worker.Some? {
      var b := e.boot.value;
      if b in s.publishers {
        var p := s.publishers[b].(lastSeenAt := now, state := PublisherState.Active);
        OnePublisherSane(strict, s, b, p);
        PublisherIsSane(strict, s, b);
      }
      OnePublisherSane(strict, s, b, PublisherRecord(
        e.worker.value, b, s.generations.coordinatorEpoch, 1, PublisherState.Active, now, now, limits.publisherLeaseMillis,
        e.labelText, 0, 0));
    }
  }

  lemma PublisherIsSane(strict: bool, s: Core, b: Text)
    requires Fine(strict, s) && b in s.publishers
    ensures strict ==> SanePublisher(s.publishers[b])
  {
    hide FineMembers, FineSnapshots, SaneRelationships, SaneDomains, SanePower, SaneCooling, SaneFencedBoots, SaneRack,
      SanePublisher;
  }

  lemma HeartbeatFine(strict: bool, s: Core, e: Event, now: i64)
    requires e.Heartbeat? && Fine(strict, s)
    ensures Fine(strict, HeartbeatStep(s, e, now).state)
  {
    hide Fine, CheckAuthority, IsIdentity;
    var a := CheckAuthority(s, e.authority, false);
    if a.Granted? && a.publisher.Some? && a.publisher.value in s.publishers {
      var b := a.publisher.value;
      OnePublisherSane(strict, s, b, s.publishers[b].(lastSeenAt := now, state := PublisherState.Active));
      PublisherIsSane(strict, s, b);
    }
  }

  lemma RackOnly(strict: bool, s: Core, u: Core)
    requires Fine(strict, s) && u == s.(rack := u.rack, generations := u.generations)
    ensures Fine(strict, u) <==> (strict ==> SaneRack(u.rack))
  {
    hide FineMembers, FineSnapshots, SaneRelationships, SaneDomains, SanePower, SaneCooling, SaneFencedBoots, SaneRack,
      SanePublishers;
  }

  lemma DeclareIff(strict: bool, s: Core, e: Event, now: i64)
    requires e.DeclareRack? && Fine(strict, s)
    ensures FineIff(strict, e, Declare(s, e, now))
  {
    hide Fine, CheckAuthority, IsIdentity, IsLabel, Redeclared;
    Facts.GrantMeans(s, e.authority, false);
    var step := Declare(s, e, now);
    if step.outcome.Accepted? {
      if s.rack.None? {
        RackOnly(strict, s, step.state);
      } else {
        RedeclaredFine(strict, s, e.rackEpoch.value, e.labelText, s.rack.value.generation + 1, now);
        RackIsSane(strict, s);
      }
    }
  }

  lemma RackIsSane(strict: bool, s: Core)
    requires Fine(strict, s)
    ensures strict ==> SaneRack(s.rack)
  {
    hide FineMembers, FineSnapshots, SaneRack;
  }

  lemma RedeclaredFine(strict: bool, s: Core, epoch: Text, labelText: Option<Text>, generation: u64, now: i64)
    requires Fine(strict, s) && s.rack.Some? && IsIdentity(epoch)
    ensures Fine(strict, Redeclared(s, epoch, labelText, generation, now))
  {
    hide FineMember, FineSnapshots, SanePower, SaneCooling, SaneFencedBoots, SanePublishers, IsIdentity, AllNamed,
      Named, SaneQuantity;
    var t := Redeclared(s, epoch, labelText, generation, now);
    forall k | k in t.members
      ensures FineMember(strict, t.members[k])
    {
      ChangesAreFine(strict, s.members[k], RevalidationReason.Superseded, true, k);
    }
  }

  lemma RetireMemberFine(strict: bool, s: Core, e: Event)
    requires e.RetireMember? && Fine(strict, s)
    ensures Fine(strict, RetireMemberStep(s, e).state)
  {
    hide Fine, CheckAuthority, Conclude, AdvancePublication, NoteRejection, RetiredMember, Retirement, JudgeRetirement;
    var a := CheckAuthority(s, e.authority, true);
    if a.Granted? {
      EndingsFine(strict, s, a.publisher);
      if e.member in s.members {
        RetiredMemberFine(strict, s, e.member);
        ConcludeFine(strict, s, a.publisher, JudgeRetirement(s.members[e.member]),
                     RetiredMember(s, e.member, Retirement(s.members[e.member])));
      }
    }
  }

  lemma RetiredMemberFine(strict: bool, s: Core, k: MemberKey)
    requires Fine(strict, s) && k in s.members
    ensures Fine(strict, RetiredMember(s, k, Retirement(s.members[k])))
  {
    hide FineMember, FineSnapshots, SaneDomains, SanePower, SaneCooling, SaneFencedBoots, SanePublishers, SaneRack,
      SaneRelationship, Retirement, Detached;
    var t := RetiredMember(s, k, Retirement(s.members[k]));
    forall j | j in t.members
      ensures FineMember(strict, t.members[j])
    {
      ChangesAreFine(strict, s.members[j], NoReason, false, k);
    }
  }

  lemma RetireRackFine(strict: bool, s: Core, e: Event, now: i64)
    requires e.RetireRack? && Fine(strict, s) && BootsKeyed(s)
    ensures Fine(strict, RetireRackStep(s, e, now).state)
  {
    hide Fine, CheckAuthority, AdvancePublication, RetiredRack;
    var a := CheckAuthority(s, e.authority, true);
    if s.rack.Some? && s.rack.value.generation < U64_MAX && a.Granted? {
      RetiredRackFine(strict, s, s.rack.value.generation + 1, now);
      EndingsFine(strict, RetiredRack(s, s.rack.value.generation + 1, now), a.publisher);
    }
  }

  lemma RetiredRackFine(strict: bool, s: Core, generation: u64, now: i64)
    requires Fine(strict, s) && s.rack.Some? && BootsKeyed(s)
    ensures Fine(strict, RetiredRack(s, generation, now))
  {
    hide FineMember, FineSnapshots, SaneRelationships, SaneDomains, SanePower, SaneCooling, IsIdentity, LeftByRack;
    var t := RetiredRack(s, generation, now);
    forall k | k in t.members
      ensures FineMember(strict, t.members[k])
    {
      ChangesAreFine(strict, s.members[k], NoReason, false, k);
    }
    if strict {
      forall b | b in t.fencedBoots
        ensures SaneFenced(t.fencedBoots[b])
      {
        if b in s.publishers {
          assert SanePublisher(s.publishers[b]) && s.publishers[b].boot == b;
        }
      }
      assert forall b :: b in t.publishers ==> SanePublisher(s.publishers[b]);
    }
  }

  // ----- Revalidation and fencing -----

  lemma {:induction false} RevalidateEachFine(
    strict: bool, members: map<MemberKey, MemberRecord>, targets: seq<MemberKey>, token: AuthorityToken, changed: bool)
    requires FineMembers(strict, members)
    ensures FineMembers(strict, RevalidateEach(members, targets, token, changed).members)
    decreases |targets|
  {
    hide FineMember, FineMembers;
    if targets != [] && targets[0] in members {
      var key := targets[0];
      if members[key].generation < U64_MAX {
        var r := members[key].Revalidate(false, NoReason);
        FineMemberAt(strict, members, key);
        ChangesAreFine(strict, members[key], NoReason, false, key);
        CountersAreFine(strict, r, Revalidated(members[key]));
        OneMemberFine(strict, members, key, Revalidated(members[key]));
        RevalidateEachFine(strict, members[key := Revalidated(members[key])], targets[1..], token, true);
      }
      RevalidateEachFine(strict, members, targets[1..], token, changed);
    }
  }

  lemma FineMemberAt(strict: bool, members: map<MemberKey, MemberRecord>, k: MemberKey)
    requires FineMembers(strict, members) && k in members
    ensures FineMember(strict, members[k])
  {
    hide FineMember;
  }

  lemma RevalidateFine(strict: bool, s: Core, e: Event)
    requires e.RevalidateMembers? && Fine(strict, s)
    ensures Fine(strict, RevalidateStep(s, e).state)
  {
    hide Fine, FineMembers, CheckAuthority, AdvancePublication, NoteRejection, RevalidateEach, Outstanding;
    var a := CheckAuthority(s, e.authority, true);
    if a.Granted? {
      var targets := if e.all then Outstanding(s.members) else e.members;
      var u := s.(members := RevalidateEach(s.members, targets, e.authority, false).members);
      FineHasMembers(strict, s);
      RevalidateEachFine(strict, s.members, targets, e.authority, false);
      MembersOnly(strict, s, u);
      MembersOnly(strict, s, AdvanceMembership(u));
      EndingsFine(strict, u, a.publisher);
      EndingsFine(strict, AdvanceMembership(u), a.publisher);
    }
  }

  lemma FencedEnvelopesSane(p: Option<PowerEnvelope>, c: Option<CoolingEnvelope>, boot: Text)
    ensures SanePower(p) ==> SanePower(if p.Some? then Some(FencedPower(p.value, boot)) else None)
    ensures SaneCooling(c) ==> SaneCooling(if c.Some? then Some(FencedCooling(c.value, boot)) else None)
  {
    hide IsIdentity, SaneBudget;
    if c.Some? && SaneCooling(c) {
      var zones := FencedCooling(c.value, boot).zones;
      forall i | 0 <= i < |zones|
        ensures SaneZone(zones[i])
      {
        assert SaneZone(c.value.zones[i]);
      }
    }
  }

  lemma FenceBootFine(strict: bool, s: Core, boot: Text, reason: RevalidationReason, now: i64)
    requires Fine(strict, s) && boot in s.publishers && BootsKeyed(s)
    ensures Fine(strict, FenceBoot(s, boot, reason, now)) && BootsKeyed(FenceBoot(s, boot, reason, now))
  {
    hide FineMember, FineSnapshots, SanePower, SaneCooling, SaneRack, IsIdentity, FencedMember, FencedPower,
      FencedCooling, AllNamed, Named, SaneQuantity;
    var t := FenceBoot(s, boot, reason, now);
    forall k | k in t.members
      ensures FineMember(strict, t.members[k])
    {
      FencedIsFine(strict, s.members[k], reason);
    }
    FencedEnvelopesSane(s.power, s.cooling, boot);
    if strict {
      FencedPublishersSane(s, boot, reason, now);
      FencedTopologySane(s, boot);
    }
  }

  lemma FencedPublishersSane(s: Core, boot: Text, reason: RevalidationReason, now: i64)
    requires SanePublishers(s.publishers) && SaneFencedBoots(s.fencedBoots) && boot in s.publishers && BootsKeyed(s)
    ensures SanePublishers(s.publishers[boot := s.publishers[boot].(state := PublisherState.Fenced)])
    ensures SaneFencedBoots(s.fencedBoots[boot := FencedRecord(s, boot, now, reason)])
  {
    hide IsIdentity;
    assert SanePublisher(s.publishers[boot]) && s.publishers[boot].boot == boot;
  }

  lemma FencedTopologySane(s: Core, boot: Text)
    ensures forall k :: k in s.relationships && SaneRelationship(s.relationships[k]) ==>
              SaneRelationship(FencedRelationship(s.relationships[k], boot))
    ensures forall d :: d in s.failureDomains && SaneDomain(s.failureDomains[d]) ==>
              SaneDomain(FencedDomain(s.failureDomains[d], boot))
  {
    hide IsIdentity, AllNamed, Named, SaneQuantity;
  }

  lemma FenceFine(strict: bool, s: Core, epoch: u64, boot: Option<Text>, reason: RevalidationReason, now: i64)
    requires Fine(strict, s) && BootsKeyed(s)
    ensures var t := FenceStep(s, epoch, boot, reason, now).state; Fine(strict, t) && BootsKeyed(t)
  {
    hide Fine, BootsKeyed, FenceBoot;
    if boot.Some? && boot.value in s.publishers {
      FenceBootFine(strict, s, boot.value, reason, now);
    }
  }

  lemma {:induction false} FenceEachFine(strict: bool, s: Core, boots: seq<Text>, now: i64)
    requires Fine(strict, s) && BootsKeyed(s)
    ensures Fine(strict, FenceEach(s, boots, now).state)
    decreases |boots|
  {
    hide Fine, BootsKeyed, FenceStep;
    if boots != [] {
      FenceFine(strict, s, s.generations.coordinatorEpoch, Some(boots[0]), OwnerProcessLost, now);
      FenceEachFine(strict, FenceStep(s, s.generations.coordinatorEpoch, Some(boots[0]), OwnerProcessLost, now).state,
                    boots[1..], now);
    }
  }

  // ----- Snapshots -----

  lemma BuiltIsFine(strict: bool, env: Env, s: Core, id: Text, generation: u64, publication: u64, now: i64)
    requires Fine(strict, s) && s.rack.Some? && IsIdentity(id)
    ensures FineSnapshot(strict, BuildSnapshot(env, s, id, generation, publication, now))
  {
    hide Lifecycle, IsIdentity, SaneMember, SaneRelationship, SaneDomain, SanePower, SaneCooling, TypedDetails, InOrder,
      StrictTotal, SanePublishers, SaneFencedBoots, FineSnapshots;
    MemberOrder();
    RelationshipOrder();
    TextOrder();
    AllInOrder(s.members, MemberLess, (r: MemberRecord) => TypedDetails(r.details));
    AllInOrder(s.members, MemberLess, SaneMember);
    AllInOrder(s.relationships, RelationshipLess, SaneRelationship);
    AllInOrder(s.failureDomains, TextLess, SaneDomain);
  }

  lemma SnapshotsOnlyFine(strict: bool, s: Core, u: Core)
    requires Fine(strict, s) && u == s.(snapshotGeneration := u.snapshotGeneration, snapshots := u.snapshots)
    requires FineSnapshots(strict, u.snapshots)
    ensures Fine(strict, u)
  {
    hide FineMembers, FineSnapshots, SaneRelationships, SaneDomains, SanePower, SaneCooling, SaneFencedBoots, SaneRack,
      SanePublishers;
  }

  lemma RetainedAreFine(strict: bool, s: Core, limit: nat, generation: u64, x: RackSnapshot)
    requires Fine(strict, s) && FineSnapshot(strict, x)
    ensures FineSnapshots(strict, Retain(s.snapshots, limit, generation, x))
  {
    hide FineMembers, FineSnapshot;
  }

  lemma SnapshotFine(strict: bool, env: Env, s: Core, e: Event, now: i64)
    requires e.PublishSnapshot? && Fine(strict, s)
    ensures Fine(strict, SnapshotStep(env, s, e, now).state)
  {
    hide Fine, CheckAuthority, AdvancePublication, BuildSnapshot, Retain, SnapshotId, IsIdentity, FineSnapshot,
      FineSnapshots;
    Facts.GrantMeans(s, e.authority, true);
    if SnapshotStep(env, s, e, now).outcome.Accepted? {
      var a := CheckAuthority(s, e.authority, true);
      var generation := s.snapshotGeneration + 1;
      var id := SnapshotId(s.rack.value.id, generation);
      var x := BuildSnapshot(env, s, id, generation, SnapshotPublication(s, a.publisher), now);
      var u := s.(snapshotGeneration := generation,
                  snapshots := Retain(s.snapshots, env.limits.maxRetainedSnapshots, generation, x));
      BuiltIsFine(strict, env, s, id, generation, SnapshotPublication(s, a.publisher), now);
      RetainedAreFine(strict, s, env.limits.maxRetainedSnapshots, generation, x);
      SnapshotsOnlyFine(strict, s, u);
      EndingsFine(strict, u, a.publisher);
    }
  }

  // ----- Every request -----

  lemma StepFineIff(strict: bool, env: Env, s: Core, e: Event, now: i64)
    requires Fine(strict, s) && Structured(s) && BootsKeyed(s)
    ensures FineIff(strict, e, Apply(env, s, e, now))
  {
    hide Fine, Structured, BootsKeyed, PublishMemberStep, RevalidateStep, RetireMemberStep, RetireRackStep, Declare,
      FenceStep, FenceEach, HealthStep, CapabilityStep, WithdrawStep, MarkUnavailableStep, Expired, Register,
      RelationshipStep, DomainStep, WithdrawRelationshipStep, PowerStep, CoolingStep, HeartbeatStep, SnapshotStep,
      TypedDetails, SaneDetails, SaneObservations, NamedOwners, CheckableBudget, Named;
    match e {
      case RegisterPublisher(_, _, _, _, _) => RegisterIff(strict, s, env.limits, e, now);
      case DeclareRack(_, _, _, _) => DeclareIff(strict, s, e, now);
      case PublishMember(_, _, _, _) => PublishMemberIff(strict, s, env.limits, e);
      case PublishRelationship(_, _, _) => RelationshipIff(strict, s, env.limits, e);
      case PublishFailureDomain(_, _, _) => DomainIff(strict, s, env.limits, e);
      case PublishPower(_, _, _) => PowerIff(strict, env, s, e, now);
      case PublishCooling(_, _, _) => CoolingIff(strict, env, s, e, now);
      case PublishHealth(_, _, _, _, _, _) => UpdatesFine(strict, s, env.limits, e);
      case PublishCapability(_, _, _) => UpdatesFine(strict, s, env.limits, e);
      case WithdrawEvidence(_, _, _) => UpdatesFine(strict, s, env.limits, e);
      case WithdrawRelationship(_, _) => WithdrawRelationshipIff(strict, s, e);
      case MarkUnavailable(_, _, _) => UpdatesFine(strict, s, env.limits, e);
      case RetireMember(_, _) => RetireMemberFine(strict, s, e);
      case RetireRack(_) => RetireRackFine(strict, s, e, now);
      case RevalidateMembers(_, _, _) => RevalidateFine(strict, s, e);
      case Heartbeat(_) => HeartbeatFine(strict, s, e, now);
      case FencePublisher(epoch, boot, reason) => FenceFine(strict, s, epoch, boot, reason, now);
      case ExpirePublishers => FenceEachFine(strict, s, Expired(s, now), now);
      case PublishSnapshot(_) => SnapshotFine(strict, env, s, e, now);
    }
  }

  /**
   * From a state that a reader would take back, a request leads to one that it refuses exactly when it is accepted and
   * carries, in a part that no mutation looks at, a lifetime out of range or an identity that is not valid.
   */
  lemma StepStaysSaneIff(env: Env, s: Core, e: Event, now: i64)
    requires Structured(s) && BootsKeyed(s) && TypedState(s) && StateStreams.SaneState(env.limits, s) && CarriesTyped(e)
    ensures var step := Apply(env, s, e, now);
            && TypedState(step.state)
            && (StateStreams.SaneState(env.limits, step.state) <==> (step.outcome.Accepted? ==> CarriesSane(e)))
  {
    hide Apply, Structured, BootsKeyed, TypedState, StateStreams.SaneState, CarriesSane, CarriesTyped, Fine;
    FineMeans(env.limits, s);
    FineMeans(env.limits, Apply(env, s, e, now).state);
    StepFineIff(true, env, s, e, now);
    StepFineIff(false, env, s, e, now);
  }

  lemma ConsistentIsReady(env: Env, s: Core)
    requires Regular(s) && Consistent(s, env)
    ensures Structured(s) && BootsKeyed(s)
  {
    hide Structured, RecordsOk;
  }

  /** The first `n` requests carry nothing unchecked that a reader refuses, if they were accepted. */
  ghost predicate RunCarriesSane(env: Env, s: Core, run: seq<Timed>, n: nat)
    requires n <= |run|
  {
    forall i :: 0 <= i < n && StepAt(env, s, run, i).outcome.Accepted? ==> CarriesSane(run[i].event)
  }

  predicate RunCarriesTyped(run: seq<Timed>) { forall i :: 0 <= i < |run| ==> CarriesTyped(run[i].event) }

  /** Along a run of such requests the state stays one that a reader takes back. */
  lemma {:induction false} RunStaysSane(env: Env, s: Core, run: seq<Timed>, n: nat, strict: bool)
    requires Regular(s) && Consistent(s, env) && Fine(strict, s) && n <= |run| && RunCarriesTyped(run)
    requires strict ==> RunCarriesSane(env, s, run, n)
    ensures Fine(strict, At(env, s, run, n))
    decreases n
  {
    hide Regular, Consistent, Fine, Apply, Structured, BootsKeyed, CarriesSane, CarriesTyped;
    if n > 0 {
      RunStaysSane(env, s, run, n - 1, strict);
      RunKeepsConsistency(env, s, run, n - 1);
      ConsistentIsReady(env, At(env, s, run, n - 1));
      StepFineIff(strict, env, At(env, s, run, n - 1), run[n - 1].event, run[n - 1].now);
      assert At(env, s, run, n) == StepAt(env, s, run, n - 1).state;
      assert CarriesTyped(run[n - 1].event);
    }
  }

  lemma InitialIsFine(strict: bool)
    ensures Fine(strict, INITIAL) && BootsKeyed(INITIAL)
  {
  }

  // ----- Such requests exist -----

  /** A memory domain whose bandwidth is to live for less than no time. */
  function MemoryWithExpiredBandwidth(id: Text): MemberRecord {
    MemberRecord(MemberKey(MemoryDomain, id), MemberLifecycle.Declared, 0, 0, NO_EVIDENCE, NoReason, None, None, None,
                 [], None, None, None, NO_HEALTH, NO_READINESS, NO_REACHABILITY, [], MEMORY_DETAILS, None)
  }

  /** Whoever may publish can store it, and a state that could be read back then no longer can. */
  lemma ExpiredBandwidthIsStored(env: Env, s: Core, token: AuthorityToken, id: Text, now: i64)
    requires Structured(s) && BootsKeyed(s) && TypedState(s) && StateStreams.SaneState(env.limits, s)
    requires CheckAuthority(s, token, true).Granted? && IsIdentity(id)
    requires MemberKey(MemoryDomain, id) !in s.members && |s.members| < env.limits.maxMembers
    ensures var step := Apply(env, s, PublishMember(token, MemoryWithExpiredBandwidth(id), None, false), now);
            step.outcome.Accepted? && TypedState(step.state) && !StateStreams.SaneState(env.limits, step.state)
  {
    hide Structured, BootsKeyed, TypedState, StateStreams.SaneState, CheckAuthority, TypedDetails, SaneDetails,
      IsIdentity, CommitMember;
    var r := MemoryWithExpiredBandwidth(id);
    var e := PublishMember(token, r, None, false);
    MemoryDetailsAreTyped();
    assert ValidMemberRecord(r, env.limits);
    assert JudgeMember(s, env.limits, e).Accepted?;
    StepStaysSaneIff(env, s, e, now);
  }
}
