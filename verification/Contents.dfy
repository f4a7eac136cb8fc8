/** What an accepted request stores, and everything it leaves alone: one statement for each kind of request. */
module Contents {
  import opened Wrappers
  import opened Evidence
  import opened Model
  import opened Ordering
  import opened Machine
  import Facts = Progress
  import opened Structure
  import opened Runs
  import opened Effects

  // ----- Changes of one member -----

  /** The next generation of a member, under the publication generation of the process that asked, if one did. */
  ghost predicate Renumbered(s: Core, token: AuthorityToken, r: MemberRecord, n: MemberRecord) {
    && n.generation == r.generation + 1
    && (token.boot.None? ==> n.publicationGeneration == r.publicationGeneration)
    && (token.boot.Some? ==>
          && token.boot.value in s.publishers
          && n.publicationGeneration == s.publishers[token.boot.value].publicationGeneration)
  }

  function Numbered(r: MemberRecord, n: MemberRecord): MemberRecord {
    r.(generation := n.generation, publicationGeneration := n.publicationGeneration)
  }

  lemma UpdatedMember(s: Core, token: AuthorityToken, publisher: Option<Text>, next: MemberRecord, g: GenerationSet)
    requires next.key in s.members && next.generation < U64_MAX
    requires publisher == token.boot && (publisher.Some? ==> publisher.value in s.publishers)
    ensures var t, k := AdvancePublication(Update(s, publisher, next).(generations := g), publisher), next.key;
            && OthersKept(s, t, k) && Counted(s, token, t) && t.generations == g
            && Renumbered(s, token, next, t.members[k]) && t.members[k] == Numbered(next, t.members[k])
  {
    var u := Update(s, publisher, next);
    UpdateKeepsOthers(s, publisher, next);
    EndingKeepsRecords(u.(generations := g), publisher);
    UpdateKeepsPublishers(s, publisher, next);
    EndingIsCounted(s, token, u.(generations := g), publisher);
    OthersStillKept(s, u, AdvancePublication(u.(generations := g), publisher), next.key);
    hide OthersKept, AdvancePublication, Counted;
  }

  /** Nothing was observed: no evidence, and nothing that is fresh at the time asked about. */
  predicate IsBlank<T>(e: EvidenceValue<T>, at: i64) {
    e.stamp.provenance.Unknown? && !e.stamp.IsFreshAt(at)
  }

  /** The record without what the scope names, and with everything else. */
  predicate Forgets(scope: WithdrawScope, r: MemberRecord, n: MemberRecord, at: i64) {
    match scope
    case OfHealth => IsBlank(n.health, at) && n.health.value.Unknown? && n == Numbered(r, n).(health := n.health)
    case OfReadiness =>
      IsBlank(n.readiness, at) && n.readiness.value.Unknown? && n == Numbered(r, n).(readiness := n.readiness)
    case OfReachability =>
      IsBlank(n.reachability, at) && n.reachability.value.Unknown?
        && n == Numbered(r, n).(reachability := n.reachability)
    case OfCapabilities => n.capabilities == [] && n == Numbered(r, n).(capabilities := [])
    case OfDetails => n.details.NoDetails? && n == Numbered(r, n).(details := n.details)
    case All =>
      && IsBlank(n.health, at) && IsBlank(n.readiness, at) && IsBlank(n.reachability, at) && n.capabilities == []
      && n.stamp.provenance.Unknown? && !n.stamp.IsFreshAt(at) && !n.stamp.revalidationRequired
      && n.lifecycle.Declared? && n.revalidationReason.NoReason?
      && n == Numbered(r, n).(stamp := n.stamp, revalidationReason := NoReason, lifecycle := n.lifecycle,
                              health := n.health, readiness := n.readiness, reachability := n.reachability,
                              capabilities := [])
  }

  /** A withdrawal takes away exactly what its scope names, for all times, and leaves every other member alone. */
  lemma WithdrawalForgets(s: Core, e: Event, at: i64)
    requires e.WithdrawEvidence? && WithdrawStep(s, e).outcome.Accepted? && Structured(s)
    ensures var t, k := WithdrawStep(s, e).state, e.member;
            && k in s.members && OthersKept(s, t, k) && Counted(s, e.authority, t)
            && t.generations == s.generations.(membership := Advance(s.generations.membership))
            && Renumbered(s, e.authority, s.members[k], t.members[k])
            && Forgets(e.scope, s.members[k], t.members[k], at)
  {
    hide Structured, CheckAuthority, AdvancePublication, Conclude, OthersKept, Counted, Update;
    Facts.GrantMeans(s, e.authority, true);
    var a := CheckAuthority(s, e.authority, true);
    assert a.Granted?;
    MemberKeyMatches(s, e.member);
    if e.member in s.members {
      var r := s.members[e.member];
      var u := AdvanceMembership(Update(s, a.publisher, Withdrawn(r, e.scope)));
      OnlyAccepted(s, a.publisher, JudgeWithdrawal(r, e), AdvancePublication(u, a.publisher));
      UpdateGenerations(s, a.publisher, Withdrawn(r, e.scope));
      UpdatedMember(s, e.authority, a.publisher, Withdrawn(r, e.scope), u.generations);
    } else {
      RefusalIsNotAccepted(s, a.publisher);
    }
  }

  lemma UpdateGenerations(s: Core, publisher: Option<Text>, r: MemberRecord)
    ensures Update(s, publisher, r).generations == s.generations
  {
  }

  /** The first capability of this identity is replaced; one of a new identity is appended. */
  predicate Lists(before: seq<CapabilityRef>, c: CapabilityRef, after: seq<CapabilityRef>) {
    || (exists i :: 0 <= i < |before| && before[i].id == c.id && after == before[i := c]
                    && forall j :: 0 <= j < i ==> before[j].id != c.id)
    || ((forall j :: 0 <= j < |before| ==> before[j].id != c.id) && after == before + [c])
  }

  lemma CapabilityIsListed(before: seq<CapabilityRef>, c: CapabilityRef)
    ensures Lists(before, c, WithCapability(before, c))
  {
    hide CapabilityIndex;
    var i := CapabilityIndex(before, c.id);
    if i < |before| {
      assert before[i].id == c.id && WithCapability(before, c) == before[i := c];
    }
  }

  /** An accepted capability is listed as it was sent, confirmed anew; every other one keeps its place. */
  lemma CapabilityIsWhatWasPublished(s: Core, limits: Limits, e: Event)
    requires e.PublishCapability? && CapabilityStep(s, limits, e).outcome.Accepted? && Structured(s)
    ensures var t, k := CapabilityStep(s, limits, e).state, e.member;
            && k in s.members && OthersKept(s, t, k) && Counted(s, e.authority, t)
            && t.generations == s.generations.(capabilities := Advance(s.generations.capabilities))
            && Renumbered(s, e.authority, s.members[k], t.members[k])
            && t.members[k] == Numbered(s.members[k], t.members[k]).(capabilities := t.members[k].capabilities)
            && e.capability.Some?
            && var c := e.capability.value;
               Lists(s.members[k].capabilities, c.(stamp := c.stamp.(revalidationRequired := false)),
                 t.members[k].capabilities)
  {
    hide Structured, CheckAuthority, AdvancePublication, Conclude, OthersKept, Counted, Update, CapabilityIndex,
      WithCapability, Lists;
    Facts.GrantMeans(s, e.authority, true);
    var a := CheckAuthority(s, e.authority, true);
    assert a.Granted?;
    MemberKeyMatches(s, e.member);
    if e.member in s.members {
      var r := s.members[e.member];
      var u := AdvanceCapabilities(Update(s, a.publisher, NextCapabilities(r, e)));
      OnlyAccepted(s, a.publisher, JudgeCapability(r, limits, e), AdvancePublication(u, a.publisher));
      UpdateGenerations(s, a.publisher, NextCapabilities(r, e));
      UpdatedMember(s, e.authority, a.publisher, NextCapabilities(r, e), u.generations);
      CapabilityIsListed(r.capabilities, Refreshed(e.capability.value));
    } else {
      RefusalIsNotAccepted(s, a.publisher);
    }
  }

  /** A member marked unavailable must be asserted again, for the reason given; all it was observed to be is kept. */
  lemma UnavailableIsWhatWasMarked(s: Core, e: Event, at: i64)
    requires e.MarkUnavailable? && MarkUnavailableStep(s, e).outcome.Accepted? && Structured(s)
    ensures var t, k := MarkUnavailableStep(s, e).state, e.member;
            && k in s.members && OthersKept(s, t, k) && Counted(s, e.authority, t)
            && t.generations == s.generations.(membership := Advance(s.generations.membership))
            && t.members[k].lifecycle.Unavailable? && t.members[k].revalidationReason == e.reason
            && !t.members[k].stamp.IsFreshAt(at) && t.members[k].generation == s.members[k].generation + 1
            && t.members[k] == s.members[k].(lifecycle := MemberLifecycle.Unavailable,
              generation := t.members[k].generation,
                                             revalidationReason := e.reason,
                                             stamp := s.members[k].stamp.(revalidationRequired := true))
  {
    hide Structured, CheckAuthority, AdvancePublication, Conclude, OthersKept, Counted;
    Facts.GrantMeans(s, e.authority, true);
    var a := CheckAuthority(s, e.authority, true);
    assert a.Granted?;
    MemberKeyMatches(s, e.member);
    if e.member in s.members {
      var r := s.members[e.member];
      var changed := Update(s, None, MadeUnavailable(r, e.reason));
      var u := AdvanceMembership(changed);
      OnlyAccepted(s, a.publisher, JudgeUnavailable(r, e), AdvancePublication(u, a.publisher));
      UpdateGenerations(s, None, MadeUnavailable(r, e.reason));
      EndingKeepsRecords(u, a.publisher);
      UpdateKeepsPublishers(s, None, MadeUnavailable(r, e.reason));
      EndingIsCounted(s, e.authority, u, a.publisher);
      UpdateKeepsOthers(s, None, MadeUnavailable(r, e.reason));
      OthersStillKept(s, changed, MarkUnavailableStep(s, e).state, e.member);
    } else {
      RefusalIsNotAccepted(s, a.publisher);
    }
  }

  // ----- Relationships, failure domains, envelopes -----

  /** Everything is as before except what one request may touch besides its own record: counters and publishers. */
  ghost function Around(s: Core, t: Core): Core {
    s.(generations := t.generations, publishers := t.publishers, operatorPublication := t.operatorPublication)
  }

  /** What a process publishes is its own; an operator names the owner. */
  ghost predicate OwnedBy(
    s: Core, token: AuthorityToken, boot: Option<Text>, worker: Option<Text>, sentBoot: Option<Text>,
      sentWorker: Option<Text>)
  {
    && (token.boot.None? ==> boot == sentBoot && worker == sentWorker)
    && (token.boot.Some? ==>
          && boot == token.boot && token.boot.value in s.publishers
          && worker == Some(s.publishers[token.boot.value].worker))
  }

  lemma OwnersMean(s: Core, token: AuthorityToken, publisher: Option<Text>, sentBoot: Option<Text>,
      sentWorker: Option<Text>)
    requires publisher == token.boot && (publisher.Some? ==> publisher.value in s.publishers)
    ensures OwnedBy(s, token, OwnerOf(token.boot, sentBoot), WorkerOf(s, publisher, sentWorker), sentBoot, sentWorker)
  {
  }

  /** The relationship is stored under this key as it was sent, and nothing but its own map and counter changed. */
  ghost predicate StoresRelationship(s: Core, t: Core, token: AuthorityToken, sent: RelationshipRecord,
      k: RelationshipKey) {
    && t.relationships.Keys == s.relationships.Keys + {k}
    && (forall j :: j in s.relationships && j != k ==> t.relationships[j] == s.relationships[j])
    && t == Around(s, t).(relationships := t.relationships) && Counted(s, token, t)
    && s.generations.topology < U64_MAX && t.generations == s.generations.(topology := s.generations.topology + 1)
    && k in t.relationships
    && var r := t.relationships[k];
       && OwnedBy(s, token, r.ownerBoot, r.ownerWorker, sent.ownerBoot, sent.ownerWorker)
       && r == sent.(key := k, generation := t.generations.topology, ownerBoot := r.ownerBoot,
         ownerWorker := r.ownerWorker)
  }

  /** An accepted relationship is stored as it was sent, under the canonical form of its key. */
  lemma RelationshipIsWhatWasPublished(s: Core, limits: Limits, e: Event)
    requires e.PublishRelationship? && RelationshipStep(s, limits, e).outcome.Accepted?
    ensures var k := Canonical(e.relationship.key);
            && SameRelationship(k, e.relationship.key) && (IsSymmetric(k.cls) ==> !MemberLess(k.to, k.from))
            && StoresRelationship(s, RelationshipStep(s, limits, e).state, e.authority, e.relationship, k)
  {
    hide CheckAuthority, AdvancePublication, Conclude, Counted, Canonical, Machine.JudgeRelationship;
    Facts.GrantMeans(s, e.authority, true);
    var a := CheckAuthority(s, e.authority, true);
    assert a.Granted?;
    var r := e.relationship.(key := Canonical(e.relationship.key));
    OnlyAccepted(s, a.publisher, Machine.JudgeRelationship(s, limits, e, r), CommitRelationship(s, e.authority,
      a.publisher, r));
    TopologyHasRoom(s, limits, e, r);
    CanonicalKeysMeet(e.relationship.key, e.relationship.key);
    CanonicalIsOrdered(e.relationship.key);
    OwnersMean(s, e.authority, a.publisher, r.ownerBoot, r.ownerWorker);
    var c := r.(generation := Advance(s.generations.topology), ownerBoot := OwnerOf(e.authority.boot, r.ownerBoot),
                ownerWorker := WorkerOf(s, a.publisher, r.ownerWorker));
    var u := s.(relationships := s.relationships[r.key := c],
                generations := s.generations.(topology := Advance(s.generations.topology)));
    EndingKeepsRecords(u, a.publisher);
    EndingIsCounted(s, e.authority, u, a.publisher);
    hide OwnedBy, OwnerOf, WorkerOf, MemberLess, SameRelationship;
  }

  lemma TopologyHasRoom(s: Core, limits: Limits, e: Event, r: RelationshipRecord)
    requires e.PublishRelationship? && Machine.JudgeRelationship(s, limits, e, r).Accepted?
    ensures s.generations.topology < U64_MAX
  {
  }

  lemma CanonicalIsOrdered(k: RelationshipKey)
    ensures IsSymmetric(k.cls) ==> !MemberLess(Canonical(k).to, Canonical(k).from)
  {
    MemberOrder();
    hide MemberLess;
  }

  /** An accepted withdrawal takes away the one relationship it names. */
  lemma RelationshipIsWithdrawn(s: Core, e: Event)
    requires e.WithdrawRelationship? && WithdrawRelationshipStep(s, e).outcome.Accepted?
    ensures var t, k := WithdrawRelationshipStep(s, e).state, Canonical(e.key);
            && k in s.relationships && SameRelationship(k, e.key)
            && t.relationships == s.relationships - {k}
            && t == Around(s, t).(relationships := t.relationships) && Counted(s, e.authority, t)
            && t.generations == s.generations.(topology := Advance(s.generations.topology))
  {
    hide CheckAuthority, AdvancePublication, Conclude, Counted, Canonical, OwnerConflict;
    Facts.GrantMeans(s, e.authority, true);
    var a := CheckAuthority(s, e.authority, true);
    assert a.Granted?;
    CanonicalKeysMeet(e.key, e.key);
    var u := WithoutRelationship(s, Canonical(e.key));
    OnlyAccepted(s, a.publisher, JudgeRelationshipWithdrawal(s, e), AdvancePublication(u, a.publisher));
    EndingKeepsRecords(u, a.publisher);
    EndingIsCounted(s, e.authority, u, a.publisher);
    hide SameRelationship;
  }

  /** The domain is stored as it was sent, with each parent once, in order; only its own map and counter changed. */
  ghost predicate StoresDomain(s: Core, t: Core, token: AuthorityToken, sent: FailureDomainRecord) {
    && t.failureDomains.Keys == s.failureDomains.Keys + {sent.id}
    && (forall j :: j in s.failureDomains && j != sent.id ==> t.failureDomains[j] == s.failureDomains[j])
    && t == Around(s, t).(failureDomains := t.failureDomains) && Counted(s, token, t)
    && s.generations.failureDomains < U64_MAX
    && t.generations == s.generations.(failureDomains := s.generations.failureDomains + 1)
    && sent.id in t.failureDomains
    && var d := t.failureDomains[sent.id];
       && (forall p :: p in d.parents <==> p in sent.parents) && Ascends(d.parents, TextLess)
       && OwnedBy(s, token, d.ownerBoot, d.ownerWorker, sent.ownerBoot, sent.ownerWorker)
       && d == sent.(parents := d.parents, generation := t.generations.failureDomains,
                     ownerBoot := d.ownerBoot, ownerWorker := d.ownerWorker)
  }

  /** An accepted failure domain is stored as it was sent. */
  lemma DomainIsWhatWasPublished(s: Core, limits: Limits, e: Event)
    requires e.PublishFailureDomain? && DomainStep(s, limits, e).outcome.Accepted?
    ensures StoresDomain(s, DomainStep(s, limits, e).state, e.authority, e.domain)
  {
    hide CheckAuthority, AdvancePublication, Conclude, Counted, UniqueParents, JudgeDomain;
    Facts.GrantMeans(s, e.authority, true);
    var a := CheckAuthority(s, e.authority, true);
    assert a.Granted?;
    var d := UniqueParents(e.domain);
    ParentsOnceInOrder(e.domain);
    OnlyAccepted(s, a.publisher, JudgeDomain(s, limits, e, d), CommitDomain(s, e.authority, a.publisher, d));
    DomainsHaveRoom(s, limits, e, d);
    OwnersMean(s, e.authority, a.publisher, d.ownerBoot, d.ownerWorker);
    var c := d.(generation := Advance(s.generations.failureDomains), ownerBoot := OwnerOf(e.authority.boot, d.ownerBoot),
                ownerWorker := WorkerOf(s, a.publisher, d.ownerWorker));
    var u := s.(failureDomains := s.failureDomains[d.id := c],
                generations := s.generations.(failureDomains := Advance(s.generations.failureDomains)));
    EndingKeepsRecords(u, a.publisher);
    EndingIsCounted(s, e.authority, u, a.publisher);
    hide OwnedBy, OwnerOf, WorkerOf, Ascends;
  }

  lemma DomainsHaveRoom(s: Core, limits: Limits, e: Event, d: FailureDomainRecord)
    requires e.PublishFailureDomain? && JudgeDomain(s, limits, e, d).Accepted?
    ensures s.generations.failureDomains < U64_MAX
  {
    hide JudgeParents;
  }

  lemma ParentsOnceInOrder(d: FailureDomainRecord)
    ensures var u := UniqueParents(d);
            && (forall p :: p in u.parents <==> p in d.parents) && Ascends(u.parents, TextLess)
            && u == d.(parents := u.parents)
  {
    hide StrictTotal, Ascends;
  }

  // ----- Retirement of a member -----

  /** The retired member keeps its place and its description, and no observation; its children are on their own. */
  ghost predicate Retires(s: Core, t: Core, k: MemberKey, at: i64) {
    && k in s.members && t.members.Keys == s.members.Keys
    && (forall j :: j in s.members && j != k ==>
          t.members[j] == if s.members[j].parent == Some(k) then s.members[j].(parent := None) else s.members[j])
    && var n := t.members[k];
       && n.lifecycle.Retired? && n.revalidationReason.NoReason? && s.members[k].generation < U64_MAX
       && n.generation == s.members[k].generation + 1 && !n.stamp.revalidationRequired && !n.stamp.IsFreshAt(at)
       && IsBlank(n.health, at) && IsBlank(n.readiness, at) && IsBlank(n.reachability, at)
       && n == s.members[k].(lifecycle := n.lifecycle, generation := n.generation, revalidationReason := NoReason,
                             stamp := s.members[k].stamp.(observedAt := 0, ttl := 0, revalidationRequired := false),
                             health := n.health, readiness := n.readiness, reachability := n.reachability)
  }

  /** Its relationships go with it, whoever owns them; every other one is kept as it is. */
  ghost predicate Unrelates(s: Core, t: Core, k: MemberKey) {
    && (forall r :: r in t.relationships <==> r in s.relationships && r.from != k && r.to != k)
    && (forall r :: r in t.relationships ==> t.relationships[r] == s.relationships[r])
    && t.generations
       == s.generations.(membership := Advance(s.generations.membership), topology := t.generations.topology)
    && t.generations.topology
       == if exists r :: r in s.relationships && (r.from == k || r.to == k) then Advance(s.generations.topology)
          else s.generations.topology
  }

  lemma RetirementIsExact(s: Core, e: Event, at: i64)
    requires e.RetireMember? && RetireMemberStep(s, e).outcome.Accepted? && Structured(s)
    ensures var t, k := RetireMemberStep(s, e).state, e.member;
            && Retires(s, t, k, at) && Unrelates(s, t, k) && Counted(s, e.authority, t)
            && t == Around(s, t).(members := t.members, relationships := t.relationships)
  {
    hide CheckAuthority, AdvancePublication, Conclude, RetiredMember, Retirement, Counted, Retires, Unrelates;
    Facts.GrantMeans(s, e.authority, true);
    var a := CheckAuthority(s, e.authority, true);
    assert a.Granted?;
    NoSelfParent(s, e.member);
    hide Structured;
    if e.member in s.members {
      var r := s.members[e.member];
      var u := RetiredMember(s, e.member, Retirement(r));
      OnlyAccepted(s, a.publisher, JudgeRetirement(r), AdvancePublication(u, a.publisher));
      EndingKeepsRecords(u, a.publisher);
      RetiredParts(s, e.member);
      EndingIsCounted(s, e.authority, u, a.publisher);
      RetiredMemberRetires(s, e.member, at);
      RetiredMemberUnrelates(s, e.member);
      SameParts(s, u, RetireMemberStep(s, e).state, e.member, at);
    } else {
      RefusalIsNotAccepted(s, a.publisher);
    }
  }

  lemma RetiredParts(s: Core, k: MemberKey)
    requires k in s.members
    ensures var u := RetiredMember(s, k, Retirement(s.members[k]));
            u == s.(members := u.members, relationships := u.relationships, generations := u.generations)
  {
  }

  lemma RetiredMemberRetires(s: Core, k: MemberKey, at: i64)
    requires k in s.members && s.members[k].parent != Some(k) && s.members[k].generation < U64_MAX
    ensures Retires(s, RetiredMember(s, k, Retirement(s.members[k])), k, at)
  {
  }

  lemma RetiredMemberUnrelates(s: Core, k: MemberKey)
    requires k in s.members
    ensures Unrelates(s, RetiredMember(s, k, Retirement(s.members[k])), k)
  {
    hide Retirement, DetachedMembers;
    var u := RetiredMember(s, k, Retirement(s.members[k]));
    assert u.relationships == s.relationships <==> forall r :: r in s.relationships ==> r.from != k && r.to != k;
  }

  lemma SameParts(s: Core, u: Core, t: Core, k: MemberKey, at: i64)
    requires Retires(s, u, k, at) && Unrelates(s, u, k)
    requires t == u.(publishers := t.publishers, operatorPublication := t.operatorPublication)
    ensures Retires(s, t, k, at) && Unrelates(s, t, k)
  {
  }
}
