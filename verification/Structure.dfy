/** The three graphs of a rack stay acyclic, and every reference points at something, after every step. */
module Structure {
  import opened Wrappers
  import opened Evidence
  import opened Model
  import opened Ordering
  import opened Graph
  import opened RackReadiness
  import opened Machine

  // ----- The invariant -----

  ghost predicate MembersStructured(
    members: map<MemberKey, MemberRecord>, domains: map<Text, FailureDomainRecord>)
  {
    && (forall k :: k in members ==> members[k].key == k)
    && (forall k :: k in members && members[k].parent.Some? ==> members[k].parent.value in members)
    && (forall k, d :: k in members && d in members[k].failureDomains ==> d in domains)
    && Acyclic(ParentGraph(members))
  }

  ghost predicate RelationshipsStructured(
    relationships: map<RelationshipKey, RelationshipRecord>, members: map<MemberKey, MemberRecord>)
  {
    && (forall k :: k in relationships ==>
          relationships[k].key == k && k.from in members && k.to in members && k.from != k.to && Canonical(k) == k)
    && Acyclic(ContainsGraph(relationships))
  }

  ghost predicate DomainsStructured(domains: map<Text, FailureDomainRecord>) {
    && (forall d :: d in domains ==> domains[d].id == d)
    && (forall d, p :: d in domains && p in domains[d].parents ==> p in domains)
    && Acyclic(DomainGraph(domains))
  }

  /** Every reference exists; the parent forest, the CONTAINS graph and the failure-domain graph are acyclic. */
  ghost predicate Structured(s: Core) {
    && MembersStructured(s.members, s.failureDomains)
    && RelationshipsStructured(s.relationships, s.members)
    && DomainsStructured(s.failureDomains)
  }

  // ----- Steps that add no edge -----

  ghost predicate MembersShrunk(m: map<MemberKey, MemberRecord>, n: map<MemberKey, MemberRecord>) {
    && n.Keys == m.Keys
    && forall k :: k in m ==>
         && n[k].key == m[k].key
         && (n[k].parent.None? || n[k].parent == m[k].parent)
         && n[k].failureDomains == m[k].failureDomains
  }

  ghost predicate RelationshipsShrunk(
    m: map<RelationshipKey, RelationshipRecord>, n: map<RelationshipKey, RelationshipRecord>)
  {
    forall k :: k in n ==> k in m && n[k].key == m[k].key
  }

  ghost predicate DomainsKept(m: map<Text, FailureDomainRecord>, n: map<Text, FailureDomainRecord>) {
    n.Keys == m.Keys && forall d :: d in m ==> n[d].id == m[d].id && n[d].parents == m[d].parents
  }

  /** No edge of any of the three graphs is new. */
  ghost predicate Shrunk(s: Core, t: Core) {
    && MembersShrunk(s.members, t.members)
    && RelationshipsShrunk(s.relationships, t.relationships)
    && DomainsKept(s.failureDomains, t.failureDomains)
  }

  lemma ShrunkMembersStructured(
    m: map<MemberKey, MemberRecord>, n: map<MemberKey, MemberRecord>,
    c: map<Text, FailureDomainRecord>, d: map<Text, FailureDomainRecord>)
    requires MembersStructured(m, c) && MembersShrunk(m, n) && c.Keys <= d.Keys
    ensures MembersStructured(n, d)
  {
    assert ParentGraph(n) <= ParentGraph(m);
    SubgraphAcyclic(ParentGraph(m), ParentGraph(n));
    forall k | k in n && n[k].parent.Some? ensures n[k].parent.value in n {
      assert k in m;
    }
    forall k, x | k in n && x in n[k].failureDomains ensures x in d {
      assert k in m && x in c;
    }
    hide Acyclic, ParentGraph;
  }

  lemma ShrunkRelationshipsStructured(
    m: map<RelationshipKey, RelationshipRecord>, n: map<RelationshipKey, RelationshipRecord>,
    a: map<MemberKey, MemberRecord>, b: map<MemberKey, MemberRecord>)
    requires RelationshipsStructured(m, a) && RelationshipsShrunk(m, n) && a.Keys <= b.Keys
    ensures RelationshipsStructured(n, b)
  {
    assert ContainsGraph(n) <= ContainsGraph(m);
    SubgraphAcyclic(ContainsGraph(m), ContainsGraph(n));
    hide Acyclic, ContainsGraph, Canonical;
  }

  lemma KeptDomainsStructured(m: map<Text, FailureDomainRecord>, n: map<Text, FailureDomainRecord>)
    requires DomainsStructured(m) && DomainsKept(m, n)
    ensures DomainsStructured(n) && DomainGraph(n) == DomainGraph(m)
  {
    assert DomainGraph(n) == DomainGraph(m);
  }

  lemma ShrunkIsStructured(s: Core, t: Core)
    requires Structured(s) && Shrunk(s, t)
    ensures Structured(t)
  {
    ShrunkMembersStructured(s.members, t.members, s.failureDomains, t.failureDomains);
    ShrunkRelationshipsStructured(s.relationships, t.relationships, s.members, t.members);
    KeptDomainsStructured(s.failureDomains, t.failureDomains);
    hide MembersStructured, RelationshipsStructured, DomainsStructured;
  }

  // ----- The three steps that add edges -----

  lemma ParentEdges(members: map<MemberKey, MemberRecord>, a: MemberKey, b: MemberKey)
    ensures (a, b) in ParentGraph(members) <==> a in members && members[a].parent == Some(b)
  {
    if a in members && members[a].parent == Some(b) {
      assert (a, members[a].parent.value) in ParentGraph(members);
    }
  }

  lemma NoSelfParent(s: Core, k: MemberKey)
    requires Structured(s)
    ensures k in s.members ==> s.members[k].parent != Some(k)
  {
    if k in s.members && s.members[k].parent == Some(k) {
      var g := ParentGraph(s.members);
      ParentEdges(s.members, k, k);
      ReachesSelf(g, k);
      ReturnIsCycle(g, k, k);
    }
  }

  /** A parent edge closes a cycle exactly when the parent already reaches the child. */
  lemma ParentEdgeCyclicIff(members: map<MemberKey, MemberRecord>, r: MemberRecord)
    requires Acyclic(ParentGraph(members))
    ensures Acyclic(ParentGraph(members[r.key := r])) <==>
              (r.parent.Some? ==> !Reaches(ParentGraph(members), r.parent.value, r.key))
  {
    var g, h := ParentGraph(members), ParentGraph(members[r.key := r]);
    var targets := if r.parent.Some? then {r.parent.value} else {};
    assert Rewired(g, r.key, targets, h) by {
      forall a, b
        ensures (a, b) in h <==> if a == r.key then b in targets else (a, b) in g
      {
        ParentEdges(members, a, b);
        ParentEdges(members[r.key := r], a, b);
      }
    }
    RewiredCyclicIff(g, r.key, targets, h);
    hide Acyclic, Reaches, ParentGraph;
    if r.parent.Some? {
      assert r.parent.value in targets;
    }
  }

  /** A CONTAINS relationship closes a cycle exactly when its container is already inside what it contains. */
  lemma ContainsEdgeCyclicIff(relationships: map<RelationshipKey, RelationshipRecord>, r: RelationshipRecord)
    requires Acyclic(ContainsGraph(relationships)) && r.key.cls.Contains?
    ensures Acyclic(ContainsGraph(relationships[r.key := r])) <==>
              !Reaches(ContainsGraph(relationships), r.key.from, r.key.to)
  {
    var g, h := ContainsGraph(relationships), ContainsGraph(relationships[r.key := r]);
    var containers := set e | e in g && e.0 == r.key.to :: e.1;
    var targets := containers + {r.key.from};
    assert h == g + {(r.key.to, r.key.from)} by {
      forall e | e in h ensures e in g + {(r.key.to, r.key.from)} {
      }
      assert r.key in relationships[r.key := r];
      forall e | e in g ensures e in h {
        var k :| k in relationships && k.cls.Contains? && (k.to, k.from) == e;
        assert k in relationships[r.key := r];
      }
    }
    forall t | t in containers
      ensures !Reaches(g, t, r.key.to)
    {
      assert (r.key.to, t) in g;
      NoReturn(g, r.key.to, t);
    }
    assert Rewired(g, r.key.to, targets, h);
    RewiredCyclicIff(g, r.key.to, targets, h);
    hide Acyclic, Reaches, ContainsGraph;
    assert r.key.from in targets;
  }

  /** Giving a domain new parents closes a cycle exactly when one of them already reaches the domain. */
  lemma DomainEdgesCyclicIff(domains: map<Text, FailureDomainRecord>, d: FailureDomainRecord)
    requires Acyclic(DomainGraph(domains))
    ensures Acyclic(DomainGraph(domains[d.id := d])) <==>
              forall p :: p in d.parents ==> !Reaches(DomainGraph(domains), p, d.id)
  {
    var g, h := DomainGraph(domains), DomainGraph(domains[d.id := d]);
    var targets := set p | p in d.parents;
    assert Rewired(g, d.id, targets, h) by {
      forall a, b
        ensures (a, b) in h <==> if a == d.id then b in targets else (a, b) in g
      {
      }
    }
    RewiredCyclicIff(g, d.id, targets, h);
  }

  lemma PublishedMemberStructured(
    members: map<MemberKey, MemberRecord>, domains: map<Text, FailureDomainRecord>, r: MemberRecord)
    requires MembersStructured(members, domains)
    requires r.parent.Some? ==> r.parent.value in members && !Reaches(ParentGraph(members), r.parent.value, r.key)
    requires forall d :: d in r.failureDomains ==> d in domains
    ensures MembersStructured(members[r.key := r], domains)
  {
    ParentEdgeCyclicIff(members, r);
    hide Acyclic, ParentGraph, Reaches;
  }

  lemma PublishedRelationshipStructured(
    relationships: map<RelationshipKey, RelationshipRecord>, members: map<MemberKey, MemberRecord>,
    r: RelationshipRecord)
    requires RelationshipsStructured(relationships, members)
    requires r.key.from in members && r.key.to in members && r.key.from != r.key.to && Canonical(r.key) == r.key
    requires r.key.cls.Contains? ==> !Reaches(ContainsGraph(relationships), r.key.from, r.key.to)
    ensures RelationshipsStructured(relationships[r.key := r], members)
  {
    if r.key.cls.Contains? {
      ContainsEdgeCyclicIff(relationships, r);
    } else {
      assert ContainsGraph(relationships[r.key := r]) <= ContainsGraph(relationships);
      SubgraphAcyclic(ContainsGraph(relationships), ContainsGraph(relationships[r.key := r]));
    }
    hide Acyclic, ContainsGraph, Reaches, Canonical;
  }

  lemma PublishedDomainStructured(domains: map<Text, FailureDomainRecord>, d: FailureDomainRecord)
    requires DomainsStructured(domains)
    requires forall p :: p in d.parents ==> p in domains && !Reaches(DomainGraph(domains), p, d.id)
    ensures DomainsStructured(domains[d.id := d])
  {
    DomainEdgesCyclicIff(domains, d);
    hide Acyclic, DomainGraph, Reaches;
  }

  // ----- One lemma per mutation -----

  /** The ending of an authorized request does not touch the graphs by itself. */
  lemma ConcludeStructured(s: Core, publisher: Option<Text>, o: Outcome, u: Core)
    requires Structured(s) && (o.Accepted? ==> Structured(u))
    ensures Structured(Conclude(s, publisher, o, AdvancePublication(u, publisher)).state)
  {
    SameRecords(s, NoteRejection(s, publisher));
    SameRecords(u, AdvancePublication(u, publisher));
    hide Structured;
  }

  lemma SameRecords(s: Core, t: Core)
    requires s.members == t.members && s.relationships == t.relationships && s.failureDomains == t.failureDomains
    ensures Structured(s) <==> Structured(t)
  {
  }

  lemma {:induction false} JudgedParents(domains: map<Text, FailureDomainRecord>, id: Text, parents: seq<Text>)
    requires JudgeParents(domains, id, parents).Accepted?
    ensures forall p :: p in parents ==> p in domains && !Reaches(DomainGraph(domains), p, id)
  {
    hide Reaches, DomainGraph;
    if parents != [] {
      JudgedParents(domains, id, parents[1..]);
      assert forall p :: p in parents ==> p == parents[0] || p in parents[1..];
    }
  }

  lemma RedeclaredShrinks(s: Core, epoch: Text, labelText: Option<Text>, generation: u64, now: i64)
    requires s.rack.Some?
    ensures Shrunk(s, Redeclared(s, epoch, labelText, generation, now))
  {
  }

  lemma DeclareStructured(s: Core, e: Event, now: i64)
    requires e.DeclareRack? && Structured(s)
    ensures Structured(Declare(s, e, now).state)
  {
    hide CheckAuthority, IsIdentity, IsLabel, Structured, Redeclared, Shrunk;
    var t := Declare(s, e, now).state;
    if s.rack.Some? && s.rack.value.generation < U64_MAX && e.rackEpoch.Some? {
      var u := Redeclared(s, e.rackEpoch.value, e.labelText, s.rack.value.generation + 1, now);
      RedeclaredShrinks(s, e.rackEpoch.value, e.labelText, s.rack.value.generation + 1, now);
      ShrunkIsStructured(s, u);
      assert t == u || t == s;
    } else {
      SameRecords(s, t);
    }
  }

  lemma PublishMemberStructured(s: Core, limits: Limits, e: Event)
    requires e.PublishMember? && Structured(s)
    ensures Structured(PublishMemberStep(s, limits, e).state)
  {
    var a := CheckAuthority(s, e.authority, true);
    hide CheckAuthority;
    if a.Granted? {
      var o := JudgeMember(s, limits, e);
      var target := TargetGeneration(PreviousGeneration(s, e.record.key), e.record.generation);
      var r := Committed(s, e.authority, a.publisher, Normalized(e.record), target);
      var g := s.generations;
      var u := PutMember(s, r).(generations := g.(membership := Advance(g.membership),
                                                  health := FirstIfUnset(g.health),
                                                  capabilities := FirstIfUnset(g.capabilities)));
      if o.Accepted? {
        assert JudgeReferences(s, Normalized(e.record)).Accepted?;
        PublishedReferences(s, Normalized(e.record));
        hide Acyclic, Reaches, ParentGraph, JudgeMember;
        PublishedMemberStructured(s.members, s.failureDomains, r);
        KeepOthers(s, u);
      }
      hide Structured, JudgeMember;
      ConcludeStructured(s, a.publisher, o, u);
    }
  }

  lemma PublishedReferences(s: Core, r: MemberRecord)
    requires JudgeReferences(s, r).Accepted?
    ensures r.parent.Some? ==> r.parent.value in s.members && !Reaches(ParentGraph(s.members), r.parent.value, r.key)
    ensures forall d :: d in r.failureDomains ==> d in s.failureDomains
  {
    hide Reaches, ParentGraph;
  }

  /** More members do not disturb the relationships. */
  lemma KeepOthers(s: Core, u: Core)
    requires Structured(s) && MembersStructured(u.members, u.failureDomains) && s.members.Keys <= u.members.Keys
    requires u.relationships == s.relationships && u.failureDomains == s.failureDomains
    ensures Structured(u)
  {
    ShrunkRelationshipsStructured(s.relationships, u.relationships, s.members, u.members);
  }

  lemma UpdateShrinks(s: Core, publisher: Option<Text>, r: MemberRecord, u: Core)
    requires r.key in s.members && r.key == s.members[r.key].key
    requires r.parent == s.members[r.key].parent && r.failureDomains == s.members[r.key].failureDomains
    requires u == Update(s, publisher, r).(generations := u.generations)
    ensures Shrunk(s, u)
  {
  }

  lemma UpdateStructured(s: Core, publisher: Option<Text>, r: MemberRecord, u: Core)
    requires Structured(s) && r.key in s.members
    requires r.parent == s.members[r.key].parent && r.failureDomains == s.members[r.key].failureDomains
    requires u == Update(s, publisher, r).(generations := u.generations)
    ensures Structured(u)
  {
    assert s.members[r.key].key == r.key;
    hide Structured, Shrunk, Update;
    UpdateShrinks(s, publisher, r, u);
    ShrunkIsStructured(s, u);
  }

  lemma HealthStructured(s: Core, e: Event)
    requires e.PublishHealth? && Structured(s)
    ensures Structured(HealthStep(s, e).state)
  {
    hide CheckAuthority, Conclude, JudgeHealth, AdvancePublication, Acyclic;
    var a := CheckAuthority(s, e.authority, true);
    if a.Granted? {
      SameRecords(s, NoteRejection(s, a.publisher));
      if e.member in s.members {
        var r := s.members[e.member];
        var u := AdvanceHealth(Update(s, a.publisher, NextHealth(r, e)));
        UpdateStructured(s, a.publisher, NextHealth(r, e), u);
        ConcludeStructured(s, a.publisher, JudgeHealth(r, e), u);
      }
    }
  }

  lemma CapabilityStructured(s: Core, limits: Limits, e: Event)
    requires e.PublishCapability? && Structured(s)
    ensures Structured(CapabilityStep(s, limits, e).state)
  {
    hide CheckAuthority, Conclude, JudgeCapability, AdvancePublication, Acyclic, WithCapability;
    var a := CheckAuthority(s, e.authority, true);
    if a.Granted? {
      SameRecords(s, NoteRejection(s, a.publisher));
      if e.member in s.members {
        var r := s.members[e.member];
        var u := AdvanceCapabilities(Update(s, a.publisher, NextCapabilities(r, e)));
        UpdateStructured(s, a.publisher, NextCapabilities(r, e), u);
        ConcludeStructured(s, a.publisher, JudgeCapability(r, limits, e), u);
      }
    }
  }

  lemma WithdrawStructured(s: Core, e: Event)
    requires e.WithdrawEvidence? && Structured(s)
    ensures Structured(WithdrawStep(s, e).state)
  {
    hide CheckAuthority, Conclude, JudgeWithdrawal, AdvancePublication, Acyclic;
    var a := CheckAuthority(s, e.authority, true);
    if a.Granted? {
      SameRecords(s, NoteRejection(s, a.publisher));
      if e.member in s.members {
        var r := s.members[e.member];
        var u := AdvanceMembership(Update(s, a.publisher, Withdrawn(r, e.scope)));
        UpdateStructured(s, a.publisher, Withdrawn(r, e.scope), u);
        ConcludeStructured(s, a.publisher, JudgeWithdrawal(r, e), u);
      }
    }
  }

  lemma MarkUnavailableStructured(s: Core, e: Event)
    requires e.MarkUnavailable? && Structured(s)
    ensures Structured(MarkUnavailableStep(s, e).state)
  {
    hide CheckAuthority, Conclude, JudgeUnavailable, AdvancePublication, Acyclic;
    var a := CheckAuthority(s, e.authority, true);
    if a.Granted? {
      SameRecords(s, NoteRejection(s, a.publisher));
      if e.member in s.members {
        var r := s.members[e.member];
        var u := AdvanceMembership(Update(s, None, MadeUnavailable(r, e.reason)));
        UpdateStructured(s, None, MadeUnavailable(r, e.reason), u);
        ConcludeStructured(s, a.publisher, JudgeUnavailable(r, e), u);
      }
    }
  }

  lemma RetiredMemberShrinks(s: Core, member: MemberKey)
    requires member in s.members
    ensures Shrunk(s, RetiredMember(s, member, Retirement(s.members[member])))
  {
  }

  lemma RetireMemberStructured(s: Core, e: Event)
    requires e.RetireMember? && Structured(s)
    ensures Structured(RetireMemberStep(s, e).state)
  {
    hide CheckAuthority, Conclude, JudgeRetirement, AdvancePublication, Structured, Shrunk, RetiredMember;
    var a := CheckAuthority(s, e.authority, true);
    if a.Granted? {
      SameRecords(s, NoteRejection(s, a.publisher));
      if e.member in s.members {
        var r := s.members[e.member];
        var u := RetiredMember(s, e.member, Retirement(r));
        RetiredMemberShrinks(s, e.member);
        ShrunkIsStructured(s, u);
        ConcludeStructured(s, a.publisher, JudgeRetirement(r), u);
      }
    }
  }

  lemma RetiredRackShrinks(s: Core, generation: u64, now: i64)
    requires s.rack.Some?
    ensures Shrunk(s, RetiredRack(s, generation, now))
  {
  }

  lemma RetireRackStructured(s: Core, e: Event, now: i64)
    requires e.RetireRack? && Structured(s)
    ensures Structured(RetireRackStep(s, e, now).state)
  {
    hide CheckAuthority, Structured, Shrunk, RetiredRack, AdvancePublication;
    var a := CheckAuthority(s, e.authority, true);
    if s.rack.Some? && s.rack.value.generation < U64_MAX && a.Granted? {
      var u := RetiredRack(s, s.rack.value.generation + 1, now);
      RetiredRackShrinks(s, s.rack.value.generation + 1, now);
      ShrunkIsStructured(s, u);
      AdvanceKeepsRecords(u, a.publisher);
      SameRecords(u, AdvancePublication(u, a.publisher));
    }
  }

  lemma AdvanceKeepsRecords(u: Core, publisher: Option<Text>)
    ensures var t := AdvancePublication(u, publisher);
            u.members == t.members && u.relationships == t.relationships && u.failureDomains == t.failureDomains
  {
  }

  lemma {:induction false} RevalidateEachShrinks(
    members: map<MemberKey, MemberRecord>, targets: seq<MemberKey>, token: AuthorityToken, changed: bool)
    requires forall k :: k in members ==> members[k].key == k
    ensures MembersShrunk(members, RevalidateEach(members, targets, token, changed).members)
    decreases |targets|
  {
    if targets != [] {
      var key := targets[0];
      if key in members && members[key].generation < U64_MAX {
        RevalidateEachShrinks(members[key := Revalidated(members[key])], targets[1..], token, true);
      }
      RevalidateEachShrinks(members, targets[1..], token, changed);
    }
  }

  lemma RevalidateStructured(s: Core, e: Event)
    requires e.RevalidateMembers? && Structured(s)
    ensures Structured(RevalidateStep(s, e).state)
  {
    hide CheckAuthority, AdvancePublication, NoteRejection, Outstanding, RevalidateEach, AdvanceMembership, Structured;
    var a := CheckAuthority(s, e.authority, true);
    if a.Granted? {
      var targets := if e.all then Outstanding(s.members) else e.members;
      var p := RevalidateEach(s.members, targets, e.authority, false);
      RevalidatedStructured(s, targets, e.authority);
      RevalidatedKeeps(s.(members := p.members), a.publisher);
    }
  }

  lemma RevalidatedStructured(s: Core, targets: seq<MemberKey>, token: AuthorityToken)
    requires Structured(s)
    ensures Structured(s.(members := RevalidateEach(s.members, targets, token, false).members))
  {
    RevalidateEachShrinks(s.members, targets, token, false);
    var s1 := s.(members := RevalidateEach(s.members, targets, token, false).members);
    hide RevalidateEach, MembersShrunk, Acyclic;
    assert Shrunk(s, s1);
    ShrunkIsStructured(s, s1);
  }

  lemma RevalidatedKeeps(s: Core, publisher: Option<Text>)
    requires Structured(s)
    ensures Structured(AdvancePublication(AdvanceMembership(s), publisher))
    ensures Structured(NoteRejection(s, publisher))
  {
    hide Structured;
    AdvanceKeepsRecords(AdvanceMembership(s), publisher);
    NoteKeepsRecords(s, publisher);
    hide AdvancePublication, NoteRejection;
    SameRecords(s, AdvancePublication(AdvanceMembership(s), publisher));
    SameRecords(s, NoteRejection(s, publisher));
  }

  lemma NoteKeepsRecords(s: Core, publisher: Option<Text>)
    ensures var t := NoteRejection(s, publisher);
            s.members == t.members && s.relationships == t.relationships && s.failureDomains == t.failureDomains
  {
  }

  lemma FenceBootShrinks(s: Core, boot: Text, reason: RevalidationReason, now: i64)
    requires boot in s.publishers
    ensures Shrunk(s, FenceBoot(s, boot, reason, now))
  {
  }

  lemma FenceStructured(s: Core, epoch: u64, boot: Option<Text>, reason: RevalidationReason, now: i64)
    requires Structured(s)
    ensures Structured(FenceStep(s, epoch, boot, reason, now).state)
  {
    hide Structured, Shrunk, FenceBoot;
    if boot.Some? && boot.value in s.publishers {
      FenceBootShrinks(s, boot.value, reason, now);
      ShrunkIsStructured(s, FenceBoot(s, boot.value, reason, now));
    }
  }

  lemma {:induction false} FenceEachStructured(s: Core, boots: seq<Text>, now: i64)
    requires Structured(s)
    ensures Structured(FenceEach(s, boots, now).state)
    decreases |boots|
  {
    hide Structured, FenceStep;
    if boots != [] {
      FenceStructured(s, s.generations.coordinatorEpoch, Some(boots[0]), OwnerProcessLost, now);
      FenceEachStructured(
        FenceStep(s, s.generations.coordinatorEpoch, Some(boots[0]), OwnerProcessLost, now).state, boots[1..], now);
    }
  }

  lemma RelationshipStructured(s: Core, limits: Limits, e: Event)
    requires e.PublishRelationship? && Structured(s)
    ensures Structured(RelationshipStep(s, limits, e).state)
  {
    hide CheckAuthority, Conclude, AdvancePublication, Acyclic, Reaches, ContainsGraph, ParentGraph, ValidEvidence,
      ValidQuantity, JudgeRelationshipReplacement;
    var a := CheckAuthority(s, e.authority, true);
    if a.Granted? {
      var r := e.relationship.(key := Canonical(e.relationship.key));
      CanonicalTwice(e.relationship.key);
      var o := JudgeRelationship(s, limits, e, r);
      var committed := r.(generation := Advance(s.generations.topology),
                          ownerBoot := OwnerOf(e.authority.boot, r.ownerBoot),
                          ownerWorker := WorkerOf(s, a.publisher, r.ownerWorker));
      var u := s.(relationships := s.relationships[r.key := committed],
                  generations := s.generations.(topology := Advance(s.generations.topology)));
      if o.Accepted? {
        PublishedRelationshipStructured(s.relationships, s.members, committed);
      }
      ConcludeStructured(s, a.publisher, o, u);
    }
  }

  lemma CanonicalTwice(k: RelationshipKey)
    ensures Canonical(Canonical(k)) == Canonical(k)
  {
    MemberOrder();
  }

  lemma WithdrawRelationshipStructured(s: Core, e: Event)
    requires e.WithdrawRelationship? && Structured(s)
    ensures Structured(WithdrawRelationshipStep(s, e).state)
  {
    hide CheckAuthority, Conclude, AdvancePublication, Acyclic, JudgeRelationshipWithdrawal, Canonical;
    var a := CheckAuthority(s, e.authority, true);
    if a.Granted? {
      var u := WithoutRelationship(s, Canonical(e.key));
      assert Shrunk(s, u);
      ShrunkIsStructured(s, u);
      ConcludeStructured(s, a.publisher, JudgeRelationshipWithdrawal(s, e), u);
    }
  }

  lemma DomainStructured(s: Core, limits: Limits, e: Event)
    requires e.PublishFailureDomain? && Structured(s)
    ensures Structured(DomainStep(s, limits, e).state)
  {
    hide CheckAuthority, Conclude, AdvancePublication, Acyclic, Reaches, DomainGraph, ValidEvidence, IsIdentity,
      JudgeDomainReplacement, JudgeParents;
    var a := CheckAuthority(s, e.authority, true);
    if a.Granted? {
      var d := UniqueParents(e.domain);
      hide UniqueParents;
      var o := JudgeDomain(s, limits, e, d);
      var committed := d.(generation := Advance(s.generations.failureDomains),
                          ownerBoot := OwnerOf(e.authority.boot, d.ownerBoot),
                          ownerWorker := WorkerOf(s, a.publisher, d.ownerWorker));
      var u := s.(failureDomains := s.failureDomains[d.id := committed],
                  generations := s.generations.(failureDomains := Advance(s.generations.failureDomains)));
      if o.Accepted? {
        JudgedParents(s.failureDomains, d.id, d.parents);
        PublishedDomainStructured(s.failureDomains, committed);
        ShrunkMembersStructured(s.members, s.members, s.failureDomains, u.failureDomains);
      }
      ConcludeStructured(s, a.publisher, o, u);
    }
  }

  lemma PowerStructured(env: Env, s: Core, e: Event, now: i64)
    requires e.PublishPower? && Structured(s)
    ensures Structured(PowerStep(env, s, e, now).state)
  {
    hide CheckAuthority, JudgePower, DerivedPower, Structured, AdvancePublication, Conclude;
    var a := CheckAuthority(s, e.authority, true);
    if a.Granted? {
      var p := e.power.(generation := Advance(s.generations.power),
                        stamp := e.power.stamp.(revalidationRequired := false),
                        ownerBoot := OwnerOf(e.authority.boot, e.power.ownerBoot),
                        ownerWorker := WorkerOf(s, a.publisher, e.power.ownerWorker));
      var u := s.(power := Some(DerivedPower(env, p, now)), generations := s.generations.(
        power := Advance(s.generations.power), constraints := Advance(s.generations.constraints)));
      SameRecords(s, u);
      ConcludeStructured(s, a.publisher, JudgePower(s, e), u);
    }
  }

  lemma CoolingStructured(env: Env, s: Core, e: Event, now: i64)
    requires e.PublishCooling? && Structured(s)
    ensures Structured(CoolingStep(env, s, e, now).state)
  {
    hide CheckAuthority, JudgeCooling, DerivedCooling, SortZones, Structured, AdvancePublication, Conclude;
    var a := CheckAuthority(s, e.authority, true);
    if a.Granted? {
      var c := e.cooling.(generation := Advance(s.generations.cooling),
                          zones := SortZones(e.cooling.zones),
                          stamp := e.cooling.stamp.(revalidationRequired := false),
                          ownerBoot := OwnerOf(e.authority.boot, e.cooling.ownerBoot),
                          ownerWorker := WorkerOf(s, a.publisher, e.cooling.ownerWorker));
      var u := s.(cooling := Some(DerivedCooling(env, c, now)), generations := s.generations.(
        cooling := Advance(s.generations.cooling), constraints := Advance(s.generations.constraints)));
      SameRecords(s, u);
      ConcludeStructured(s, a.publisher, JudgeCooling(s, e), u);
    }
  }

  lemma SnapshotStructured(env: Env, s: Core, e: Event, now: i64)
    requires e.PublishSnapshot? && Structured(s)
    ensures Structured(SnapshotStep(env, s, e, now).state)
  {
    hide BuildSnapshot, Retain, SnapshotId, Structured, IsIdentity, CheckPublisher;
    SameRecords(s, SnapshotStep(env, s, e, now).state);
  }

  /** Every step of the coordinator keeps all references valid and all three graphs acyclic. */
  lemma StepKeepsStructure(env: Env, s: Core, e: Event, now: i64)
    requires Structured(s)
    ensures Structured(Apply(env, s, e, now).state)
  {
    hide Structured;
    hide Register, Declare, PublishMemberStep, RelationshipStep, DomainStep, PowerStep, CoolingStep, HealthStep,
      CapabilityStep, WithdrawStep, WithdrawRelationshipStep, MarkUnavailableStep, RetireMemberStep, RetireRackStep,
      RevalidateStep, HeartbeatStep, FenceStep, FenceEach, SnapshotStep, Expired;
    match e {
      case RegisterPublisher(_, _, _, _, _) => RegisterStructured(s, env.limits, e, now);
      case DeclareRack(_, _, _, _) => DeclareStructured(s, e, now);
      case PublishMember(_, _, _, _) => PublishMemberStructured(s, env.limits, e);
      case PublishRelationship(_, _, _) => RelationshipStructured(s, env.limits, e);
      case PublishFailureDomain(_, _, _) => DomainStructured(s, env.limits, e);
      case PublishPower(_, _, _) => PowerStructured(env, s, e, now);
      case PublishCooling(_, _, _) => CoolingStructured(env, s, e, now);
      case PublishHealth(_, _, _, _, _, _) => HealthStructured(s, e);
      case PublishCapability(_, _, _) => CapabilityStructured(s, env.limits, e);
      case WithdrawEvidence(_, _, _) => WithdrawStructured(s, e);
      case WithdrawRelationship(_, _) => WithdrawRelationshipStructured(s, e);
      case MarkUnavailable(_, _, _) => MarkUnavailableStructured(s, e);
      case RetireMember(_, _) => RetireMemberStructured(s, e);
      case RetireRack(_) => RetireRackStructured(s, e, now);
      case RevalidateMembers(_, _, _) => RevalidateStructured(s, e);
      case Heartbeat(_) => HeartbeatStructured(s, e, now);
      case FencePublisher(epoch, boot, reason) => FenceStructured(s, epoch, boot, reason, now);
      case ExpirePublishers => FenceEachStructured(s, Expired(s, now), now);
      case PublishSnapshot(_) => SnapshotStructured(env, s, e, now);
    }
  }

  lemma RegisterStructured(s: Core, limits: Limits, e: Event, now: i64)
    requires e.RegisterPublisher? && Structured(s)
    ensures Structured(Register(s, limits, e, now).state)
  {
    hide Structured, IsLabel;
    SameRecords(s, Register(s, limits, e, now).state);
  }

  lemma HeartbeatStructured(s: Core, e: Event, now: i64)
    requires e.Heartbeat? && Structured(s)
    ensures Structured(HeartbeatStep(s, e, now).state)
  {
    hide Structured, CheckAuthority;
    SameRecords(s, HeartbeatStep(s, e, now).state);
  }

  lemma InitialIsStructured()
    ensures Structured(INITIAL)
  {
    assert ParentGraph(INITIAL.members) == {} && ContainsGraph(INITIAL.relationships) == {}
        && DomainGraph(INITIAL.failureDomains) == {};
    EmptyIsAcyclic<MemberKey>();
    EmptyIsAcyclic<Text>();
  }

  lemma EmptyIsAcyclic<T(!new)>()
    ensures Acyclic<T>({})
  {
    var none: Edges<T> := {};
    forall p: seq<T> ensures !Cycle(none, p) {
      if |p| >= 2 {
        assert (p[0], p[1]) !in none;
      }
    }
  }

  /** In every run from a structured state, such as a fresh coordinator, the three graphs stay acyclic. */
  lemma {:induction false} RunKeepsStructure(env: Env, s: Core, run: seq<Timed>, n: nat)
    requires Structured(s) && n <= |run|
    ensures Structured(At(env, s, run, n))
    decreases n
  {
    hide Structured, Apply;
    if n > 0 {
      RunKeepsStructure(env, s, run, n - 1);
      StepKeepsStructure(env, At(env, s, run, n - 1), run[n - 1].event, run[n - 1].now);
    }
  }
}
