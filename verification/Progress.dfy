/** What every single step keeps: nothing shrinks, content never changes silently, refusals leave no trace. */
module Progress {
  import opened Wrappers
  import opened Evidence
  import opened Model
  import opened Machine

  // ----- Facts about a step -----

  predicate GenerationsGrow(g: GenerationSet, h: GenerationSet) {
    && g.rack <= h.rack && g.membership <= h.membership && g.topology <= h.topology
    && g.failureDomains <= h.failureDomains && g.constraints <= h.constraints && g.power <= h.power
    && g.cooling <= h.cooling && g.health <= h.health && g.capabilities <= h.capabilities
    && g.coordinatorEpoch == h.coordinatorEpoch
  }

  ghost predicate PublishersGrow(p: map<Text, PublisherRecord>, q: map<Text, PublisherRecord>) {
    forall b :: b in p ==> b in q && p[b].publicationGeneration <= q[b].publicationGeneration
  }

  ghost predicate MembersGrow(m: map<MemberKey, MemberRecord>, n: map<MemberKey, MemberRecord>) {
    forall k :: k in m ==> k in n && m[k].generation <= n[k].generation
  }

  predicate RackGrows(r: Option<RackRecord>, q: Option<RackRecord>) {
    r.Some? ==> q.Some? && q.value.id == r.value.id && (r.value.retired ==> q.value.retired)
  }

  /** Nothing that later decisions rest on is lost or lowered. */
  ghost predicate Grows(s: Core, t: Core) {
    && GenerationsGrow(s.generations, t.generations)
    && PublishersGrow(s.publishers, t.publishers)
    && MembersGrow(s.members, t.members)
    && RackGrows(s.rack, t.rack)
    && s.fencedBoots.Keys <= t.fencedBoots.Keys
    && s.snapshotGeneration <= t.snapshotGeneration
    && s.operatorPublication <= t.operatorPublication
  }

  /** What a snapshot holds of a state. */
  datatype Content = Content(
    members: map<MemberKey, MemberRecord>,
    relationships: map<RelationshipKey, RelationshipRecord>,
    failureDomains: map<Text, FailureDomainRecord>,
    power: Option<PowerEnvelope>,
    cooling: Option<CoolingEnvelope>)

  function ContentOf(s: Core): Content {
    Content(s.members, s.relationships, s.failureDomains, s.power, s.cooling)
  }

  /** Some counter that a change of content would have to move has no room left. */
  predicate Saturated(g: GenerationSet) {
    || g.membership == U64_MAX || g.topology == U64_MAX || g.failureDomains == U64_MAX || g.power == U64_MAX
    || g.cooling == U64_MAX || g.health == U64_MAX || g.capabilities == U64_MAX
  }

  /** A change of content moves a generation that snapshots are bound to. */
  predicate Tracks(s: Core, t: Core) {
    ContentOf(s) == ContentOf(t) || s.generations != t.generations || Saturated(s.generations)
  }

  /** The two states differ at most in one publisher's count of rejections. */
  ghost predicate OnlyRejectionCount(s: Core, t: Core) {
    t == s || exists b :: b in s.publishers && t == NoteRejection(s, Some(b))
  }

  predicate OnlyMembersChanged(s: Core, t: Core) {
    ContentOf(t).(members := s.members) == ContentOf(s)
  }

  /** The rack generation in the generation set is that of the rack record. */
  predicate RackAligned(s: Core) {
    s.generations.rack == if s.rack.Some? then s.rack.value.generation else 0
  }

  /** The boot a request is made under, if any. */
  function Presents(e: Event): Option<Text> {
    match e
    case RegisterPublisher(_, _, boot, _, _) => boot
    case FencePublisher(_, _, _) => None
    case ExpirePublishers => None
    case _ => e.authority.boot
  }

  predicate IsPublication(e: Event) {
    !e.RegisterPublisher? && !e.DeclareRack? && !e.Heartbeat? && !e.FencePublisher? && !e.ExpirePublishers?
  }

  /** What acceptance says about the process behind a request, and what it costs that process. */
  ghost predicate Authorized(s: Core, e: Event, t: Core) {
    Presents(e).Some? ==>
      var b := Presents(e).value;
      && b !in s.fencedBoots
      && (!e.RegisterPublisher? ==>
            && b in s.publishers
            && (e.authority.publicationGeneration.Some? ==>
                  e.authority.publicationGeneration.value == s.publishers[b].publicationGeneration))
      && (IsPublication(e) ==>
            b in t.publishers && t.publishers[b].publicationGeneration == Advance(s.publishers[b].publicationGeneration))
  }

  /** Everything that holds of any step. */
  ghost predicate Sound(s: Core, e: Event, step: Step) {
    && Grows(s, step.state)
    && (step.outcome.Accepted? ==> Tracks(s, step.state) && Authorized(s, e, step.state))
    && (step.outcome.NoChange? && !e.RegisterPublisher? ==> step.state == s)
    && (step.outcome.NoChange? && e.RegisterPublisher? ==> step.state.(publishers := s.publishers) == s)
    && (step.outcome.IsRejection() && !e.RevalidateMembers? ==> OnlyRejectionCount(s, step.state))
    && (step.outcome.IsRejection() ==> OnlyMembersChanged(s, step.state))
    && (RackAligned(s) ==> RackAligned(step.state))
  }

  // ----- Building blocks -----

  lemma GrowsTransitive(s: Core, t: Core, u: Core)
    requires Grows(s, t) && Grows(t, u)
    ensures Grows(s, u)
  {
  }

  /** A change of publisher records alone is sound as long as no publication generation falls. */
  lemma OnlyPublishers(s: Core, p: map<Text, PublisherRecord>)
    requires PublishersGrow(s.publishers, p)
    ensures Grows(s, s.(publishers := p)) && Tracks(s, s.(publishers := p))
    ensures RackAligned(s) ==> RackAligned(s.(publishers := p))
  {
  }

  lemma NoChangeIsSound(s: Core, e: Event, o: Outcome)
    requires !o.Accepted?
    ensures Sound(s, e, Step(s, o))
  {
  }

  lemma NoteIsSound(s: Core, e: Event, publisher: Option<Text>, o: Outcome)
    requires o.IsRejection()
    ensures Sound(s, e, Reject(s, publisher, o))
  {
    OnlyPublishers(s, NoteRejection(s, publisher).publishers);
    hide Grows, Tracks, RackAligned, PublishersGrow;
    NoChangeIsSound(s, e, o);
    if publisher.Some? && publisher.value in s.publishers {
      assert NoteRejection(s, publisher) == NoteRejection(s, Some(publisher.value));
    }
  }

  /** A grant names a registered, current boot, whose publication generation the token does not contradict. */
  ghost predicate Grants(s: Core, token: AuthorityToken, publisher: Option<Text>) {
    && publisher == token.boot
    && (publisher.Some? ==>
          && publisher.value !in s.fencedBoots && publisher.value in s.publishers
          && (token.publicationGeneration.Some? ==>
                token.publicationGeneration.value == s.publishers[publisher.value].publicationGeneration))
    && (s.rack.Some? ==> !s.rack.value.retired)
  }

  lemma GrantMeans(s: Core, token: AuthorityToken, rackScoped: bool)
    ensures var a := CheckAuthority(s, token, rackScoped);
            a.Granted? ==> Grants(s, token, a.publisher) && (rackScoped ==> s.rack.Some?)
    ensures var a := CheckAuthority(s, token, rackScoped);
            a.Denied? ==> a.outcome.IsRejection()
  {
  }

  lemma AdvanceIsSound(u: Core, publisher: Option<Text>)
    ensures Grows(u, AdvancePublication(u, publisher)) && ContentOf(u) == ContentOf(AdvancePublication(u, publisher))
    ensures u.generations == AdvancePublication(u, publisher).generations
    ensures u.rack == AdvancePublication(u, publisher).rack
    ensures publisher.Some? && publisher.value in u.publishers ==>
              var t := AdvancePublication(u, publisher);
              && publisher.value in t.publishers
              && t.publishers[publisher.value].publicationGeneration
                 == Advance(u.publishers[publisher.value].publicationGeneration)
  {
  }

  /** A commit that advances the publication generation of its publisher is sound when the change under it is. */
  lemma CommitIsSound(s: Core, e: Event, u: Core, publisher: Option<Text>)
    requires Grows(s, u) && Tracks(s, u) && (RackAligned(s) ==> RackAligned(u))
    requires IsPublication(e) && Grants(s, e.authority, publisher)
    requires publisher.Some? ==>
               publisher.value in u.publishers
               && u.publishers[publisher.value].publicationGeneration
                  == s.publishers[publisher.value].publicationGeneration
    ensures Sound(s, e, Step(AdvancePublication(u, publisher), Accepted))
  {
    var t := AdvancePublication(u, publisher);
    AdvanceIsSound(u, publisher);
    GrowsTransitive(s, u, t);
    hide Grows, AdvancePublication, Saturated;
    assert Authorized(s, e, t);
  }

  /** The commit when only content, generations and counters of the state changed. */
  lemma ContentCommit(s: Core, e: Event, u: Core, publisher: Option<Text>)
    requires IsPublication(e) && Grants(s, e.authority, publisher)
    requires u.publishers == s.publishers && u.fencedBoots == s.fencedBoots && u.rack == s.rack
    requires u.generations.rack == s.generations.rack
    requires s.snapshotGeneration <= u.snapshotGeneration && s.operatorPublication == u.operatorPublication
    requires GenerationsGrow(s.generations, u.generations) && MembersGrow(s.members, u.members) && Tracks(s, u)
    ensures Sound(s, e, Step(AdvancePublication(u, publisher), Accepted))
  {
    assert PublishersGrow(s.publishers, u.publishers);
    CommitIsSound(s, e, u, publisher);
  }

  // ----- One lemma per mutation -----

  lemma RegisterIsSound(s: Core, limits: Limits, e: Event, now: i64)
    requires e.RegisterPublisher?
    ensures Sound(s, e, Register(s, limits, e, now))
  {
    var step := Register(s, limits, e, now);
    assert step.state == s.(publishers := step.state.publishers);
    assert PublishersGrow(s.publishers, step.state.publishers);
    OnlyPublishers(s, step.state.publishers);
    hide Grows, Tracks, RackAligned, PublishersGrow, IsLabel;
  }

  lemma DeclareIsSound(s: Core, e: Event, now: i64)
    requires e.DeclareRack? && RackAligned(s)
    ensures Sound(s, e, Declare(s, e, now))
  {
    hide CheckAuthority, IsLabel, IsIdentity, Redeclared, Grows, Tracks, Grants;
    GrantMeans(s, e.authority, false);
    var step := Declare(s, e, now);
    if step.outcome.Accepted? {
      if s.rack.None? {
        FirstDeclarationIsSound(s, step.state);
      } else {
        RedeclaredIsSound(s, e.rackEpoch.value, e.labelText, now);
      }
      DeclarationIsAuthorized(s, e, step.state, now);
    } else {
      hide Sound;
      NoChangeIsSound(s, e, step.outcome);
    }
  }

  lemma FirstDeclarationIsSound(s: Core, t: Core)
    requires s.rack.None? && RackAligned(s) && t.rack.Some? && t.rack.value.generation == 1
    requires t == s.(rack := t.rack, generations := s.generations.(rack := 1))
    ensures Grows(s, t) && Tracks(s, t) && RackAligned(t)
  {
  }

  lemma DeclarationIsAuthorized(s: Core, e: Event, t: Core, now: i64)
    requires e.DeclareRack? && CheckAuthority(s, e.authority, false).Granted?
    requires Grants(s, e.authority, CheckAuthority(s, e.authority, false).publisher)
    ensures Authorized(s, e, t)
  {
    hide CheckAuthority;
  }

  lemma RedeclaredIsSound(s: Core, epoch: Text, labelText: Option<Text>, now: i64)
    requires s.rack.Some? && s.rack.value.generation < U64_MAX && RackAligned(s)
    ensures var t := Redeclared(s, epoch, labelText, s.rack.value.generation + 1, now);
            Grows(s, t) && Tracks(s, t) && RackAligned(t)
  {
  }

  ghost predicate KeysMatch(members: map<MemberKey, MemberRecord>) {
    forall k :: k in members ==> members[k].key == k
  }

  /** An authorized request is sound when its commit is. */
  lemma ConcludeIsSound(s: Core, e: Event, publisher: Option<Text>, o: Outcome, committed: Core)
    requires o.Accepted? ==> Sound(s, e, Step(committed, Accepted))
    ensures Sound(s, e, Conclude(s, publisher, o, committed))
  {
    hide Sound;
    if o.NoChange? {
      NoChangeIsSound(s, e, NoChange);
    } else if !o.Accepted? {
      NoteIsSound(s, e, publisher, o);
    }
  }

  lemma PublishMemberIsSound(s: Core, limits: Limits, e: Event)
    requires e.PublishMember?
    ensures Sound(s, e, PublishMemberStep(s, limits, e))
  {
    hide JudgeMember, CheckAuthority, Sound, CommitMember, Conclude;
    GrantMeans(s, e.authority, true);
    var a := CheckAuthority(s, e.authority, true);
    if a.Denied? {
      NoChangeIsSound(s, e, a.outcome);
    } else {
      CommitMemberIsSound(s, e, a.publisher);
      ConcludeIsSound(s, e, a.publisher, JudgeMember(s, limits, e), CommitMember(s, e.authority, a.publisher, e.record));
    }
  }

  lemma CommitMemberIsSound(s: Core, e: Event, publisher: Option<Text>)
    requires e.PublishMember? && Grants(s, e.authority, publisher)
    ensures Sound(s, e, Step(CommitMember(s, e.authority, publisher, e.record), Accepted))
  {
    hide Sound, Grants, AdvancePublication;
    var target := TargetGeneration(PreviousGeneration(s, e.record.key), e.record.generation);
    var s1 := PutMember(s, Committed(s, e.authority, publisher, Normalized(e.record), target));
    var g := s1.generations;
    ContentCommit(s, e, s1.(generations := g.(membership := Advance(g.membership),
                                              health := FirstIfUnset(g.health),
                                              capabilities := FirstIfUnset(g.capabilities))), publisher);
  }

  /** Replacing one member under the next generation, and moving a generation of the rack. */
  lemma UpdateIsSound(s: Core, e: Event, publisher: Option<Text>, stamped: Option<Text>, r: MemberRecord, u: Core)
    requires IsPublication(e) && Grants(s, e.authority, publisher)
    requires r.key in s.members && s.members[r.key].generation == r.generation
    requires u == Update(s, stamped, r).(generations := u.generations)
    requires GenerationsGrow(s.generations, u.generations) && u.generations.rack == s.generations.rack
    requires u.generations != s.generations || Saturated(s.generations)
    ensures Sound(s, e, Step(AdvancePublication(u, publisher), Accepted))
  {
    hide Saturated, AdvancePublication, Sound, Grants;
    ContentCommit(s, e, u, publisher);
  }

  lemma HealthIsSound(s: Core, e: Event)
    requires e.PublishHealth? && KeysMatch(s.members)
    ensures Sound(s, e, HealthStep(s, e))
  {
    hide CheckAuthority, Sound, Grants, Conclude, JudgeHealth, AdvancePublication, Reject, Update;
    GrantMeans(s, e.authority, true);
    var a := CheckAuthority(s, e.authority, true);
    if a.Denied? {
      NoChangeIsSound(s, e, a.outcome);
    } else if e.member !in s.members {
      NoteIsSound(s, e, a.publisher, RejectUnknownMember);
    } else {
      var r := s.members[e.member];
      var u := AdvanceHealth(Update(s, a.publisher, NextHealth(r, e)));
      UpdateKeeps(s, a.publisher, NextHealth(r, e));
      UpdateIsSound(s, e, a.publisher, a.publisher, NextHealth(r, e), u);
      ConcludeIsSound(s, e, a.publisher, JudgeHealth(r, e), AdvancePublication(u, a.publisher));
    }
  }

  lemma UpdateKeeps(s: Core, publisher: Option<Text>, r: MemberRecord)
    ensures Update(s, publisher, r).generations == s.generations
  {
  }

  lemma CapabilityIsSound(s: Core, limits: Limits, e: Event)
    requires e.PublishCapability? && KeysMatch(s.members)
    ensures Sound(s, e, CapabilityStep(s, limits, e))
  {
    hide CheckAuthority, Sound, Grants, Conclude, JudgeCapability, AdvancePublication, Reject, Update;
    GrantMeans(s, e.authority, true);
    var a := CheckAuthority(s, e.authority, true);
    if a.Denied? {
      NoChangeIsSound(s, e, a.outcome);
    } else if e.member !in s.members {
      NoteIsSound(s, e, a.publisher, RejectUnknownMember);
    } else {
      var r := s.members[e.member];
      var u := AdvanceCapabilities(Update(s, a.publisher, NextCapabilities(r, e)));
      UpdateKeeps(s, a.publisher, NextCapabilities(r, e));
      UpdateIsSound(s, e, a.publisher, a.publisher, NextCapabilities(r, e), u);
      ConcludeIsSound(s, e, a.publisher, JudgeCapability(r, limits, e), AdvancePublication(u, a.publisher));
    }
  }

  lemma WithdrawIsSound(s: Core, e: Event)
    requires e.WithdrawEvidence? && KeysMatch(s.members)
    ensures Sound(s, e, WithdrawStep(s, e))
  {
    hide CheckAuthority, Sound, Grants, Conclude, JudgeWithdrawal, AdvancePublication, Reject, Update;
    GrantMeans(s, e.authority, true);
    var a := CheckAuthority(s, e.authority, true);
    if a.Denied? {
      NoChangeIsSound(s, e, a.outcome);
    } else if e.member !in s.members {
      NoteIsSound(s, e, a.publisher, RejectUnknownMember);
    } else {
      var r := s.members[e.member];
      var u := AdvanceMembership(Update(s, a.publisher, Withdrawn(r, e.scope)));
      UpdateKeeps(s, a.publisher, Withdrawn(r, e.scope));
      UpdateIsSound(s, e, a.publisher, a.publisher, Withdrawn(r, e.scope), u);
      ConcludeIsSound(s, e, a.publisher, JudgeWithdrawal(r, e), AdvancePublication(u, a.publisher));
    }
  }

  lemma MarkUnavailableIsSound(s: Core, e: Event)
    requires e.MarkUnavailable? && KeysMatch(s.members)
    ensures Sound(s, e, MarkUnavailableStep(s, e))
  {
    hide CheckAuthority, Sound, Grants, Conclude, JudgeUnavailable, AdvancePublication, Reject, Update;
    GrantMeans(s, e.authority, true);
    var a := CheckAuthority(s, e.authority, true);
    if a.Denied? {
      NoChangeIsSound(s, e, a.outcome);
    } else if e.member !in s.members {
      NoteIsSound(s, e, a.publisher, RejectUnknownMember);
    } else {
      var r := s.members[e.member];
      var u := AdvanceMembership(Update(s, None, MadeUnavailable(r, e.reason)));
      UpdateKeeps(s, None, MadeUnavailable(r, e.reason));
      UpdateIsSound(s, e, a.publisher, None, MadeUnavailable(r, e.reason), u);
      ConcludeIsSound(s, e, a.publisher, JudgeUnavailable(r, e), AdvancePublication(u, a.publisher));
    }
  }

  lemma RetiredMemberGrows(s: Core, member: MemberKey)
    requires member in s.members
    ensures var u := RetiredMember(s, member, Retirement(s.members[member]));
            && MembersGrow(s.members, u.members) && Tracks(s, u)
            && GenerationsGrow(s.generations, u.generations) && u.generations.rack == s.generations.rack
  {
    var u := RetiredMember(s, member, Retirement(s.members[member]));
    assert u.generations != s.generations || s.generations.membership == U64_MAX;
  }

  lemma RetireMemberIsSound(s: Core, e: Event)
    requires e.RetireMember?
    ensures Sound(s, e, RetireMemberStep(s, e))
  {
    hide CheckAuthority, Sound, Grants, Conclude, JudgeRetirement, AdvancePublication, Reject, GenerationsGrow, Tracks;
    GrantMeans(s, e.authority, true);
    var a := CheckAuthority(s, e.authority, true);
    if a.Denied? {
      NoChangeIsSound(s, e, a.outcome);
    } else if e.member !in s.members {
      NoteIsSound(s, e, a.publisher, RejectUnknownMember);
    } else {
      var r := s.members[e.member];
      var u := RetiredMember(s, e.member, Retirement(r));
      RetiredMemberGrows(s, e.member);
      ContentCommit(s, e, u, a.publisher);
      ConcludeIsSound(s, e, a.publisher, JudgeRetirement(r), AdvancePublication(u, a.publisher));
    }
  }

  lemma RetiredRackGrows(s: Core, generation: u64, now: i64)
    requires s.rack.Some? && s.rack.value.generation < generation && RackAligned(s)
    ensures var u := RetiredRack(s, generation, now);
            && Grows(s, u) && Tracks(s, u) && RackAligned(u)
            && forall b :: b in s.publishers ==>
                 b in u.publishers && u.publishers[b].publicationGeneration == s.publishers[b].publicationGeneration
  {
    hide LeftByRack, FencedRecord;
    var u := RetiredRack(s, generation, now);
    assert MembersGrow(s.members, u.members) by {
      forall k | k in s.members
        ensures u.members[k].generation == s.members[k].generation
      {
        LeavingKeepsGeneration(s.members[k]);
      }
    }
  }

  lemma LeavingKeepsGeneration(r: MemberRecord)
    ensures LeftByRack(r).generation == r.generation
  {
  }

  lemma RetireRackIsSound(s: Core, e: Event, now: i64)
    requires e.RetireRack? && RackAligned(s)
    ensures Sound(s, e, RetireRackStep(s, e, now))
  {
    hide Sound, AdvancePublication, CheckAuthority, RetiredRack, Grows, Tracks, RackAligned, Grants;
    GrantMeans(s, e.authority, true);
    var a := CheckAuthority(s, e.authority, true);
    var step := RetireRackStep(s, e, now);
    if step.outcome.Accepted? {
      RetirementCommits(s, e, a.publisher, now);
    } else {
      NoChangeIsSound(s, e, step.outcome);
    }
  }

  lemma RetirementCommits(s: Core, e: Event, publisher: Option<Text>, now: i64)
    requires e.RetireRack? && RackAligned(s) && Grants(s, e.authority, publisher)
    requires s.rack.Some? && s.rack.value.generation < U64_MAX
    ensures Sound(s, e, Step(AdvancePublication(RetiredRack(s, s.rack.value.generation + 1, now), publisher), Accepted))
  {
    hide Sound, AdvancePublication, RetiredRack, Grows, Tracks, RackAligned;
    RetiredRackGrows(s, s.rack.value.generation + 1, now);
    CommitIsSound(s, e, RetiredRack(s, s.rack.value.generation + 1, now), publisher);
  }

  lemma {:induction false} RevalidateEachGrows(
    members: map<MemberKey, MemberRecord>, targets: seq<MemberKey>, token: AuthorityToken, changed: bool)
    ensures var p := RevalidateEach(members, targets, token, changed);
            && MembersGrow(members, p.members)
            && (p.outcome.NoChange? ==> p.members == members)
    decreases |targets|
  {
    if targets != [] {
      var key := targets[0];
      if key in members && members[key].generation < U64_MAX {
        RevalidateEachGrows(members[key := Revalidated(members[key])], targets[1..], token, true);
        RevalidateEachChanged(members[key := Revalidated(members[key])], targets[1..], token);
      }
      RevalidateEachGrows(members, targets[1..], token, changed);
    }
  }

  lemma {:induction false} RevalidateEachChanged(
    members: map<MemberKey, MemberRecord>, targets: seq<MemberKey>, token: AuthorityToken)
    ensures !RevalidateEach(members, targets, token, true).outcome.NoChange?
    decreases |targets|
  {
    if targets != [] {
      var key := targets[0];
      if key in members && members[key].generation < U64_MAX {
        RevalidateEachChanged(members[key := Revalidated(members[key])], targets[1..], token);
      }
      RevalidateEachChanged(members, targets[1..], token);
    }
  }

  lemma RevalidateIsSound(s: Core, e: Event)
    requires e.RevalidateMembers?
    ensures Sound(s, e, RevalidateStep(s, e))
  {
    hide RevalidateEach, CheckAuthority, Sound, Grants, Outstanding, AdvancePublication, NoteRejection;
    GrantMeans(s, e.authority, true);
    var a := CheckAuthority(s, e.authority, true);
    if a.Denied? {
      NoChangeIsSound(s, e, a.outcome);
    } else {
      var targets := if e.all then Outstanding(s.members) else e.members;
      RevalidatedIsSound(s, e, targets, a.publisher);
    }
  }

  lemma RevalidatedIsSound(s: Core, e: Event, targets: seq<MemberKey>, publisher: Option<Text>)
    requires e.RevalidateMembers? && Grants(s, e.authority, publisher)
    ensures var p := RevalidateEach(s.members, targets, e.authority, false);
            var s1 := s.(members := p.members);
            && (p.outcome.Accepted? ==> Sound(s, e, Step(AdvancePublication(AdvanceMembership(s1), publisher), Accepted)))
            && (p.outcome.NoChange? ==> Sound(s, e, Step(s1, NoChange)))
            && (p.outcome.IsRejection() ==> Sound(s, e, Reject(s1, publisher, p.outcome)))
  {
    RevalidateEachGrows(s.members, targets, e.authority, false);
    hide RevalidateEach, AdvancePublication, Grants;
    var p := RevalidateEach(s.members, targets, e.authority, false);
    var s1 := s.(members := p.members);
    if p.outcome.Accepted? {
      ContentCommit(s, e, AdvanceMembership(s1), publisher);
    } else if p.outcome.NoChange? {
      NoChangeIsSound(s, e, NoChange);
    } else {
      RevalidateRejected(s, p.members, publisher);
      hide Grows, NoteRejection, RackAligned, OnlyMembersChanged;
    }
  }

  lemma RevalidateRejected(s: Core, members: map<MemberKey, MemberRecord>, publisher: Option<Text>)
    requires MembersGrow(s.members, members)
    ensures var t := NoteRejection(s.(members := members), publisher);
            Grows(s, t) && (RackAligned(s) ==> RackAligned(t)) && OnlyMembersChanged(s, t)
  {
    var u := s.(members := members);
    OnlyPublishers(u, NoteRejection(u, publisher).publishers);
    GrowsWithMembers(s, members);
    GrowsTransitive(s, u, NoteRejection(u, publisher));
    hide Grows, MembersGrow, PublishersGrow, Tracks;
  }

  lemma GrowsWithMembers(s: Core, members: map<MemberKey, MemberRecord>)
    requires MembersGrow(s.members, members)
    ensures Grows(s, s.(members := members))
  {
  }

  lemma HeartbeatIsSound(s: Core, e: Event, now: i64)
    requires e.Heartbeat?
    ensures Sound(s, e, HeartbeatStep(s, e, now))
  {
    GrantMeans(s, e.authority, false);
    var step := HeartbeatStep(s, e, now);
    hide CheckAuthority;
    if step.outcome.Accepted? {
      OnlyPublishers(s, step.state.publishers);
      hide Grows, Tracks, RackAligned;
    } else {
      NoChangeIsSound(s, e, step.outcome);
    }
  }

  lemma FenceBootIsSound(s: Core, boot: Text, reason: RevalidationReason, now: i64)
    requires boot in s.publishers
    ensures var t := FenceBoot(s, boot, reason, now);
            Grows(s, t) && Tracks(s, t) && (RackAligned(s) ==> RackAligned(t))
  {
  }

  lemma FenceIsSound(s: Core, e: Event, epoch: u64, boot: Option<Text>, reason: RevalidationReason, now: i64)
    requires e.FencePublisher? || e.ExpirePublishers?
    ensures Sound(s, e, FenceStep(s, epoch, boot, reason, now))
  {
    hide FenceBoot, Grows, Tracks, RackAligned;
    var step := FenceStep(s, epoch, boot, reason, now);
    if step.outcome.Accepted? {
      FenceBootIsSound(s, boot.value, reason, now);
    } else {
      NoChangeIsSound(s, e, step.outcome);
    }
  }

  lemma TracksTransitive(s: Core, t: Core, u: Core)
    requires Grows(s, t) && Grows(t, u) && Tracks(s, t) && Tracks(t, u)
    ensures Tracks(s, u)
  {
  }

  lemma {:induction false} FenceEachIsSound(s: Core, boots: seq<Text>, now: i64)
    ensures Sound(s, ExpirePublishers, FenceEach(s, boots, now))
    ensures Tracks(s, FenceEach(s, boots, now).state)
    ensures !FenceEach(s, boots, now).outcome.IsRejection()
    decreases |boots|
  {
    if boots == [] {
      NoChangeIsSound(s, ExpirePublishers, NoChange);
    } else {
      var epoch := s.generations.coordinatorEpoch;
      var first := FenceStep(s, epoch, Some(boots[0]), OwnerProcessLost, now);
      FenceIsSound(s, ExpirePublishers, epoch, Some(boots[0]), OwnerProcessLost, now);
      FenceEachIsSound(first.state, boots[1..], now);
      var rest := FenceEach(first.state, boots[1..], now);
      assert !first.outcome.Accepted? ==> first.state == s;
      hide FenceBoot;
      GrowsTransitive(s, first.state, rest.state);
      if first.outcome.Accepted? {
        TracksTransitive(s, first.state, rest.state);
      }
      hide Grows, Tracks, RackAligned;
    }
  }

  lemma RelationshipIsSound(s: Core, limits: Limits, e: Event)
    requires e.PublishRelationship?
    ensures Sound(s, e, RelationshipStep(s, limits, e))
  {
    hide JudgeRelationship, CheckAuthority, Sound, CommitRelationship, Conclude;
    GrantMeans(s, e.authority, true);
    var a := CheckAuthority(s, e.authority, true);
    if a.Denied? {
      NoChangeIsSound(s, e, a.outcome);
    } else {
      var r := e.relationship.(key := Canonical(e.relationship.key));
      CommitRelationshipIsSound(s, e, a.publisher, r);
      ConcludeIsSound(s, e, a.publisher, JudgeRelationship(s, limits, e, r),
                      CommitRelationship(s, e.authority, a.publisher, r));
    }
  }

  lemma CommitRelationshipIsSound(s: Core, e: Event, publisher: Option<Text>, r: RelationshipRecord)
    requires e.PublishRelationship? && Grants(s, e.authority, publisher)
    ensures Sound(s, e, Step(CommitRelationship(s, e.authority, publisher, r), Accepted))
  {
    hide Grants, Sound, AdvancePublication;
    var committed := r.(generation := Advance(s.generations.topology),
                        ownerBoot := OwnerOf(e.authority.boot, r.ownerBoot),
                        ownerWorker := WorkerOf(s, publisher, r.ownerWorker));
    ContentCommit(s, e,
      s.(relationships := s.relationships[r.key := committed],
         generations := s.generations.(topology := Advance(s.generations.topology))), publisher);
  }

  lemma WithdrawRelationshipIsSound(s: Core, e: Event)
    requires e.WithdrawRelationship?
    ensures Sound(s, e, WithdrawRelationshipStep(s, e))
  {
    hide CheckAuthority, Sound, Grants, Conclude, AdvancePublication, JudgeRelationshipWithdrawal;
    GrantMeans(s, e.authority, true);
    var a := CheckAuthority(s, e.authority, true);
    if a.Denied? {
      NoChangeIsSound(s, e, a.outcome);
    } else {
      var u := WithoutRelationship(s, Canonical(e.key));
      ContentCommit(s, e, u, a.publisher);
      ConcludeIsSound(s, e, a.publisher, JudgeRelationshipWithdrawal(s, e), AdvancePublication(u, a.publisher));
    }
  }

  lemma DomainIsSound(s: Core, limits: Limits, e: Event)
    requires e.PublishFailureDomain?
    ensures Sound(s, e, DomainStep(s, limits, e))
  {
    hide JudgeDomain, CheckAuthority, Sound, CommitDomain, Conclude, UniqueParents;
    GrantMeans(s, e.authority, true);
    var a := CheckAuthority(s, e.authority, true);
    if a.Denied? {
      NoChangeIsSound(s, e, a.outcome);
    } else {
      var d := UniqueParents(e.domain);
      CommitDomainIsSound(s, e, a.publisher, d);
      ConcludeIsSound(s, e, a.publisher, JudgeDomain(s, limits, e, d), CommitDomain(s, e.authority, a.publisher, d));
    }
  }

  lemma CommitDomainIsSound(s: Core, e: Event, publisher: Option<Text>, d: FailureDomainRecord)
    requires e.PublishFailureDomain? && Grants(s, e.authority, publisher)
    ensures Sound(s, e, Step(CommitDomain(s, e.authority, publisher, d), Accepted))
  {
    hide Grants, Sound, AdvancePublication;
    var committed := d.(generation := Advance(s.generations.failureDomains),
                        ownerBoot := OwnerOf(e.authority.boot, d.ownerBoot),
                        ownerWorker := WorkerOf(s, publisher, d.ownerWorker));
    ContentCommit(s, e,
      s.(failureDomains := s.failureDomains[d.id := committed],
         generations := s.generations.(failureDomains := Advance(s.generations.failureDomains))), publisher);
  }

  lemma EnvelopeCommit(
    s: Core, e: Event, publisher: Option<Text>, power: Option<PowerEnvelope>, cooling: Option<CoolingEnvelope>,
    g: GenerationSet)
    requires IsPublication(e) && Grants(s, e.authority, publisher)
    requires GenerationsGrow(s.generations, g) && g.rack == s.generations.rack
    requires g != s.generations || Saturated(s.generations)
    ensures Sound(s, e,
              Step(AdvancePublication(s.(power := power, cooling := cooling, generations := g), publisher), Accepted))
  {
    hide Saturated;
    ContentCommit(s, e, s.(power := power, cooling := cooling, generations := g), publisher);
  }

  lemma PowerIsSound(env: Env, s: Core, e: Event, now: i64)
    requires e.PublishPower?
    ensures Sound(s, e, PowerStep(env, s, e, now))
  {
    hide CheckAuthority, Sound, Grants, Conclude, AdvancePublication, JudgePower, DerivedPower;
    GrantMeans(s, e.authority, true);
    var a := CheckAuthority(s, e.authority, true);
    if a.Denied? {
      NoChangeIsSound(s, e, a.outcome);
    } else {
      var t := CommitPower(env, s, e.authority, a.publisher, e.power, now);
      var p := e.power.(generation := Advance(s.generations.power),
                        stamp := e.power.stamp.(revalidationRequired := false),
                        ownerBoot := OwnerOf(e.authority.boot, e.power.ownerBoot),
                        ownerWorker := WorkerOf(s, a.publisher, e.power.ownerWorker));
      EnvelopeCommit(s, e, a.publisher, Some(DerivedPower(env, p, now)), s.cooling, s.generations.(
        power := Advance(s.generations.power), constraints := Advance(s.generations.constraints)));
      ConcludeIsSound(s, e, a.publisher, JudgePower(s, e), t);
    }
  }

  lemma CoolingIsSound(env: Env, s: Core, e: Event, now: i64)
    requires e.PublishCooling?
    ensures Sound(s, e, CoolingStep(env, s, e, now))
  {
    hide CheckAuthority, Sound, Grants, Conclude, AdvancePublication, JudgeCooling, DerivedCooling, SortZones;
    GrantMeans(s, e.authority, true);
    var a := CheckAuthority(s, e.authority, true);
    if a.Denied? {
      NoChangeIsSound(s, e, a.outcome);
    } else {
      var t := CommitCooling(env, s, e.authority, a.publisher, e.cooling, now);
      var c := e.cooling.(generation := Advance(s.generations.cooling),
                          zones := SortZones(e.cooling.zones),
                          stamp := e.cooling.stamp.(revalidationRequired := false),
                          ownerBoot := OwnerOf(e.authority.boot, e.cooling.ownerBoot),
                          ownerWorker := WorkerOf(s, a.publisher, e.cooling.ownerWorker));
      EnvelopeCommit(s, e, a.publisher, s.power, Some(DerivedCooling(env, c, now)), s.generations.(
        cooling := Advance(s.generations.cooling), constraints := Advance(s.generations.constraints)));
      ConcludeIsSound(s, e, a.publisher, JudgeCooling(s, e), t);
    }
  }

  lemma SnapshotIsSound(env: Env, s: Core, e: Event, now: i64)
    requires e.PublishSnapshot?
    ensures Sound(s, e, SnapshotStep(env, s, e, now))
  {
    GrantMeans(s, e.authority, true);
    var a := CheckAuthority(s, e.authority, true);
    var step := SnapshotStep(env, s, e, now);
    if !step.outcome.Accepted? {
      NoChangeIsSound(s, e, step.outcome);
    } else {
      hide Sound, Grants, AdvancePublication, CheckAuthority, BuildSnapshot, Retain;
      var generation := s.snapshotGeneration + 1;
      var id := SnapshotId(s.rack.value.id, generation);
      var snapshot := BuildSnapshot(env, s, id, generation, SnapshotPublication(s, a.publisher), now);
      ContentCommit(s, e,
        s.(snapshotGeneration := generation,
           snapshots := Retain(s.snapshots, env.limits.maxRetainedSnapshots, generation, snapshot)), a.publisher);
    }
  }

  /** Every step of the coordinator is sound. */
  lemma StepIsSound(env: Env, s: Core, e: Event, now: i64)
    requires RackAligned(s) && KeysMatch(s.members)
    ensures Sound(s, e, Apply(env, s, e, now))
  {
    hide Sound, KeysMatch, RackAligned;
    hide Register, Declare, PublishMemberStep, RelationshipStep, DomainStep, PowerStep, CoolingStep, HealthStep,
      CapabilityStep, WithdrawStep, WithdrawRelationshipStep, MarkUnavailableStep, RetireMemberStep, RetireRackStep,
      RevalidateStep, HeartbeatStep, FenceStep, FenceEach, SnapshotStep, Expired;
    match e {
      case RegisterPublisher(_, _, _, _, _) => RegisterIsSound(s, env.limits, e, now);
      case DeclareRack(_, _, _, _) => DeclareIsSound(s, e, now);
      case PublishMember(_, _, _, _) => PublishMemberIsSound(s, env.limits, e);
      case PublishRelationship(_, _, _) => RelationshipIsSound(s, env.limits, e);
      case PublishFailureDomain(_, _, _) => DomainIsSound(s, env.limits, e);
      case PublishPower(_, _, _) => PowerIsSound(env, s, e, now);
      case PublishCooling(_, _, _) => CoolingIsSound(env, s, e, now);
      case PublishHealth(_, _, _, _, _, _) => HealthIsSound(s, e);
      case PublishCapability(_, _, _) => CapabilityIsSound(s, env.limits, e);
      case WithdrawEvidence(_, _, _) => WithdrawIsSound(s, e);
      case WithdrawRelationship(_, _) => WithdrawRelationshipIsSound(s, e);
      case MarkUnavailable(_, _, _) => MarkUnavailableIsSound(s, e);
      case RetireMember(_, _) => RetireMemberIsSound(s, e);
      case RetireRack(_) => RetireRackIsSound(s, e, now);
      case RevalidateMembers(_, _, _) => RevalidateIsSound(s, e);
      case Heartbeat(_) => HeartbeatIsSound(s, e, now);
      case FencePublisher(epoch, boot, reason) => FenceIsSound(s, e, epoch, boot, reason, now);
      case ExpirePublishers => FenceEachIsSound(s, Expired(s, now), now);
      case PublishSnapshot(_) => SnapshotIsSound(env, s, e, now);
    }
  }
}
