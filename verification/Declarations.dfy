/** Declaring and retiring the rack, revalidating members, and publishing snapshots: exactly what each does. */
module Declarations {
  import opened Bytes
  import opened Wrappers
  import opened Evidence
  import opened Model
  import opened Ordering
  import opened RackReadiness
  import opened Machine
  import Facts = Progress
  import opened Runs
  import opened Effects
  import opened Contents
  import opened Processes

  // ----- Declaring the rack -----

  /** A new incarnation of the rack: all its members, relationships and domains must be asserted again. */
  ghost predicate Reincarnated(s: Core, t: Core, e: Event, now: i64)
    requires e.DeclareRack?
  {
    && s.rack.Some? && t.rack.Some? && e.redeclare && e.authority.rack == Some(s.rack.value.id)
    && e.rackEpoch.Some? && e.rackEpoch.value != s.rack.value.epoch && s.rack.value.generation < U64_MAX
    && t.rack.value == s.rack.value.(epoch := e.rackEpoch.value, labelText := e.labelText, declaredAt := now,
                                     generation := s.rack.value.generation + 1)
    && t.members.Keys == s.members.Keys && t.relationships.Keys == s.relationships.Keys
    && t.failureDomains.Keys == s.failureDomains.Keys
    && (forall k :: k in s.members ==>
          t.members[k] == s.members[k].(stamp := Marked(s.members[k].stamp),
            revalidationReason := RevalidationReason.Superseded))
    && (forall k :: k in s.relationships ==>
          t.relationships[k] == s.relationships[k].(stamp := Marked(s.relationships[k].stamp)))
    && (forall d :: d in s.failureDomains ==>
          t.failureDomains[d] == s.failureDomains[d].(stamp := Marked(s.failureDomains[d].stamp)))
    && t == s.(rack := t.rack, members := t.members, relationships := t.relationships,
      failureDomains := t.failureDomains,
               generations := s.generations.(rack := t.rack.value.generation))
  }

  /** The first declaration makes the rack known, under the identity of the token; another one begins it anew. */
  lemma DeclarationIsExact(s: Core, e: Event, now: i64)
    requires e.DeclareRack?
    ensures var step := Declare(s, e, now);
            && (step.outcome.Accepted? && s.rack.None? ==>
                  && e.authority.rack.Some? && e.rackEpoch.Some?
                  && step.state == s.(
                       rack := Some(RackRecord(e.authority.rack.value, e.rackEpoch.value, 1, false, e.labelText, now)),
                       generations := s.generations.(rack := 1)))
            && (step.outcome.Accepted? && s.rack.Some? ==> Reincarnated(s, step.state, e, now))
            && (!step.outcome.Accepted? ==> step.state == s)
            && (step.outcome.NoChange? ==>
                  && s.rack.Some? && Some(s.rack.value.epoch) == e.rackEpoch
                  && (e.labelText.Some? ==> e.labelText == s.rack.value.labelText))
  {
    Facts.GrantMeans(s, e.authority, false);
    hide CheckAuthority, IsIdentity, IsLabel, Redeclared, Reincarnated;
    if Declare(s, e, now).outcome.Accepted? && s.rack.Some? {
      BegunAnew(s, e, now);
    }
  }

  lemma BegunAnew(s: Core, e: Event, now: i64)
    requires e.DeclareRack? && s.rack.Some? && e.redeclare && e.authority.rack == Some(s.rack.value.id)
    requires e.rackEpoch.Some? && e.rackEpoch.value != s.rack.value.epoch && s.rack.value.generation < U64_MAX
    ensures Reincarnated(s, Redeclared(s, e.rackEpoch.value, e.labelText, s.rack.value.generation + 1, now), e, now)
  {
  }

  // ----- Retiring the rack -----

  /** Nobody keeps authority but the process that asked; what was present is no longer, and is kept as it was. */
  ghost predicate Abandoned(s: Core, t: Core) {
    && s.rack.Some? && s.rack.value.generation < U64_MAX
    && t.rack == Some(s.rack.value.(retired := true, generation := s.rack.value.generation + 1))
    && t.members.Keys == s.members.Keys
    && (forall k :: k in s.members ==>
          t.members[k] == if s.members[k].lifecycle.Present?
                          then s.members[k].(lifecycle := MemberLifecycle.Unavailable,
                            stamp := Marked(s.members[k].stamp),
                                             revalidationReason := RevalidationReason.Superseded)
                          else s.members[k])
    && t == s.(rack := t.rack, members := t.members, publishers := t.publishers, fencedBoots := t.fencedBoots,
               generations := s.generations.(rack := t.rack.value.generation),
                 operatorPublication := t.operatorPublication)
  }

  /** Every process is recorded as fenced. */
  ghost predicate Banned(s: Core, t: Core, now: i64) {
    && t.fencedBoots.Keys == s.fencedBoots.Keys + s.publishers.Keys
    && (forall b :: b in s.fencedBoots && b !in s.publishers ==> t.fencedBoots[b] == s.fencedBoots[b])
    && forall b :: b in s.publishers ==>
         t.fencedBoots[b] == FencedBootRecord(b, Some(s.publishers[b].worker), s.generations.coordinatorEpoch, now,
                                              RevalidationReason.Superseded)
  }

  /** Every process is fenced and lost, except that the one that asked is counted, and so active again. */
  ghost predicate AllOut(s: Core, t: Core, token: AuthorityToken, now: i64) {
    && Banned(s, t, now) && t.publishers.Keys == s.publishers.Keys
    && (forall b :: b in s.publishers && token.boot != Some(b) ==>
          t.publishers[b] == s.publishers[b].(state := PublisherState.Lost))
    && (token.boot.None? ==> t.operatorPublication == Advance(s.operatorPublication))
    && (token.boot.Some? ==>
          var b := token.boot.value;
          && b in s.publishers && t.operatorPublication == s.operatorPublication
          && t.publishers[b] == s.publishers[b].(
               state := PublisherState.Active, publicationGeneration := Advance(s.publishers[b].publicationGeneration),
               acceptedMutations := t.publishers[b].acceptedMutations))
  }

  lemma RackRetirementIsExact(s: Core, e: Event, now: i64)
    requires e.RetireRack?
    ensures var step := RetireRackStep(s, e, now);
            && (step.outcome.Accepted? ==>
                  Abandoned(s, step.state) && AllOut(s, step.state, e.authority, now))
            && (!step.outcome.Accepted? ==> step.state == s)
  {
    hide CheckAuthority, RetiredRack, AdvancePublication, Abandoned, AllOut, Banned;
    Facts.GrantMeans(s, e.authority, true);
    if RetireRackStep(s, e, now).outcome.Accepted? {
      RetiredRackIs(s, e.authority, CheckAuthority(s, e.authority, true).publisher, now);
    }
  }

  lemma RetiredRackIs(s: Core, token: AuthorityToken, publisher: Option<Text>, now: i64)
    requires s.rack.Some? && s.rack.value.generation < U64_MAX
    requires publisher == token.boot && (publisher.Some? ==> publisher.value in s.publishers)
    ensures var t := AdvancePublication(RetiredRack(s, s.rack.value.generation + 1, now), publisher);
            Abandoned(s, t) && AllOut(s, t, token, now)
  {
    hide RetiredRack, Abandoned, AllOut, Counted, AdvancePublication;
    var u := RetiredRack(s, s.rack.value.generation + 1, now);
    var t := AdvancePublication(u, publisher);
    RetiredRecordsAre(s, now);
    EndingKeepsRecords(u, publisher);
    EndingIsCounted(u, token, u, publisher);
    AbandonedStill(s, u, t);
    AllButOneOut(s, u, t, token, now);
  }

  ghost predicate Outlawed(s: Core, u: Core) {
    && u.publishers.Keys == s.publishers.Keys && u.operatorPublication == s.operatorPublication
    && forall b :: b in s.publishers ==> u.publishers[b] == s.publishers[b].(state := PublisherState.Lost)
  }

  lemma RetiredRecordsAre(s: Core, now: i64)
    requires s.rack.Some? && s.rack.value.generation < U64_MAX
    ensures var u := RetiredRack(s, s.rack.value.generation + 1, now);
            Abandoned(s, u) && Outlawed(s, u) && Banned(s, u, now)
  {
  }

  lemma AbandonedStill(s: Core, u: Core, t: Core)
    requires Abandoned(s, u)
    requires t == u.(publishers := t.publishers, operatorPublication := t.operatorPublication)
    ensures Abandoned(s, t)
  {
  }

  lemma AllButOneOut(s: Core, u: Core, t: Core, token: AuthorityToken, now: i64)
    requires Outlawed(s, u) && Counted(u, token, t) && Banned(s, u, now)
    requires t.fencedBoots == u.fencedBoots && (token.boot.Some? ==> token.boot.value in s.publishers)
    ensures AllOut(s, t, token, now)
  {
    StillBanned(s, u, t, now);
    hide Banned;
  }

  lemma StillBanned(s: Core, u: Core, t: Core, now: i64)
    requires Banned(s, u, now) && t.fencedBoots == u.fencedBoots
    ensures Banned(s, t, now)
  {
  }

  // ----- Revalidation -----

  /** How many targets the walk passes before the first that blocks it. */
  function Passed(members: map<MemberKey, MemberRecord>, targets: seq<MemberKey>, token: AuthorityToken): (n: nat)
    ensures n <= |targets|
    ensures forall i :: 0 <= i < n ==> !Blocked(members, targets[i], token)
    ensures n < |targets| ==> Blocked(members, targets[n], token)
  {
    if targets == [] || Blocked(members, targets[0], token) then 0 else 1 + Passed(members, targets[1..], token)
  }

  /** The members that were due among those passed are confirmed, one generation up; every other one is as it was. */
  ghost predicate Confirms(m: map<MemberKey, MemberRecord>, n: map<MemberKey, MemberRecord>, passed: seq<MemberKey>) {
    && n.Keys == m.Keys
    && (forall k :: k in m && k in passed && m[k].stamp.revalidationRequired ==>
          && m[k].generation < U64_MAX
          && n[k] == m[k].(stamp := m[k].stamp.(revalidationRequired := false), revalidationReason := NoReason,
                           generation := m[k].generation + 1))
    && forall k :: k in m && !(k in passed && m[k].stamp.revalidationRequired) ==> n[k] == m[k]
  }

  /** Why the walk ends: at the end, with or without a change, or at a target, for a reason of that target. */
  predicate EndsWith(
    members: map<MemberKey, MemberRecord>, targets: seq<MemberKey>, token: AuthorityToken, changed: bool, o: Outcome)
  {
    var n := Passed(members, targets, token);
    if n < |targets| then
      && (o.RejectUnknownMember? <==> targets[n] !in members)
      && (o.RejectNotAuthorized? <==> targets[n] in members && OwnerConflict(members[targets[n]].ownerBoot, token))
      && (o.RejectUnknownMember? || o.RejectNotAuthorized? || o.RejectLimitExceeded?)
    else
      && (o.Accepted? || o.NoChange?)
      && (o.Accepted? <==> changed || exists i :: 0 <= i < |targets| && members[targets[i]].stamp.revalidationRequired)
  }

  lemma PassedFurther(members: map<MemberKey, MemberRecord>, targets: seq<MemberKey>, token: AuthorityToken)
    requires targets != [] && !Blocked(members, targets[0], token)
    ensures Passed(members, targets, token) == 1 + Passed(members, targets[1..], token)
    ensures targets[..Passed(members, targets, token)]
         == [targets[0]] + targets[1..][..Passed(members, targets[1..], token)]
  {
  }

  lemma {:induction false} SameBlocksSamePassed(
    m: map<MemberKey, MemberRecord>, n: map<MemberKey, MemberRecord>, targets: seq<MemberKey>, token: AuthorityToken)
    requires forall k {:trigger Blocked(n, k, token)} :: Blocked(m, k, token) <==> Blocked(n, k, token)
    ensures Passed(m, targets, token) == Passed(n, targets, token)
    decreases |targets|
  {
    hide Blocked;
    if targets != [] {
      SameBlocksSamePassed(m, n, targets[1..], token);
    }
  }

  lemma {:induction false} WalkIsExact(
    members: map<MemberKey, MemberRecord>, targets: seq<MemberKey>, token: AuthorityToken, changed: bool)
    ensures var p := RevalidateEach(members, targets, token, changed);
            && Confirms(members, p.members, targets[..Passed(members, targets, token)])
            && EndsWith(members, targets, token, changed, p.outcome)
    decreases |targets|
  {
    hide EndsWith, Confirms;
    if targets == [] || Blocked(members, targets[0], token) {
      WalkStops(members, targets, token, changed);
    } else {
      var key := targets[0];
      PassedFurther(members, targets, token);
      if members[key].stamp.revalidationRequired {
        var n := members[key := Revalidated(members[key])];
        forall k
          ensures Blocked(members, k, token) <==> Blocked(n, k, token)
        {
          RenewedOnce(members, key, token, k);
        }
        SameBlocksSamePassed(members, n, targets[1..], token);
        WalkIsExact(n, targets[1..], token, true);
        ConfirmsOneMore(members, RevalidateEach(n, targets[1..], token, true).members, key,
                        targets[1..][..Passed(n, targets[1..], token)]);
        EndsOneMore(members, n, targets, token, changed, true, RevalidateEach(n, targets[1..], token, true).outcome);
      } else {
        WalkIsExact(members, targets[1..], token, changed);
        ConfirmsNoMore(members, RevalidateEach(members, targets[1..], token, changed).members, key,
                       targets[1..][..Passed(members, targets[1..], token)]);
        EndsOneMore(members, members, targets, token, changed, changed,
                    RevalidateEach(members, targets[1..], token, changed).outcome);
      }
    }
  }

  lemma WalkStops(members: map<MemberKey, MemberRecord>, targets: seq<MemberKey>, token: AuthorityToken, changed: bool)
    requires targets == [] || Blocked(members, targets[0], token)
    ensures var p := RevalidateEach(members, targets, token, changed);
            && Confirms(members, p.members, targets[..Passed(members, targets, token)])
            && EndsWith(members, targets, token, changed, p.outcome)
  {
  }

  lemma ConfirmsOneMore(m: map<MemberKey, MemberRecord>, t: map<MemberKey, MemberRecord>, key: MemberKey,
      rest: seq<MemberKey>)
    requires key in m && m[key].stamp.revalidationRequired && m[key].generation < U64_MAX
    requires Confirms(m[key := Revalidated(m[key])], t, rest)
    ensures Confirms(m, t, [key] + rest)
  {
  }

  lemma ConfirmsNoMore(m: map<MemberKey, MemberRecord>, t: map<MemberKey, MemberRecord>, key: MemberKey,
      rest: seq<MemberKey>)
    requires key in m && !m[key].stamp.revalidationRequired && Confirms(m, t, rest)
    ensures Confirms(m, t, [key] + rest)
  {
  }

  lemma EndsOneMore(
    m: map<MemberKey, MemberRecord>, n: map<MemberKey, MemberRecord>, targets: seq<MemberKey>, token: AuthorityToken,
    before: bool, after: bool, o: Outcome)
    requires targets != [] && !Blocked(m, targets[0], token)
    requires Passed(n, targets[1..], token) == Passed(m, targets[1..], token)
        && EndsWith(n, targets[1..], token, after, o)
    requires n == if m[targets[0]].stamp.revalidationRequired then m[targets[0] := Revalidated(m[targets[0]])] else m
    requires after == (before || m[targets[0]].stamp.revalidationRequired)
    ensures EndsWith(m, targets, token, before, o)
  {
    PassedFurther(m, targets, token);
    var p := Passed(m, targets[1..], token);
    if p < |targets| - 1 {
      assert targets[1..][p] == targets[p + 1];
    } else {
      if i :| 0 <= i < |targets| && m[targets[i]].stamp.revalidationRequired {
        assert i > 0 ==> targets[1..][i - 1] == targets[i];
      }
      forall i | 0 <= i < |targets| - 1
        ensures targets[1..][i] == targets[i + 1] && targets[i + 1] in m
      {
        assert !Blocked(m, targets[i + 1], token);
      }
    }
  }

  /** Only members, counters and publishers are touched. */
  ghost predicate OnlyMembersMoved(s: Core, t: Core) {
    t == Around(s, t).(members := t.members)
  }

  /**
   * A revalidation confirms the targets that are due ahead of the first one that blocks it. It is accepted when nothing
   * blocks it and something was due; the membership then moves on.
   */
  lemma RevalidationIsExact(s: Core, e: Event)
    requires e.RevalidateMembers? && CheckAuthority(s, e.authority, true).Granted?
    ensures var step, targets := RevalidateStep(s, e), Targets(s, e);
            && Confirms(s.members, step.state.members, targets[..Passed(s.members, targets, e.authority)])
            && EndsWith(s.members, targets, e.authority, false, step.outcome)
            && OnlyMembersMoved(s, step.state)
            && (step.outcome.Accepted? ==>
                  && Counted(s, e.authority, step.state)
                  && step.state.generations == s.generations.(membership := Advance(s.generations.membership)))
            && (!step.outcome.Accepted? ==>
                  && step.state.generations == s.generations && step.state.operatorPublication == s.operatorPublication
                  && (step.outcome.NoChange? || e.authority.boot.None? ==> step.state.publishers == s.publishers)
                  && (step.outcome.IsRejection() && e.authority.boot.Some? ==>
                    NotesRefusal(s, step.state, e.authority.boot.value)))
  {
    hide CheckAuthority, RevalidateEach, Passed, EndsWith, Confirms, AdvancePublication, Counted, Outstanding,
      NotesRefusal;
    Facts.GrantMeans(s, e.authority, true);
    var targets := Targets(s, e);
    var publisher := CheckAuthority(s, e.authority, true).publisher;
    WalkIsExact(s.members, targets, e.authority, false);
    WalkOutcomes(s.members, targets, e.authority);
    var u := s.(members := RevalidateEach(s.members, targets, e.authority, false).members);
    EndingKeepsRecords(AdvanceMembership(u), publisher);
    EndingIsCounted(s, e.authority, AdvanceMembership(u), publisher);
    RefusalIsNoted(s, u, publisher);
  }

  lemma WalkOutcomes(members: map<MemberKey, MemberRecord>, targets: seq<MemberKey>, token: AuthorityToken)
    ensures var p := RevalidateEach(members, targets, token, false);
            p.outcome.NoChange? ==> p.members == members
  {
    Facts.RevalidateEachGrows(members, targets, token, false);
    hide RevalidateEach;
  }

  /** A refusal is counted against the process that asked, if one did. */
  predicate NotesRefusal(s: Core, t: Core, boot: Text) {
    && boot in s.publishers
    && t.publishers == s.publishers[boot := s.publishers[boot].(
         rejectedMutations := (s.publishers[boot].rejectedMutations + 1) % 0x1_0000_0000_0000_0000)]
  }

  lemma RefusalIsNoted(s: Core, u: Core, publisher: Option<Text>)
    requires u.publishers == s.publishers
    ensures NoteRejection(u, publisher) == u.(publishers := NoteRejection(u, publisher).publishers)
    ensures publisher.None? ==> NoteRejection(u, publisher) == u
    ensures publisher.Some? && publisher.value in s.publishers ==>
        NotesRefusal(s, NoteRejection(u, publisher), publisher.value)
  {
  }

  lemma OutstandingAreDue(members: map<MemberKey, MemberRecord>, k: MemberKey)
    ensures k in Outstanding(members) <==> k in members && members[k].stamp.revalidationRequired
  {
    hide StrictTotal, Ascends;
  }

  lemma NoneIsDue(m: map<MemberKey, MemberRecord>, n: map<MemberKey, MemberRecord>, passed: seq<MemberKey>)
    requires Confirms(m, n, passed)
    requires forall k :: k in m && m[k].stamp.revalidationRequired ==> k in passed
    ensures forall k :: k in n ==> !n[k].stamp.revalidationRequired
  {
  }

  /** After an accepted revalidation of everything no member remains to be revalidated. */
  lemma NothingIsLeft(s: Core, e: Event)
    requires e.RevalidateMembers? && e.all && RevalidateStep(s, e).outcome.Accepted?
    ensures forall k :: k in RevalidateStep(s, e).state.members ==>
              !RevalidateStep(s, e).state.members[k].stamp.revalidationRequired
  {
    hide Confirms, RevalidateStep, CheckAuthority, Counted, OnlyMembersMoved, Outstanding;
    AcceptedIsGranted(s, e);
    RevalidationIsExact(s, e);
    var targets := Targets(s, e);
    assert targets[..|targets|] == targets;
    forall k | k in s.members && s.members[k].stamp.revalidationRequired {
      OutstandingAreDue(s.members, k);
    }
    NoneIsDue(s.members, RevalidateStep(s, e).state.members, targets);
  }

  lemma AcceptedIsGranted(s: Core, e: Event)
    requires e.RevalidateMembers? && RevalidateStep(s, e).outcome.Accepted?
    ensures CheckAuthority(s, e.authority, true).Granted?
  {
    Facts.GrantMeans(s, e.authority, true);
    hide CheckAuthority, RevalidateEach, Outstanding;
  }

  // ----- Snapshots -----

  /** Of the retained snapshots the oldest goes when the limit is reached; every other one is kept. */
  ghost predicate Retains(m: map<u64, RackSnapshot>, n: map<u64, RackSnapshot>, limit: nat, generation: u64) {
    && generation in n
    && (forall g :: g in n && g != generation ==> g in m && n[g] == m[g])
    && (forall g :: g in m && g !in n ==> |m| >= limit && forall h :: h in m ==> g <= h)
    && (|m| >= limit && m != map[] ==>
          exists g :: g in m && (g == generation || g !in n) && forall h :: h in m ==> g <= h)
  }

  lemma RetainedAre(m: map<u64, RackSnapshot>, limit: nat, generation: u64, snapshot: RackSnapshot)
    ensures Retains(m, Retain(m, limit, generation, snapshot), limit, generation)
    ensures Retain(m, limit, generation, snapshot)[generation] == snapshot
  {
    hide StrictTotal, IsLeast;
    CounterOrder();
    if |m| >= limit && m != map[] {
      OldestGoes(m);
    }
  }

  lemma OldestGoes(m: map<u64, RackSnapshot>)
    requires m != map[] && StrictTotal<nat>(CounterLess)
    ensures var g := Least<nat>(m.Keys, CounterLess);
            g in m && forall h :: h in m ==> g <= h
  {
    hide StrictTotal;
    assert m.Keys != {};
    var g := Least<nat>(m.Keys, CounterLess);
    assert IsLeast<nat>(m.Keys, CounterLess, g);
  }

  /** What a published snapshot says about itself. */
  ghost predicate Describes(env: Env, s: Core, t: Core, token: AuthorityToken, now: i64) {
    && s.snapshotGeneration < U64_MAX && t.snapshotGeneration == s.snapshotGeneration + 1
    && t.snapshotGeneration in t.snapshots && s.rack.Some?
    && var p := t.snapshots[t.snapshotGeneration];
       && p.generation == t.snapshotGeneration && p.createdAt == now && p.id == SnapshotId(s.rack.value.id, p.generation)
       && p.lifecycle == Lifecycle(s, env.contract, now)
       && (token.boot.Some? ==>
             && token.boot.value in s.publishers
             && p.publicationGeneration == s.publishers[token.boot.value].publicationGeneration)
       && (token.boot.None? ==>
             p.publicationGeneration == if s.operatorPublication == 0 then 1 else s.operatorPublication)
  }

  /** A snapshot is retained beside the others, says who took it when and what it found, and changes nothing else. */
  lemma SnapshotIsExact(env: Env, s: Core, e: Event, now: i64)
    requires e.PublishSnapshot?
    ensures var step := SnapshotStep(env, s, e, now);
            && (step.outcome.Accepted? ==>
                  && Describes(env, s, step.state, e.authority, now) && Counted(s, e.authority, step.state)
                  && Retains(s.snapshots, step.state.snapshots, env.limits.maxRetainedSnapshots,
                    step.state.snapshotGeneration)
                  && step.state == Around(s, step.state).(snapshots := step.state.snapshots,
                                                          snapshotGeneration := step.state.snapshotGeneration)
                  && step.state.generations == s.generations)
            && (!step.outcome.Accepted? ==> step.state == s)
  {
    hide CheckAuthority, AdvancePublication, Counted, BuildSnapshot, Retain, Retains, SnapshotId, IsIdentity, Describes;
    Facts.GrantMeans(s, e.authority, true);
    if SnapshotStep(env, s, e, now).outcome.Accepted? {
      var publisher := CheckAuthority(s, e.authority, true).publisher;
      var generation := s.snapshotGeneration + 1;
      var p := BuildSnapshot(env, s, SnapshotId(s.rack.value.id, generation), generation,
                             SnapshotPublication(s, publisher), now);
      var u := s.(snapshotGeneration := generation,
                  snapshots := Retain(s.snapshots, env.limits.maxRetainedSnapshots, generation, p));
      RetainedAre(s.snapshots, env.limits.maxRetainedSnapshots, generation, p);
      EndingKeepsRecords(u, publisher);
      EndingIsCounted(s, e.authority, u, publisher);
      RetainsIt(s, u, env.limits.maxRetainedSnapshots);
      BuiltDescribes(env, s, AdvancePublication(u, publisher), e.authority, publisher, now);
    }
  }

  lemma RetainsIt(s: Core, u: Core, limit: nat)
    requires Retains(s.snapshots, u.snapshots, limit, u.snapshotGeneration)
    ensures u.snapshotGeneration in u.snapshots
  {
  }

  lemma BuiltDescribes(env: Env, s: Core, t: Core, token: AuthorityToken, publisher: Option<Text>, now: i64)
    requires s.rack.Some? && s.snapshotGeneration < U64_MAX && t.snapshotGeneration == s.snapshotGeneration + 1
    requires publisher == token.boot && (publisher.Some? ==> publisher.value in s.publishers)
    requires t.snapshotGeneration in t.snapshots
    requires t.snapshots[t.snapshotGeneration]
          == BuildSnapshot(env, s, SnapshotId(s.rack.value.id, t.snapshotGeneration), t.snapshotGeneration,
                           SnapshotPublication(s, publisher), now)
    ensures Describes(env, s, t, token, now)
  {
    hide MembersInOrder, RelationshipsInOrder, DomainsInOrder, Lifecycle, SnapshotId;
  }

  // ----- Names of snapshots -----

  /** The number a row of digits stands for. */
  function NumberOf(digits: Text): nat
    requires forall i :: 0 <= i < |digits| ==> 0x30 <= digits[i] <= 0x39
    decreases |digits|
  {
    if digits == [] then 0 else 10 * NumberOf(digits[..|digits| - 1]) + (digits[|digits| - 1] - 0x30) as nat
  }

  /** A number is written in decimal digits and reads back as itself. */
  lemma {:induction false} DecimalReadsBack(n: nat)
    ensures var d := Decimal(n);
            (forall i :: 0 <= i < |d| ==> 0x30 <= d[i] <= 0x39) && NumberOf(d) == n
    decreases n
  {
    if n >= 10 {
      DecimalReadsBack(n / 10);
      var d := Decimal(n / 10);
      var last := 0x30 + ((n % 10) as byte);
      assert (d + [last])[..|d|] == d;
      DigitReadsBack(n % 10);
    } else {
      DigitReadsBack(n);
      assert Decimal(n)[..0] == [];
    }
  }

  lemma DigitReadsBack(n: nat)
    requires n < 10
    ensures 0x30 <= 0x30 + (n as byte) <= 0x39 && ((0x30 + (n as byte)) - 0x30) as nat == n
  {
  }

  /** Two snapshots of one rack have one identity only if they are the same one. */
  lemma SnapshotIdsDiffer(rack: Text, g: u64, h: u64)
    requires SnapshotId(rack, g) == SnapshotId(rack, h)
    ensures g == h
  {
    DecimalReadsBack(g);
    DecimalReadsBack(h);
    var front := SNAPSHOT_PREFIX + rack + [0x2D];
    assert SnapshotId(rack, g)[|front|..] == Decimal(g);
    assert SnapshotId(rack, h)[|front|..] == Decimal(h);
  }

  // ----- Validation of a snapshot -----

  /** The snapshot carries the digest of everything else in it. */
  predicate IsIntact(env: Env, p: RackSnapshot) {
    env.digest(p.(digest := [])) == p.digest
  }

  /** It is bound to every generation the rack is at. */
  predicate IsBoundTo(p: RackSnapshot, s: Core) {
    var g, h := p.generations, s.generations;
    && s.rack.Some? && p.rack == s.rack.value.id && p.rackEpoch == s.rack.value.epoch
    && g.rack == h.rack && g.membership == h.membership && g.topology == h.topology
    && g.failureDomains == h.failureDomains && g.constraints == h.constraints && g.power == h.power
    && g.cooling == h.cooling && g.health == h.health && g.capabilities == h.capabilities
    && g.coordinatorEpoch == h.coordinatorEpoch
  }

  /** What each answer of a validation says: only an intact snapshot is ever current. */
  lemma ValidationMeans(env: Env, s: Core, p: RackSnapshot)
    ensures var v := ValidateSnapshot(env, s, p);
            && (v.Invalid? <==> !IsIntact(env, p))
            && (v.UnknownRack? <==> IsIntact(env, p) && !(s.rack.Some? && s.rack.value.id == p.rack))
            && (v.Current? <==> IsIntact(env, p) && IsBoundTo(p, s))
            && (v.StaleSnapshot? <==>
                  IsIntact(env, p) && s.rack.Some? && s.rack.value.id == p.rack && !IsBoundTo(p, s))
  {
  }

  /** A snapshot that was changed under its old digest is never current again, unless the digest is the same. */
  lemma TamperedIsInvalid(env: Env, s: Core, p: RackSnapshot, q: RackSnapshot)
    requires IsIntact(env, p) && q.digest == p.digest
    ensures ValidateSnapshot(env, s, q).Invalid? <==> env.digest(q.(digest := [])) != env.digest(p.(digest := []))
  {
    ValidationMeans(env, s, q);
  }
}
