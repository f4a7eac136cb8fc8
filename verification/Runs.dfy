/** What holds over whole runs: one winner per generation, permanent fencing, sound snapshots. */
module Runs {
  import opened Wrappers
  import opened Evidence
  import opened Model
  import opened Ordering
  import opened Graph
  import opened RackReadiness
  import opened Machine
  import opened Progress
  import opened Structure

  /** The two facts every run keeps and every argument below starts from. */
  ghost predicate Regular(s: Core) {
    RackAligned(s) && Structured(s)
  }

  lemma RegularKeys(s: Core)
    requires Regular(s)
    ensures KeysMatch(s.members) && RackAligned(s)
  {
  }

  lemma StepOfRun(env: Env, s: Core, run: seq<Timed>, n: nat)
    requires n < |run| && Regular(At(env, s, run, n))
    ensures Sound(At(env, s, run, n), run[n].event, StepAt(env, s, run, n))
    ensures Regular(At(env, s, run, n + 1))
  {
    hide Apply, Structured, RackAligned, KeysMatch;
    RegularKeys(At(env, s, run, n));
    StepIsSound(env, At(env, s, run, n), run[n].event, run[n].now);
    StepKeepsStructure(env, At(env, s, run, n), run[n].event, run[n].now);
    assert At(env, s, run, n + 1) == StepAt(env, s, run, n).state;
  }

  lemma {:induction false} RunIsRegular(env: Env, s: Core, run: seq<Timed>, n: nat)
    requires Regular(s) && n <= |run|
    ensures Regular(At(env, s, run, n))
    decreases n
  {
    hide Regular, Apply;
    if n > 0 {
      RunIsRegular(env, s, run, n - 1);
      StepOfRun(env, s, run, n - 1);
    }
  }

  /** No run lowers a generation, forgets a member or a fenced boot, or revives a retired rack. */
  lemma {:induction false} RunGrows(env: Env, s: Core, run: seq<Timed>, i: nat, j: nat)
    requires Regular(s) && i <= j <= |run|
    ensures Grows(At(env, s, run, i), At(env, s, run, j))
    decreases j - i
  {
    hide Regular, Apply;
    if i < j {
      RunIsRegular(env, s, run, i);
      StepOfRun(env, s, run, i);
      RunGrows(env, s, run, i + 1, j);
      hide Grows;
      assert At(env, s, run, i + 1) == StepAt(env, s, run, i).state;
      GrowsTransitive(At(env, s, run, i), At(env, s, run, i + 1), At(env, s, run, j));
    } else {
      GrowsReflexive(At(env, s, run, i));
    }
  }

  lemma GrowsReflexive(s: Core)
    ensures Grows(s, s)
  {
  }

  lemma InitialIsRegular()
    ensures Regular(INITIAL)
  {
    InitialIsStructured();
  }

  // ----- At most one winner -----

  /** An accepted publication for an existing member presented its current generation and raised it. */
  lemma WinnerRaisesGeneration(s: Core, limits: Limits, e: Event)
    requires e.PublishMember? && e.record.key in s.members && KeysMatch(s.members)
    requires PublishMemberStep(s, limits, e).outcome.Accepted?
    ensures var t := PublishMemberStep(s, limits, e).state;
            && (e.expectedGeneration.Some? ==> e.expectedGeneration.value == s.members[e.record.key].generation)
            && e.record.key in t.members
            && t.members[e.record.key].generation > s.members[e.record.key].generation
  {
    GrantMeans(s, e.authority, true);
    hide CheckAuthority, JudgeReferences, ValidMemberRecord, SameMemberContent, Grants;
    var a := CheckAuthority(s, e.authority, true);
    assert a.Granted?;
    assert JudgeMember(s, limits, e).Accepted?;
    assert JudgeReplacement(s.members[e.record.key], e).Accepted?;
    hide JudgeReplacement;
  }

  lemma ApplyToMember(env: Env, s: Core, e: Event, now: i64)
    requires e.PublishMember?
    ensures Apply(env, s, e, now) == PublishMemberStep(s, env.limits, e)
  {
    hide PublishMemberStep;
  }

  /** Of all publications of one existing member under one expected generation, at most one is accepted. */
  lemma AtMostOneMemberWinner(env: Env, s: Core, run: seq<Timed>, i: nat, j: nat)
    requires Regular(s) && i < j < |run|
    requires run[i].event.PublishMember? && run[j].event.PublishMember?
    requires run[i].event.record.key == run[j].event.record.key
    requires run[i].event.record.key in At(env, s, run, i).members
    requires run[i].event.expectedGeneration.Some?
    requires run[i].event.expectedGeneration == run[j].event.expectedGeneration
    ensures !(StepAt(env, s, run, i).outcome.Accepted? && StepAt(env, s, run, j).outcome.Accepted?)
  {
    hide Regular, Apply, Grows;
    var u, v := At(env, s, run, i), At(env, s, run, j);
    RunIsRegular(env, s, run, i);
    RunIsRegular(env, s, run, j);
    RunGrows(env, s, run, i + 1, j);
    assert At(env, s, run, i + 1) == StepAt(env, s, run, i).state;
    if StepAt(env, s, run, i).outcome.Accepted? && StepAt(env, s, run, j).outcome.Accepted? {
      WinnerRuns(env, u, run[i].event, run[i].now);
      MemberKept(At(env, s, run, i + 1), v, run[i].event.record.key);
      WinnerRuns(env, v, run[j].event, run[j].now);
    }
  }

  lemma MemberKept(s: Core, t: Core, k: MemberKey)
    requires Grows(s, t) && k in s.members
    ensures k in t.members && s.members[k].generation <= t.members[k].generation
  {
  }

  lemma WinnerRuns(env: Env, s: Core, e: Event, now: i64)
    requires Regular(s) && e.PublishMember? && e.record.key in s.members
    requires Apply(env, s, e, now).outcome.Accepted?
    ensures var t := Apply(env, s, e, now).state;
            && (e.expectedGeneration.Some? ==> e.expectedGeneration.value == s.members[e.record.key].generation)
            && e.record.key in t.members
            && t.members[e.record.key].generation > s.members[e.record.key].generation
  {
    RegularKeys(s);
    ApplyToMember(env, s, e, now);
    hide Apply, Regular, PublishMemberStep;
    WinnerRaisesGeneration(s, env.limits, e);
  }

  /** An accepted publication found its boot at the presented generation and left it at the next. */
  lemma AcceptedPublication(s: Core, e: Event, step: Step, boot: Text, generation: u64)
    requires Sound(s, e, step) && step.outcome.Accepted? && IsPublication(e)
    requires e.authority.boot == Some(boot) && e.authority.publicationGeneration == Some(generation)
    ensures boot in s.publishers && s.publishers[boot].publicationGeneration == generation
    ensures boot in step.state.publishers && step.state.publishers[boot].publicationGeneration == Advance(generation)
  {
    hide Grows, Tracks, OnlyRejectionCount, RackAligned;
    assert Presents(e) == Some(boot);
  }

  lemma PublisherKept(s: Core, t: Core, boot: Text)
    requires Grows(s, t) && boot in s.publishers
    ensures boot in t.publishers
    ensures s.publishers[boot].publicationGeneration <= t.publishers[boot].publicationGeneration
  {
  }

  /** Of all publications by one boot under one publication generation, at most one is accepted below the maximum. */
  lemma AtMostOnePublication(env: Env, s: Core, run: seq<Timed>, i: nat, j: nat, boot: Text, generation: u64)
    requires Regular(s) && i < j < |run| && generation < U64_MAX
    requires IsPublication(run[i].event) && IsPublication(run[j].event)
    requires run[i].event.authority.boot == Some(boot) && run[j].event.authority.boot == Some(boot)
    requires run[i].event.authority.publicationGeneration == Some(generation)
    requires run[j].event.authority.publicationGeneration == Some(generation)
    ensures !(StepAt(env, s, run, i).outcome.Accepted? && StepAt(env, s, run, j).outcome.Accepted?)
  {
    hide Regular, Apply, Sound, Grows, IsPublication;
    RunIsRegular(env, s, run, i);
    RunIsRegular(env, s, run, j);
    StepOfRun(env, s, run, i);
    StepOfRun(env, s, run, j);
    RunGrows(env, s, run, i + 1, j);
    assert At(env, s, run, i + 1) == StepAt(env, s, run, i).state;
    if StepAt(env, s, run, i).outcome.Accepted? && StepAt(env, s, run, j).outcome.Accepted? {
      AcceptedPublication(At(env, s, run, i), run[i].event, StepAt(env, s, run, i), boot, generation);
      AcceptedPublication(At(env, s, run, j), run[j].event, StepAt(env, s, run, j), boot, generation);
      PublisherKept(At(env, s, run, i + 1), At(env, s, run, j), boot);
    }
  }

  // ----- Snapshots -----

  /** The snapshot that request `n` of a run published. */
  ghost function Published(env: Env, s: Core, run: seq<Timed>, n: nat): RackSnapshot
    requires n < |run| && run[n].event.PublishSnapshot? && StepAt(env, s, run, n).outcome.Accepted?
  {
    SnapshotAccepted(env, At(env, s, run, n), run[n].event, run[n].now);
    var t := At(env, s, run, n + 1);
    t.snapshots[t.snapshotGeneration]
  }

  /** A published snapshot is bound to the generations, and holds the content, of the state it was taken from. */
  lemma SnapshotAccepted(env: Env, s: Core, e: Event, now: i64)
    requires e.PublishSnapshot? && Apply(env, s, e, now).outcome.Accepted?
    ensures BindsState(env, s, Apply(env, s, e, now).state)
  {
    hide SnapshotStep, BindsState;
    SnapshotStepBinds(env, s, e, now);
  }

  ghost predicate BindsState(env: Env, s: Core, t: Core) {
    && t.snapshotGeneration in t.snapshots
    && var p := t.snapshots[t.snapshotGeneration];
    && p.generations == s.generations && t.generations == s.generations
    && ContentOf(t) == ContentOf(s)
    && t.rack == s.rack && s.rack.Some? && p.rack == s.rack.value.id && p.rackEpoch == s.rack.value.epoch
    && Holds(p, s)
    && p.digest == env.digest(WithoutDigest(p))
  }

  lemma SnapshotStepBinds(env: Env, s: Core, e: Event, now: i64)
    requires e.PublishSnapshot? && SnapshotStep(env, s, e, now).outcome.Accepted?
    ensures BindsState(env, s, SnapshotStep(env, s, e, now).state)
  {
    hide CheckAuthority, SnapshotId, IsIdentity, Grants, BuildSnapshot, AdvancePublication, BindsState;
    GrantMeans(s, e.authority, true);
    var publisher := CheckAuthority(s, e.authority, true).publisher;
    var generation := s.snapshotGeneration + 1;
    var id := SnapshotId(s.rack.value.id, generation);
    var p := BuildSnapshot(env, s, id, generation, SnapshotPublication(s, publisher), now);
    var u := s.(snapshotGeneration := generation,
                snapshots := Retain(s.snapshots, env.limits.maxRetainedSnapshots, generation, p));
    BuiltBinds(env, s, u, id, generation, SnapshotPublication(s, publisher), now);
    AdvanceKeepsBinding(env, s, u, publisher);
  }

  lemma BuiltBinds(env: Env, s: Core, u: Core, id: Text, generation: u64, publication: u64, now: i64)
    requires s.rack.Some?
    requires u == s.(snapshotGeneration := generation, snapshots := u.snapshots)
    requires generation in u.snapshots
    requires u.snapshots[generation] == BuildSnapshot(env, s, id, generation, publication, now)
    ensures BindsState(env, s, u)
  {
    hide Lifecycle, MembersInOrder, RelationshipsInOrder, DomainsInOrder;
  }

  lemma AdvanceKeepsBinding(env: Env, s: Core, u: Core, publisher: Option<Text>)
    requires BindsState(env, s, u)
    ensures BindsState(env, s, AdvancePublication(u, publisher))
  {
    hide MembersInOrder, RelationshipsInOrder, DomainsInOrder;
  }

  /** The snapshot lists exactly the records of the state, in the order of their keys. */
  ghost predicate Holds(p: RackSnapshot, s: Core) {
    && p.members == MembersInOrder(s.members)
    && p.relationships == RelationshipsInOrder(s.relationships)
    && p.failureDomains == DomainsInOrder(s.failureDomains)
    && p.power == s.power && p.cooling == s.cooling
  }

  /** A revalidation that was refused after some of its targets were committed. */
  ghost predicate PartialRevalidation(s: Core, e: Event, step: Step) {
    e.RevalidateMembers? && step.outcome.IsRejection() && step.state.members != s.members
  }

  /** The walk over the targets stops at this one: it is missing, someone else's, or cannot count further. */
  predicate Blocked(members: map<MemberKey, MemberRecord>, k: MemberKey, token: AuthorityToken) {
    || k !in members
    || OwnerConflict(members[k].ownerBoot, token)
    || (members[k].stamp.revalidationRequired && members[k].generation == U64_MAX)
  }

  /** The walk passes this target and changes its member. */
  predicate Renewed(members: map<MemberKey, MemberRecord>, targets: seq<MemberKey>, token: AuthorityToken, i: nat) {
    && i < |targets|
    && (forall h :: 0 <= h <= i ==> !Blocked(members, targets[h], token))
    && members[targets[i]].stamp.revalidationRequired
  }

  predicate IsBlocked(members: map<MemberKey, MemberRecord>, targets: seq<MemberKey>, token: AuthorityToken) {
    exists j :: 0 <= j < |targets| && Blocked(members, targets[j], token)
  }

  lemma {:induction false} WalkGrows(
    members: map<MemberKey, MemberRecord>, targets: seq<MemberKey>, token: AuthorityToken, changed: bool)
    ensures var n := RevalidateEach(members, targets, token, changed).members;
            n.Keys == members.Keys && forall k :: k in members ==> members[k].generation <= n[k].generation
    decreases |targets|
  {
    if targets != [] {
      var key := targets[0];
      if key in members && members[key].generation < U64_MAX {
        WalkGrows(members[key := Revalidated(members[key])], targets[1..], token, true);
      }
      WalkGrows(members, targets[1..], token, changed);
    }
  }

  /** After one target was renewed the others are as before, and it is due no longer. */
  lemma RenewedOnce(members: map<MemberKey, MemberRecord>, key: MemberKey, token: AuthorityToken, k: MemberKey)
    requires key in members && !Blocked(members, key, token) && members[key].stamp.revalidationRequired
    ensures var n := members[key := Revalidated(members[key])];
            && (Blocked(n, k, token) <==> Blocked(members, k, token))
            && (k in members && n[k].stamp.revalidationRequired ==> members[k].stamp.revalidationRequired)
  {
  }

  lemma BlockedFurther(members: map<MemberKey, MemberRecord>, targets: seq<MemberKey>, token: AuthorityToken)
    requires targets != []
    ensures IsBlocked(members, targets, token) <==>
              Blocked(members, targets[0], token) || IsBlocked(members, targets[1..], token)
  {
    if j :| 0 <= j < |targets| && Blocked(members, targets[j], token) {
      assert j > 0 ==> targets[1..][j - 1] == targets[j];
    }
    if j :| 0 <= j < |targets| - 1 && Blocked(members, targets[1..][j], token) {
      assert targets[j + 1] == targets[1..][j];
    }
  }

  /** The walk is refused exactly when some target is blocked. */
  lemma {:induction false} WalkIsRefusedIff(
    members: map<MemberKey, MemberRecord>, targets: seq<MemberKey>, token: AuthorityToken, changed: bool)
    ensures RevalidateEach(members, targets, token, changed).outcome.IsRejection() <==> IsBlocked(members, targets, token)
    decreases |targets|
  {
    if targets != [] {
      var key := targets[0];
      BlockedFurther(members, targets, token);
      if !Blocked(members, key, token) {
        if members[key].stamp.revalidationRequired {
          var n := members[key := Revalidated(members[key])];
          WalkIsRefusedIff(n, targets[1..], token, true);
          forall k {
            RenewedOnce(members, key, token, k);
          }
        } else {
          WalkIsRefusedIff(members, targets[1..], token, changed);
        }
      }
    }
  }

  lemma RenewedFurther(
    members: map<MemberKey, MemberRecord>, targets: seq<MemberKey>, token: AuthorityToken, i: nat)
    requires targets != [] && !Blocked(members, targets[0], token)
    ensures Renewed(members, targets, token, i + 1) <==> Renewed(members, targets[1..], token, i)
  {
    if Renewed(members, targets[1..], token, i) {
      forall h | 0 <= h <= i + 1
        ensures !Blocked(members, targets[h], token)
      {
        assert h > 0 ==> targets[1..][h - 1] == targets[h];
      }
    }
    if Renewed(members, targets, token, i + 1) {
      forall h | 0 <= h <= i
        ensures !Blocked(members, targets[1..][h], token)
      {
        assert targets[1..][h] == targets[h + 1];
      }
    }
  }

  /** The walk changes a member exactly when some target ahead of the first blocked one is due. */
  lemma {:induction false} WalkChangesIff(
    members: map<MemberKey, MemberRecord>, targets: seq<MemberKey>, token: AuthorityToken, changed: bool)
    ensures RevalidateEach(members, targets, token, changed).members != members <==>
              exists i: nat :: Renewed(members, targets, token, i)
    decreases |targets|
  {
    if targets != [] && !Blocked(members, targets[0], token) {
      var key := targets[0];
      if members[key].stamp.revalidationRequired {
        var n := members[key := Revalidated(members[key])];
        assert Renewed(members, targets, token, 0);
        WalkGrows(n, targets[1..], token, true);
        assert n[key].generation > members[key].generation;
      } else {
        WalkChangesIff(members, targets[1..], token, changed);
        if i: nat :| Renewed(members, targets, token, i) {
          assert i > 0;
          RenewedFurther(members, targets, token, i - 1);
        }
        if i: nat :| Renewed(members, targets[1..], token, i) {
          RenewedFurther(members, targets, token, i);
        }
      }
    }
  }

  ghost function Targets(s: Core, e: Event): seq<MemberKey>
    requires e.RevalidateMembers?
  {
    if e.all then Outstanding(s.members) else e.members
  }

  /** A granted revalidation with a blocked target, and a due one ahead of the first blocked one. */
  ghost predicate StopsMidway(s: Core, e: Event) {
    && e.RevalidateMembers? && CheckAuthority(s, e.authority, true).Granted?
    && IsBlocked(s.members, Targets(s, e), e.authority)
    && exists i: nat :: Renewed(s.members, Targets(s, e), e.authority, i)
  }

  /**
   * A revalidation is refused although it changed a member exactly when it stops midway; it then moves no generation of
   * the rack.
   */
  lemma PartialRevalidationIff(s: Core, e: Event)
    requires e.RevalidateMembers?
    ensures PartialRevalidation(s, e, RevalidateStep(s, e)) <==> StopsMidway(s, e)
    ensures StopsMidway(s, e) ==> RevalidateStep(s, e).state.generations == s.generations
  {
    hide CheckAuthority, RevalidateEach, IsBlocked, Renewed, Outstanding, AdvancePublication;
    GrantMeans(s, e.authority, true);
    if CheckAuthority(s, e.authority, true).Granted? {
      WalkIsRefusedIff(s.members, Targets(s, e), e.authority, false);
      WalkChangesIff(s.members, Targets(s, e), e.authority, false);
    }
  }

  lemma StepsMidway(env: Env, s: Core, e: Event, now: i64)
    ensures PartialRevalidation(s, e, Apply(env, s, e, now)) <==> StopsMidway(s, e)
  {
    hide RevalidateStep, PartialRevalidation, StopsMidway;
    if e.RevalidateMembers? {
      PartialRevalidationIff(s, e);
    } else {
      OnlyRevalidations(s, e, Apply(env, s, e, now));
    }
  }

  lemma OnlyRevalidations(s: Core, e: Event, step: Step)
    requires !e.RevalidateMembers?
    ensures !PartialRevalidation(s, e, step) && !StopsMidway(s, e)
  {
  }

  lemma StepKeepsContent(s: Core, e: Event, step: Step)
    requires Sound(s, e, step) && !PartialRevalidation(s, e, step)
    requires step.state.generations == s.generations && !Saturated(s.generations)
    ensures ContentOf(step.state) == ContentOf(s)
  {
    hide Grows, Saturated, Authorized, NoteRejection;
    if step.outcome.IsRejection() && !e.RevalidateMembers? && step.state != s {
      var b :| b in s.publishers && step.state == NoteRejection(s, Some(b));
      NoteKeepsContent(s, b);
    }
  }

  lemma NoteKeepsContent(s: Core, b: Text)
    ensures ContentOf(NoteRejection(s, Some(b))) == ContentOf(s)
  {
  }

  lemma GenerationsBetween(s: Core, t: Core, u: Core)
    requires Grows(s, t) && Grows(t, u) && s.generations == u.generations
    ensures t.generations == s.generations
  {
  }

  lemma {:induction false} ContentHolds(env: Env, s: Core, run: seq<Timed>, i: nat, j: nat)
    requires Regular(s) && i <= j <= |run|
    requires At(env, s, run, j).generations == At(env, s, run, i).generations
    requires !Saturated(At(env, s, run, j).generations)
    requires forall m :: i <= m < j ==> !StopsMidway(At(env, s, run, m), run[m].event)
    ensures ContentOf(At(env, s, run, j)) == ContentOf(At(env, s, run, i))
    decreases j - i
  {
    hide Regular, Apply, Sound, Grows, Saturated, PartialRevalidation, StopsMidway;
    if i < j {
      StepsMidway(env, At(env, s, run, i), run[i].event, run[i].now);
      RunIsRegular(env, s, run, i);
      StepOfRun(env, s, run, i);
      RunGrows(env, s, run, i, i + 1);
      RunGrows(env, s, run, i + 1, j);
      assert At(env, s, run, i + 1) == StepAt(env, s, run, i).state;
      GenerationsBetween(At(env, s, run, i), At(env, s, run, i + 1), At(env, s, run, j));
      StepKeepsContent(At(env, s, run, i), run[i].event, StepAt(env, s, run, i));
      ContentHolds(env, s, run, i + 1, j);
    }
  }

  /** A walk that changes a member raises the generation of one. */
  lemma {:induction false} WalkRaises(
    members: map<MemberKey, MemberRecord>, targets: seq<MemberKey>, token: AuthorityToken, changed: bool)
    ensures var n := RevalidateEach(members, targets, token, changed).members;
            n == members || exists k :: k in members && k in n && members[k].generation < n[k].generation
    decreases |targets|
  {
    if targets != [] && !Blocked(members, targets[0], token) {
      var key := targets[0];
      if members[key].stamp.revalidationRequired {
        var next := members[key := Revalidated(members[key])];
        WalkGrows(next, targets[1..], token, true);
        assert members[key].generation < next[key].generation;
      } else {
        WalkRaises(members, targets[1..], token, changed);
      }
    }
  }

  lemma MidwayRaises(s: Core, e: Event)
    requires StopsMidway(s, e)
    ensures e.RevalidateMembers?
    ensures var n := RevalidateStep(s, e).state.members;
            exists k :: k in s.members && k in n && s.members[k].generation < n[k].generation
  {
    hide CheckAuthority, RevalidateEach, IsBlocked, Renewed, Outstanding, AdvancePublication, NoteRejection;
    var targets := Targets(s, e);
    WalkIsRefusedIff(s.members, targets, e.authority, false);
    WalkChangesIff(s.members, targets, e.authority, false);
    WalkRaises(s.members, targets, e.authority, false);
    NotingKeepsMembers(s.(members := RevalidateEach(s.members, targets, e.authority, false).members),
                       CheckAuthority(s, e.authority, true).publisher);
  }

  lemma NotingKeepsMembers(s: Core, publisher: Option<Text>)
    ensures NoteRejection(s, publisher).members == s.members
  {
  }

  /** What a revalidation that stopped midway changed never becomes again what it was. */
  lemma MidwayChangesForGood(env: Env, s: Core, run: seq<Timed>, i: nat, m: nat, j: nat)
    requires Regular(s) && i <= m < j <= |run| && StopsMidway(At(env, s, run, m), run[m].event)
    ensures At(env, s, run, i).members != At(env, s, run, j).members
  {
    hide Regular, Apply, StopsMidway, Grows, RevalidateStep;
    var u, v := At(env, s, run, m), At(env, s, run, m + 1);
    MidwayRaises(u, run[m].event);
    assert v == RevalidateStep(u, run[m].event).state by {
      assert v == StepAt(env, s, run, m).state;
      ApplyToRevalidation(env, u, run[m].event, run[m].now);
    }
    var k :| k in u.members && k in v.members && u.members[k].generation < v.members[k].generation;
    RunGrows(env, s, run, i, m);
    RunGrows(env, s, run, m + 1, j);
    MemberKept(v, At(env, s, run, j), k);
    if k in At(env, s, run, i).members {
      MemberKept(At(env, s, run, i), u, k);
    }
  }

  lemma ApplyToRevalidation(env: Env, s: Core, e: Event, now: i64)
    requires e.RevalidateMembers?
    ensures Apply(env, s, e, now) == RevalidateStep(s, e)
  {
    hide RevalidateStep;
  }

  /** Under their own keys, members are listed alike only if they are the same. */
  lemma ListsTell(m: map<MemberKey, MemberRecord>, n: map<MemberKey, MemberRecord>)
    requires KeysMatch(m) && KeysMatch(n) && MembersInOrder(m) == MembersInOrder(n)
    ensures m == n
  {
    hide KeysMatch, MembersInOrder;
    forall k
      ensures k in m <==> k in n
      ensures k in m ==> m[k] == n[k]
    {
      if k in m {
        ListTells(m, n, k);
      }
      if k in n {
        ListTells(n, m, k);
      }
    }
  }

  lemma ListTells(m: map<MemberKey, MemberRecord>, n: map<MemberKey, MemberRecord>, k: MemberKey)
    requires KeysMatch(m) && KeysMatch(n) && MembersInOrder(m) == MembersInOrder(n) && k in m
    ensures k in n && n[k] == m[k]
  {
    hide StrictTotal, Ascends;
    MemberOrder();
    var keys := Ascending(m.Keys, MemberLess);
    assert k in keys;
    var i :| 0 <= i < |keys| && keys[i] == k;
    assert |m| == |MembersInOrder(m)| == |n|;
    InOrderAt(m, MemberLess, i);
    InOrderAt(n, MemberLess, i);
  }

  /**
   * A published snapshot that still validates as current holds exactly the present content, with counters that are not
   * exhausted, exactly when no revalidation stopped midway since it was published.
   */
  lemma CurrentSnapshotIsExact(env: Env, s: Core, run: seq<Timed>, i: nat, j: nat)
    requires Regular(s) && i < j <= |run|
    requires run[i].event.PublishSnapshot? && StepAt(env, s, run, i).outcome.Accepted?
    requires !Saturated(At(env, s, run, j).generations)
    requires ValidateSnapshot(env, At(env, s, run, j), Published(env, s, run, i)).Current?
    ensures Holds(Published(env, s, run, i), At(env, s, run, j)) <==>
              forall m :: i < m < j ==> !StopsMidway(At(env, s, run, m), run[m].event)
  {
    hide Regular, Apply, Saturated, StopsMidway, Holds, Published, MembersInOrder;
    PublishedIsBound(env, s, run, i);
    if m :| i < m < j && StopsMidway(At(env, s, run, m), run[m].event) {
      MidwayChangesForGood(env, s, run, i, m, j);
      RunIsRegular(env, s, run, i);
      RunIsRegular(env, s, run, j);
      HeldOnce(Published(env, s, run, i), At(env, s, run, i), At(env, s, run, j));
    } else {
      ContentHolds(env, s, run, i + 1, j);
      HoldsContent(Published(env, s, run, i), At(env, s, run, i), At(env, s, run, j));
    }
  }

  lemma PublishedIsBound(env: Env, s: Core, run: seq<Timed>, i: nat)
    requires i < |run| && run[i].event.PublishSnapshot? && StepAt(env, s, run, i).outcome.Accepted?
    ensures Published(env, s, run, i).generations == At(env, s, run, i + 1).generations
    ensures ContentOf(At(env, s, run, i + 1)) == ContentOf(At(env, s, run, i))
    ensures Holds(Published(env, s, run, i), At(env, s, run, i))
  {
    SnapshotAccepted(env, At(env, s, run, i), run[i].event, run[i].now);
    hide Apply, Holds;
    assert At(env, s, run, i + 1) == StepAt(env, s, run, i).state;
  }

  lemma HoldsContent(p: RackSnapshot, s: Core, t: Core)
    requires Holds(p, s) && ContentOf(s) == ContentOf(t)
    ensures Holds(p, t)
  {
  }

  /** A snapshot is current at the moment it is published. */
  lemma FreshSnapshotIsCurrent(env: Env, s: Core, e: Event, now: i64)
    requires e.PublishSnapshot? && Apply(env, s, e, now).outcome.Accepted?
    ensures var t := Apply(env, s, e, now).state;
            && t.snapshotGeneration in t.snapshots
            && ValidateSnapshot(env, t, t.snapshots[t.snapshotGeneration]).Current?
  {
    SnapshotAccepted(env, s, e, now);
    hide Apply, Holds;
  }

  lemma MidwayChangesMembers(s: Core, e: Event)
    requires StopsMidway(s, e)
    ensures e.RevalidateMembers?
    ensures var t := RevalidateStep(s, e).state;
            && t.members.Keys == s.members.Keys && t.members != s.members
            && t.generations == s.generations && t.rack == s.rack
  {
    PartialRevalidationIff(s, e);
    WalkGrows(s.members, Targets(s, e), e.authority, false);
    hide CheckAuthority, RevalidateEach, IsBlocked, Renewed, Outstanding, AdvancePublication;
  }

  /** Right after a revalidation that stopped midway, a snapshot that was current is still taken for current, and is not. */
  lemma MidwayMisleads(env: Env, s: Core, e: Event, now: i64, p: RackSnapshot)
    requires Regular(s) && StopsMidway(s, e) && Holds(p, s) && ValidateSnapshot(env, s, p).Current?
    ensures var t := Apply(env, s, e, now).state;
            ValidateSnapshot(env, t, p).Current? && !Holds(p, t)
  {
    hide Regular, StopsMidway, Apply, RevalidateStep, Holds;
    MidwayChangesMembers(s, e);
    ApplyToRevalidation(env, s, e, now);
    var run := [Timed(e, now)];
    StepOfRun(env, s, run, 0);
    assert At(env, s, run, 1) == StepAt(env, s, run, 0).state;
    var t := Apply(env, s, e, now).state;
    HeldOnce(p, s, t);
  }

  lemma HeldOnce(p: RackSnapshot, s: Core, t: Core)
    requires Regular(s) && Regular(t) && Holds(p, s) && s.members != t.members
    ensures !Holds(p, t)
  {
    hide Regular, Holds;
    if Holds(p, t) {
      HeldAgain(p, s, t);
    }
  }

  lemma HeldAgain(p: RackSnapshot, s: Core, t: Core)
    requires Regular(s) && Regular(t) && Holds(p, s) && Holds(p, t)
    ensures s.members == t.members
  {
    hide RackAligned, RelationshipsInOrder, DomainsInOrder, Acyclic, MembersInOrder;
    ListsTell(s.members, t.members);
  }

  /** It takes a due target of one's own in front of one that is missing. */
  lemma MidwayIsEasy(s: Core, token: AuthorityToken, k: MemberKey, missing: MemberKey)
    requires CheckAuthority(s, token, true).Granted? && k in s.members && missing !in s.members
    requires s.members[k].stamp.revalidationRequired && s.members[k].generation < U64_MAX
    requires !OwnerConflict(s.members[k].ownerBoot, token)
    ensures StopsMidway(s, RevalidateMembers(token, [k, missing], false))
  {
    hide CheckAuthority;
    var targets := [k, missing];
    assert Blocked(s.members, targets[1], token);
    assert Renewed(s.members, targets, token, 0);
  }

  // ----- Fencing -----

  /** The member is not live evidence of this boot: it is not its own, not present, or must be revalidated. */
  ghost predicate Quiet(s: Core, boot: Text, k: MemberKey) {
    k in s.members && s.members[k].ownerBoot == Some(boot) && s.members[k].lifecycle.Present? ==>
      s.members[k].stamp.revalidationRequired
  }

  /** An operator, who presents no boot, publishes the member or clears its revalidation mark. */
  predicate Reasserts(e: Event, k: MemberKey) {
    || (e.PublishMember? && e.authority.boot.None? && e.record.key == k)
    || (e.RevalidateMembers? && e.authority.boot.None? && (e.all || k in e.members))
  }

  lemma FencingQuiets(s: Core, boot: Text, reason: RevalidationReason, now: i64, k: MemberKey)
    requires boot in s.publishers
    ensures boot in FenceBoot(s, boot, reason, now).fencedBoots && Quiet(FenceBoot(s, boot, reason, now), boot, k)
  {
  }

  lemma FenceBootStaysQuiet(
    s: Core, other: Text, reason: RevalidationReason, now: i64, boot: Text, k: MemberKey)
    requires other in s.publishers && Quiet(s, boot, k)
    ensures Quiet(FenceBoot(s, other, reason, now), boot, k)
  {
  }

  lemma {:induction false} FenceEachStaysQuiet(s: Core, boots: seq<Text>, now: i64, boot: Text, k: MemberKey)
    requires Quiet(s, boot, k)
    ensures Quiet(FenceEach(s, boots, now).state, boot, k)
    decreases |boots|
  {
    hide FenceBoot, Quiet;
    if boots != [] {
      if boots[0] in s.publishers {
        FenceBootStaysQuiet(s, boots[0], OwnerProcessLost, now, boot, k);
      }
      FenceEachStaysQuiet(FenceStep(s, s.generations.coordinatorEpoch, Some(boots[0]), OwnerProcessLost, now).state,
                          boots[1..], now, boot, k);
    }
  }

  lemma {:induction false} RevalidateEachStaysQuiet(
    members: map<MemberKey, MemberRecord>, targets: seq<MemberKey>, token: AuthorityToken, changed: bool,
    boot: Text, k: MemberKey)
    requires token.boot == Some(boot) || token.boot.None? ==> k !in targets
    requires k in members && members[k].ownerBoot == Some(boot)
    ensures var n := RevalidateEach(members, targets, token, changed).members;
            k in n && n[k] == members[k]
    decreases |targets|
  {
    if targets != [] {
      var key := targets[0];
      if key in members && members[key].generation < U64_MAX && !OwnerConflict(members[key].ownerBoot, token) {
        RevalidateEachStaysQuiet(members[key := Revalidated(members[key])], targets[1..], token, true, boot, k);
      }
      RevalidateEachStaysQuiet(members, targets[1..], token, changed, boot, k);
    }
  }

  lemma RevalidateStaysQuiet(s: Core, e: Event, boot: Text, k: MemberKey)
    requires e.RevalidateMembers? && boot in s.fencedBoots && Quiet(s, boot, k) && !Reasserts(e, k)
    ensures Quiet(RevalidateStep(s, e).state, boot, k)
  {
    hide CheckAuthority, Outstanding, RevalidateEach, AdvancePublication, NoteRejection, Quiet, Reasserts;
    var a := CheckAuthority(s, e.authority, true);
    if a.Granted? {
      var targets := if e.all then Outstanding(s.members) else e.members;
      var s1 := s.(members := RevalidateEach(s.members, targets, e.authority, false).members);
      RevalidatedStaysQuiet(s, e, targets, boot, k);
      EndingsStayQuiet(s1, a.publisher, boot, k);
      QuietRests(s1, AdvanceMembership(s1), boot, k);
      EndingsStayQuiet(AdvanceMembership(s1), a.publisher, boot, k);
    }
  }

  lemma RevalidatedStaysQuiet(s: Core, e: Event, targets: seq<MemberKey>, boot: Text, k: MemberKey)
    requires e.RevalidateMembers? && boot in s.fencedBoots && Quiet(s, boot, k) && !Reasserts(e, k)
    requires !e.all ==> targets == e.members
    requires CheckAuthority(s, e.authority, true).Granted?
    ensures Quiet(s.(members := RevalidateEach(s.members, targets, e.authority, false).members), boot, k)
  {
    hide CheckAuthority, RevalidateEach;
    GrantMeans(s, e.authority, true);
    if k in s.members && s.members[k].ownerBoot == Some(boot) {
      RevalidateEachStaysQuiet(s.members, targets, e.authority, false, boot, k);
    } else {
      RevalidateEachKeepsOwner(s.members, targets, e.authority, false, k);
    }
  }

  lemma {:induction false} RevalidateEachKeepsOwner(
    members: map<MemberKey, MemberRecord>, targets: seq<MemberKey>, token: AuthorityToken, changed: bool, k: MemberKey)
    ensures var n := RevalidateEach(members, targets, token, changed).members;
            (k in n <==> k in members) && (k in n ==> n[k].ownerBoot == members[k].ownerBoot)
    decreases |targets|
  {
    if targets != [] {
      var key := targets[0];
      if key in members && members[key].generation < U64_MAX {
        RevalidateEachKeepsOwner(members[key := Revalidated(members[key])], targets[1..], token, true, k);
      }
      RevalidateEachKeepsOwner(members, targets[1..], token, changed, k);
    }
  }

  lemma PublishMemberStaysQuiet(s: Core, limits: Limits, e: Event, boot: Text, k: MemberKey)
    requires e.PublishMember? && boot in s.fencedBoots && Quiet(s, boot, k) && !Reasserts(e, k)
    ensures Quiet(PublishMemberStep(s, limits, e).state, boot, k)
  {
    GrantMeans(s, e.authority, true);
    hide CheckAuthority, JudgeMember;
  }

  /** The other mutations of one member leave what quietness rests on alone, or end the member's presence. */
  predicate Calms(r: MemberRecord, u: MemberRecord) {
    && u.key == r.key && u.ownerBoot == r.ownerBoot
    && ((u.lifecycle == r.lifecycle && u.stamp.revalidationRequired == r.stamp.revalidationRequired)
        || !u.lifecycle.Present?)
  }

  lemma UpdateStaysQuiet(s: Core, publisher: Option<Text>, r: MemberRecord, u: MemberRecord, boot: Text, k: MemberKey)
    requires Quiet(s, boot, k) && r.key in s.members && s.members[r.key] == r && Calms(r, u)
    ensures Quiet(Update(s, publisher, u), boot, k)
  {
  }

  lemma EndingsStayQuiet(s: Core, publisher: Option<Text>, boot: Text, k: MemberKey)
    requires Quiet(s, boot, k)
    ensures Quiet(AdvancePublication(s, publisher), boot, k) && Quiet(NoteRejection(s, publisher), boot, k)
  {
  }

  lemma ConcludeStaysQuiet(s: Core, publisher: Option<Text>, o: Outcome, u: Core, boot: Text, k: MemberKey)
    requires Quiet(s, boot, k) && Quiet(u, boot, k)
    ensures Quiet(Conclude(s, publisher, o, AdvancePublication(u, publisher)).state, boot, k)
  {
    EndingsStayQuiet(s, publisher, boot, k);
    EndingsStayQuiet(u, publisher, boot, k);
    hide Quiet, AdvancePublication, NoteRejection;
  }

  lemma HealthStaysQuiet(s: Core, e: Event, boot: Text, k: MemberKey)
    requires e.PublishHealth? && Structured(s) && Quiet(s, boot, k)
    ensures Quiet(HealthStep(s, e).state, boot, k)
  {
    hide Structured, CheckAuthority, JudgeHealth, Conclude, AdvancePublication, NoteRejection, Update, Quiet,
      WithCapability;
    MemberKeyMatches(s, e.member);
    var a := CheckAuthority(s, e.authority, true);
    if a.Granted? {
      EndingsStayQuiet(s, a.publisher, boot, k);
      if e.member in s.members {
        var r := s.members[e.member];
        var changed := Update(s, a.publisher, NextHealth(r, e));
        UpdateStaysQuiet(s, a.publisher, r, NextHealth(r, e), boot, k);
        QuietRests(changed, AdvanceHealth(changed), boot, k);
        ConcludeStaysQuiet(s, a.publisher, JudgeHealth(r, e), AdvanceHealth(changed), boot, k);
      }
    }
  }

  lemma CapabilityStaysQuiet(s: Core, limits: Limits, e: Event, boot: Text, k: MemberKey)
    requires e.PublishCapability? && Structured(s) && Quiet(s, boot, k)
    ensures Quiet(CapabilityStep(s, limits, e).state, boot, k)
  {
    hide Structured, CheckAuthority, JudgeCapability, Conclude, AdvancePublication, NoteRejection, Update, Quiet,
      WithCapability;
    MemberKeyMatches(s, e.member);
    var a := CheckAuthority(s, e.authority, true);
    if a.Granted? {
      EndingsStayQuiet(s, a.publisher, boot, k);
      if e.member in s.members {
        var r := s.members[e.member];
        var changed := Update(s, a.publisher, NextCapabilities(r, e));
        UpdateStaysQuiet(s, a.publisher, r, NextCapabilities(r, e), boot, k);
        QuietRests(changed, AdvanceCapabilities(changed), boot, k);
        ConcludeStaysQuiet(s, a.publisher, JudgeCapability(r, limits, e), AdvanceCapabilities(changed), boot, k);
      }
    }
  }

  lemma WithdrawStaysQuiet(s: Core, e: Event, boot: Text, k: MemberKey)
    requires e.WithdrawEvidence? && Structured(s) && Quiet(s, boot, k)
    ensures Quiet(WithdrawStep(s, e).state, boot, k)
  {
    hide Structured, CheckAuthority, JudgeWithdrawal, Conclude, AdvancePublication, NoteRejection, Update, Quiet,
      WithCapability;
    MemberKeyMatches(s, e.member);
    var a := CheckAuthority(s, e.authority, true);
    if a.Granted? {
      EndingsStayQuiet(s, a.publisher, boot, k);
      if e.member in s.members {
        var r := s.members[e.member];
        var changed := Update(s, a.publisher, Withdrawn(r, e.scope));
        UpdateStaysQuiet(s, a.publisher, r, Withdrawn(r, e.scope), boot, k);
        QuietRests(changed, AdvanceMembership(changed), boot, k);
        ConcludeStaysQuiet(s, a.publisher, JudgeWithdrawal(r, e), AdvanceMembership(changed), boot, k);
      }
    }
  }

  lemma MarkUnavailableStaysQuiet(s: Core, e: Event, boot: Text, k: MemberKey)
    requires e.MarkUnavailable? && Structured(s) && Quiet(s, boot, k)
    ensures Quiet(MarkUnavailableStep(s, e).state, boot, k)
  {
    hide Structured, CheckAuthority, JudgeUnavailable, Conclude, AdvancePublication, NoteRejection, Update, Quiet,
      WithCapability;
    MemberKeyMatches(s, e.member);
    var a := CheckAuthority(s, e.authority, true);
    if a.Granted? {
      EndingsStayQuiet(s, a.publisher, boot, k);
      if e.member in s.members {
        var r := s.members[e.member];
        var changed := Update(s, None, MadeUnavailable(r, e.reason));
        UpdateStaysQuiet(s, None, r, MadeUnavailable(r, e.reason), boot, k);
        QuietRests(changed, AdvanceMembership(changed), boot, k);
        ConcludeStaysQuiet(s, a.publisher, JudgeUnavailable(r, e), AdvanceMembership(changed), boot, k);
      }
    }
  }

  lemma MemberKeyMatches(s: Core, k: MemberKey)
    requires Structured(s)
    ensures k in s.members ==> s.members[k].key == k
  {
  }

  lemma QuietRests(s: Core, t: Core, boot: Text, k: MemberKey)
    requires Quiet(s, boot, k) && t.members == s.members
    ensures Quiet(t, boot, k)
  {
  }

  lemma RetireMemberStaysQuiet(s: Core, e: Event, boot: Text, k: MemberKey)
    requires e.RetireMember? && Quiet(s, boot, k)
    ensures Quiet(RetireMemberStep(s, e).state, boot, k)
  {
    hide CheckAuthority, JudgeRetirement, RetiredMember, Retirement, Conclude, AdvancePublication, NoteRejection, Quiet;
    var a := CheckAuthority(s, e.authority, true);
    if a.Granted? {
      EndingsStayQuiet(s, a.publisher, boot, k);
      if e.member in s.members {
        var u := RetiredMember(s, e.member, Retirement(s.members[e.member]));
        RetiredMemberStaysQuiet(s, e.member, boot, k);
        ConcludeStaysQuiet(s, a.publisher, JudgeRetirement(s.members[e.member]), u, boot, k);
      }
    }
  }

  lemma RetiredMemberStaysQuiet(s: Core, member: MemberKey, boot: Text, k: MemberKey)
    requires member in s.members && Quiet(s, boot, k)
    ensures Quiet(RetiredMember(s, member, Retirement(s.members[member])), boot, k)
  {
  }

  lemma RetireRackStaysQuiet(s: Core, e: Event, now: i64, boot: Text, k: MemberKey)
    requires e.RetireRack? && Quiet(s, boot, k)
    ensures Quiet(RetireRackStep(s, e, now).state, boot, k)
  {
    hide CheckAuthority, RetiredRack, AdvancePublication, Quiet;
    var a := CheckAuthority(s, e.authority, true);
    if s.rack.Some? && s.rack.value.generation < U64_MAX && a.Granted? {
      RetiredRackIsQuiet(s, s.rack.value.generation + 1, now, boot, k);
      EndingsStayQuiet(RetiredRack(s, s.rack.value.generation + 1, now), a.publisher, boot, k);
    }
  }

  lemma DeclareStaysQuiet(s: Core, e: Event, now: i64, boot: Text, k: MemberKey)
    requires e.DeclareRack? && Quiet(s, boot, k)
    ensures Quiet(Declare(s, e, now).state, boot, k)
  {
    hide CheckAuthority, IsIdentity, IsLabel;
  }

  lemma ConcludeKeepsMembers(s: Core, publisher: Option<Text>, o: Outcome, t: Core)
    requires t.members == s.members
    ensures Conclude(s, publisher, o, t).state.members == s.members
  {
  }

  /** Commits that are not about members leave them alone. */
  lemma TopologyCommitsKeepMembers(s: Core, token: AuthorityToken, publisher: Option<Text>)
    ensures forall r :: CommitRelationship(s, token, publisher, r).members == s.members
    ensures forall d :: CommitDomain(s, token, publisher, d).members == s.members
    ensures forall k :: AdvancePublication(WithoutRelationship(s, k), publisher).members == s.members
  {
  }

  lemma EnvelopeCommitsKeepMembers(env: Env, s: Core, token: AuthorityToken, publisher: Option<Text>, now: i64)
    ensures forall p :: CommitPower(env, s, token, publisher, p, now).members == s.members
    ensures forall c :: CommitCooling(env, s, token, publisher, c, now).members == s.members
  {
    hide DerivedPower, DerivedCooling, SortZones;
  }

  lemma CommittedStepsKeepMembers(env: Env, s: Core, e: Event, now: i64)
    ensures e.PublishRelationship? ==> RelationshipStep(s, env.limits, e).state.members == s.members
    ensures e.PublishFailureDomain? ==> DomainStep(s, env.limits, e).state.members == s.members
    ensures e.WithdrawRelationship? ==> WithdrawRelationshipStep(s, e).state.members == s.members
    ensures e.PublishPower? ==> PowerStep(env, s, e, now).state.members == s.members
    ensures e.PublishCooling? ==> CoolingStep(env, s, e, now).state.members == s.members
  {
    hide CheckAuthority, Conclude, JudgeRelationship, JudgeDomain, JudgeRelationshipWithdrawal, JudgePower,
      JudgeCooling, CommitRelationship, CommitDomain, CommitPower, CommitCooling, AdvancePublication,
      WithoutRelationship, UniqueParents, Canonical;
    if IsCommittedElsewhere(e) && CheckAuthority(s, e.authority, true).Granted? {
      var publisher := CheckAuthority(s, e.authority, true).publisher;
      TopologyCommitsKeepMembers(s, e.authority, publisher);
      EnvelopeCommitsKeepMembers(env, s, e.authority, publisher, now);
      forall o, t: Core | t.members == s.members
        ensures Conclude(s, publisher, o, t).state.members == s.members
      {
        ConcludeKeepsMembers(s, publisher, o, t);
      }
    }
  }

  predicate IsCommittedElsewhere(e: Event) {
    e.PublishRelationship? || e.PublishFailureDomain? || e.WithdrawRelationship? || e.PublishPower? || e.PublishCooling?
  }

  lemma OthersKeepMembers(env: Env, s: Core, e: Event, now: i64)
    ensures e.RegisterPublisher? ==> Register(s, env.limits, e, now).state.members == s.members
    ensures e.Heartbeat? ==> HeartbeatStep(s, e, now).state.members == s.members
    ensures e.PublishSnapshot? ==> SnapshotStep(env, s, e, now).state.members == s.members
  {
    hide CheckPublisher, BuildSnapshot, Retain, SnapshotId, IsIdentity, IsLabel;
  }

  /** No step but an operator's brings a member of a fenced boot back to life. */
  lemma StepStaysQuiet(env: Env, s: Core, e: Event, now: i64, boot: Text, k: MemberKey)
    requires Structured(s) && boot in s.fencedBoots && Quiet(s, boot, k) && !Reasserts(e, k)
    ensures Quiet(Apply(env, s, e, now).state, boot, k)
  {
    hide Structured, Quiet, Reasserts, PublishMemberStep, RevalidateStep, RetireMemberStep, RetireRackStep, Declare,
      FenceBoot, FenceEach, HealthStep, CapabilityStep, WithdrawStep, MarkUnavailableStep, Expired, Register,
      RelationshipStep, DomainStep, WithdrawRelationshipStep, PowerStep, CoolingStep, HeartbeatStep, SnapshotStep;
    match e {
      case PublishHealth(_, _, _, _, _, _) => HealthStaysQuiet(s, e, boot, k);
      case PublishCapability(_, _, _) => CapabilityStaysQuiet(s, env.limits, e, boot, k);
      case WithdrawEvidence(_, _, _) => WithdrawStaysQuiet(s, e, boot, k);
      case MarkUnavailable(_, _, _) => MarkUnavailableStaysQuiet(s, e, boot, k);
      case PublishMember(_, _, _, _) => PublishMemberStaysQuiet(s, env.limits, e, boot, k);
      case RevalidateMembers(_, _, _) => RevalidateStaysQuiet(s, e, boot, k);
      case RetireMember(_, _) => RetireMemberStaysQuiet(s, e, boot, k);
      case RetireRack(_) => RetireRackStaysQuiet(s, e, now, boot, k);
      case DeclareRack(_, _, _, _) => DeclareStaysQuiet(s, e, now, boot, k);
      case FencePublisher(epoch, b, reason) =>
        if b.Some? && b.value in s.publishers {
          FenceBootStaysQuiet(s, b.value, reason, now, boot, k);
        }
      case ExpirePublishers => FenceEachStaysQuiet(s, Expired(s, now), now, boot, k);
      case _ =>
        CommittedStepsKeepMembers(env, s, e, now);
        OthersKeepMembers(env, s, e, now);
        QuietRests(s, Apply(env, s, e, now).state, boot, k);
    }
  }

  /** Retiring the rack fences every registered boot and ends the presence of every member. */
  lemma RetiredRackIsQuiet(s: Core, generation: u64, now: i64, boot: Text, k: MemberKey)
    requires s.rack.Some?
    ensures boot in s.publishers ==> boot in RetiredRack(s, generation, now).fencedBoots
    ensures Quiet(RetiredRack(s, generation, now), boot, k)
  {
  }

  lemma {:induction false} FencedStaysQuiet(
    env: Env, s: Core, run: seq<Timed>, i: nat, j: nat, boot: Text, k: MemberKey)
    requires Regular(s) && i <= j <= |run|
    requires boot in At(env, s, run, i).fencedBoots && Quiet(At(env, s, run, i), boot, k)
    requires forall m :: i <= m < j ==> !Reasserts(run[m].event, k)
    ensures boot in At(env, s, run, j).fencedBoots && Quiet(At(env, s, run, j), boot, k)
    decreases j - i
  {
    hide Regular, Apply, Quiet, Reasserts, Structured, GenerationsGrow, PublishersGrow, MembersGrow;
    if i < j {
      RunIsRegular(env, s, run, i);
      RegularIsStructured(At(env, s, run, i));
      StepStaysQuiet(env, At(env, s, run, i), run[i].event, run[i].now, boot, k);
      RunGrows(env, s, run, i, i + 1);
      assert At(env, s, run, i + 1) == StepAt(env, s, run, i).state;
      FencedStaysQuiet(env, s, run, i + 1, j, boot, k);
    }
  }

  lemma RegularIsStructured(s: Core)
    requires Regular(s)
    ensures Structured(s)
  {
  }

  /** Once a boot is fenced, no request that presents it is ever accepted again. */
  lemma FencedIsNeverAccepted(env: Env, s: Core, run: seq<Timed>, i: nat, j: nat, boot: Text)
    requires Regular(s) && i <= j < |run|
    requires boot in At(env, s, run, i).fencedBoots && Presents(run[j].event) == Some(boot)
    ensures !StepAt(env, s, run, j).outcome.Accepted?
  {
    hide Regular, Apply, GenerationsGrow, PublishersGrow, MembersGrow, Tracks, OnlyRejectionCount, RackAligned;
    RunIsRegular(env, s, run, j);
    StepOfRun(env, s, run, j);
    RunGrows(env, s, run, i, j);
  }
}
