/** The invariant check of a running coordinator: what it finds beyond the check of a loaded state. */
module LiveCheck {
  import opened Bytes
  import opened Wrappers
  import opened Evidence
  import opened Model
  import opened Graph
  import opened Indexes
  import opened RackReadiness
  import opened Machine
  import opened Structure
  import opened State
  import opened Buckets
  import opened Fabric
  import opened Scans
  import opened Invariants
  import opened Consistency
  import opened Fences
  import opened Diamonds
  import opened Recovery
  import opened Persistence
  import Runs
  import Facts = Progress

  /** The maintained indexes of a valid state are those of a rebuild exactly when its member buckets are. */
  lemma OnlyBucketsDiffer(state: RackState)
    requires state.Valid()
    ensures IndexesExact(state) <==> state.HasExactBuckets()
  {
    hide RackState.MembersIndexed, Agrees, ExactBuckets, DomainSound;
    KeysOf(state.Value());
    hide Structured;
    StoredUnderTheirKeys(state.relationships);
  }

  /** Takes the check of the live records and indexes. */
  method Check(fabric: RackFabric, now: i64) returns (passes: bool)
    requires fabric.state.Valid() && Facts.RackAligned(fabric.state.Value()) && Consistent(fabric.state.Value(), fabric.env)
    ensures passes <==>
              && SinglePaths(DomainGraph(fabric.state.failureDomains)) && NoneFencedAndLive(fabric.state.Value())
              && fabric.state.HasExactBuckets()
  {
    hide RackState.Indexed, Structured, Consistent, Passes, SinglePaths, NoneFencedAndLive, IndexesExact,
      RackState.HasExactBuckets;
    ConsistentPasses(fabric.state.Value(), fabric.env, now);
    OnlyBucketsDiffer(fabric.state) by {
      hide RackState.HasExactBuckets;
    }
    passes := CheckInvariants(fabric.state, fabric.env.limits, now);
  }

  /**
   * From a fresh coordinator on, whatever it was asked, its own check passes exactly when no failure domain is reached in
   * two ways, no process that retired the rack was left with authority, no member is missing from a bucket that was dropped
   * since it was last changed, and no known domain lost its bucket with its last name since it was last published.
   */
  method RunAndCheck(env: Env, run: seq<Timed>, now: i64) returns (passes: bool)
    ensures passes <==>
              && SinglePaths(DomainGraph(At(env, INITIAL, run, |run|).failureDomains))
              && NobodyLeft(env, INITIAL, run, |run|) && NothingLost(env, INITIAL, run, |run|)
  {
    hide RackState.Valid, RackState.HasExactBuckets, RackState.DomainIndexComplete, Runs.Regular, Consistent,
      SinglePaths, NoneFencedAndLive, NobodyLeft, NothingLost, NoneForgotten, Apply;
    var fabric := new RackFabric(env);
    fabric.Replay(run);
    Runs.InitialIsRegular();
    InitialIsConsistent(env);
    InitialHasNobodyLeft();
    RunKeepsConsistency(env, INITIAL, run, |run|);
    NobodyLeftIff(env, INITIAL, run, |run|);
    RegularIsAligned(At(env, INITIAL, run, |run|));
    passes := Check(fabric, now);
  }

  /** What was saved and is loaded again passes its own check at once, whatever the saving coordinator's own check said. */
  method LoadAndCheck(fabric: RackFabric, ghost s: Core, file: bytes, now: i64, later: i64) returns (passes: bool)
    requires Runs.Regular(s) && Consistent(s, fabric.env) && Restorable(fabric.env, s, now)
    requires file == SavedFile(fabric.env, s)
    modifies fabric.state
    ensures passes && fabric.state.Value() == Recovered(s, s.generations.coordinatorEpoch + 1)
  {
    hide Runs.Regular, Consistent, Restorable, SinglePaths, NoneFencedAndLive, RackState.Indexed, Structured,
      RackState.HasExactBuckets, RackState.DomainIndexComplete, Recovered, Loaded, SavedFile;
    NextEpoch(fabric.env, s, now);
    ghost var epoch := s.generations.coordinatorEpoch + 1;
    LoadAfterSave(fabric.env, s, now);
    RecoveredIsRegular(s, epoch);
    RecoveryKeepsConsistency(fabric.env, s, epoch);
    RecoveryLeavesNobody(s, epoch);
    RecoveryKeepsPaths(fabric.env, s, epoch, now);
    RegularIsAligned(Recovered(s, epoch));
    Runs.RegularIsStructured(Recovered(s, epoch));
    var ok := LoadState(fabric, file, now);
    passes := Check(fabric, later);
  }

  lemma RecoveryKeepsPaths(env: Env, s: Core, epoch: u64, now: i64)
    requires Restorable(env, s, now)
    ensures SinglePaths(DomainGraph(Recovered(s, epoch).failureDomains))
  {
    RestorableIsSingle(env, s, now);
    hide Restorable, SinglePaths;
    RecoveryKeepsGraph(s, epoch);
  }

  lemma RestorableIsSingle(env: Env, s: Core, now: i64)
    requires Restorable(env, s, now)
    ensures SinglePaths(DomainGraph(s.failureDomains))
  {
    hide SinglePaths, RecordsPass, Acyclic, ParentsOnce, DomainGraph;
  }

  lemma RecoveryKeepsGraph(s: Core, epoch: u64)
    ensures DomainGraph(Recovered(s, epoch).failureDomains) == DomainGraph(s.failureDomains)
  {
    hide RecoveredMember, RecoveredRelationship, RecoveredPower, RecoveredCooling, RecoveredPublisher;
  }

  lemma RegularIsAligned(s: Core)
    requires Runs.Regular(s)
    ensures Facts.RackAligned(s)
  {
    hide Structured;
  }

  /**
   * Whoever may change a member whose stored record is valid can take the last name of a known domain away: exact buckets
   * are then no longer exact.
   */
  lemma LastNameCanGo(env: Env, s: Core, token: AuthorityToken, k: MemberKey, d: Text, now: i64)
    requires CheckAuthority(s, token, true).Granted?
    requires k in s.members && s.members[k].key == k && s.members[k].generation < U64_MAX
    requires !OwnerConflict(s.members[k].ownerBoot, token)
    requires ValidMemberRecord(s.members[k], env.limits) && JudgeReferences(s, s.members[k]).Accepted?
    requires !s.members[k].lifecycle.Retired?
    requires d in s.failureDomains && d in s.members[k].failureDomains && !NamedByOther(s.members, k, d)
    ensures var e := PublishMember(token, s.members[k].(failureDomains := [], generation := 0), None, false);
            Apply(env, s, e, now).outcome.Accepted? && LosesBucket(s, e)
  {
    hide CheckAuthority, Reaches, ValidEvidence, IsIdentity, IsLabel, ValidCapability, DetailsMatchKind, NamedByOther,
      CommitMember, DomainRefs;
    var r := s.members[k].(failureDomains := [], generation := 0);
    var e := PublishMember(token, r, None, false);
    NamedAfter(s.members, r, d);
    assert !IsNamed(s.members[k := r], d);
    assert ValidMemberRecord(r, env.limits);
    assert JudgeReferences(s, r).Accepted?;
    assert JudgeReplacement(s.members[k], e).Accepted?;
    assert JudgeMember(s, env.limits, e).Accepted?;
  }

  /** Whoever may publish a named domain again drops its bucket, and its members with it. */
  lemma BucketCanBeDropped(env: Env, s: Core, token: AuthorityToken, d: Text, source: Option<Text>, now: i64)
    requires Structured(s) && CheckAuthority(s, token, true).Granted?
    requires d in s.failureDomains && IsNamed(s.members, d) && source != s.failureDomains[d].source
    requires var r := s.failureDomains[d];
             && !OwnerConflict(r.ownerBoot, token)
             && IsIdentity(d) && ValidEvidence(r.stamp) && (r.labelText.Some? ==> IsLabel(r.labelText.value))
    requires s.generations.failureDomains < U64_MAX
    ensures var e := PublishFailureDomain(token, s.failureDomains[d].(generation := 0, source := source), None);
            Apply(env, s, e, now).outcome.Accepted? && DropsBucket(s, e)
  {
    hide CheckAuthority, IsIdentity, IsLabel, ValidEvidence, Structured, DomainsStructured, UniqueParents, JudgeParents,
      CommitDomain, IsNamed;
    StructuredDomains(s);
    KnownId(s.failureDomains, d);
    var r := s.failureDomains[d].(generation := 0, source := source);
    var e := PublishFailureDomain(token, r, None);
    UniqueKeepsTheRest(r);
    OldParentsAreJudged(s.failureDomains, d, UniqueParents(r).parents);
    assert JudgeDomain(s, env.limits, e, UniqueParents(r)).Accepted?;
  }

  lemma KnownId(domains: map<Text, FailureDomainRecord>, d: Text)
    requires DomainsStructured(domains) && d in domains
    ensures domains[d].id == d
  {
    hide Acyclic;
  }
}
