/** Saving and loading: a load commits the recovery rewrite of what was saved, or nothing. */
module Persistence {
  import opened Bytes
  import opened Wrappers
  import opened Evidence
  import opened Model
  import opened Graph
  import opened RackReadiness
  import opened Machine
  import opened Structure
  import opened Indexes
  import opened State
  import opened Fabric
  import opened Invariants
  import opened Scans
  import opened Recovery
  import opened Consistency
  import opened Fences
  import opened Acceptance
  import opened Diamonds
  import Runs
  import Facts = Progress
  import Codec
  import Records
  import Layouts
  import StateCodec
  import StateStreams
  import Shapes
  import Files
  import FileStreams

  // ----- What a load yields -----

  /** The state a file is loaded as, if it is intact, decodes, passes the invariant check and its epoch can advance. */
  ghost function Loaded(env: Env, file: bytes, now: i64): Option<Core> {
    match Files.Parse(env.limits.maxPersistedBytes, file)
    case Payload(payload) =>
      (match StateCodec.DecodeState(env.limits, env.digest, payload)
       case None => None
       case Some(s) =>
         if Passes(s, env.limits, now) && s.generations.coordinatorEpoch < U64_MAX
         then Some(Recovered(s, s.generations.coordinatorEpoch + 1))
         else None)
    case _ => None
  }

  lemma GatheredKeys<K(!new), V>(vs: seq<V>, key: V -> K)
    ensures forall k :: k in StateCodec.Gather(vs, key) ==> key(StateCodec.Gather(vs, key)[k]) == k
  {
    if vs != [] {
      GatheredKeys(vs[..|vs| - 1], key);
    }
  }

  /** Decoded records sit under their own keys. */
  lemma DecodedKeys(l: Limits, digest: RackSnapshot -> string, payload: bytes)
    ensures var s := StateCodec.DecodeState(l, digest, payload);
            s.Some? ==>
              && (forall k :: k in s.value.members ==> s.value.members[k].key == k)
              && (forall k :: k in s.value.relationships ==> s.value.relationships[k].key == k)
              && forall d :: d in s.value.failureDomains ==> s.value.failureDomains[d].id == d
  {
    hide Codec.Get, StateCodec.Gather, StateCodec.UniqueKeys, StateCodec.SealAll;
    var p := Codec.Get(l.maxStringBytes, StateCodec.StateLayout(l, StateCodec.ReadablePublishers(l)), payload);
    if p.Ok? {
      AssembledKeys(digest, p.value);
    }
  }

  lemma AssembledKeys(digest: RackSnapshot -> string, v: Codec.Value)
    ensures var s := StateCodec.AsState(digest, v);
            s.Some? ==>
              && (forall k :: k in s.value.members ==> s.value.members[k].key == k)
              && (forall k :: k in s.value.relationships ==> s.value.relationships[k].key == k)
              && forall d :: d in s.value.failureDomains ==> s.value.failureDomains[d].id == d
  {
    hide StateCodec.Gather, StateCodec.UniqueKeys, StateCodec.SealAll;
    GatheredKeys(Records.AsSeq(Records.At(v, 4), Layouts.AsMember), StateCodec.KeyOfMember);
    GatheredKeys(Records.AsSeq(Records.At(v, 5), Layouts.AsRelationship), StateCodec.KeyOfRelationship);
    GatheredKeys(Records.AsSeq(Records.At(v, 6), Layouts.AsFailureDomain), StateCodec.KeyOfDomain);
  }

  // ----- Loading: candidate first, commit last -----

  method SetRecords(state: RackState, s: Core)
    modifies state
    ensures state.Value() == s
  {
    state.rack := s.rack;
    state.members := s.members;
    state.relationships := s.relationships;
    state.failureDomains := s.failureDomains;
    state.power := s.power;
    state.cooling := s.cooling;
    state.publishers := s.publishers;
    state.fencedBoots := s.fencedBoots;
    state.snapshots := s.snapshots;
    state.generations := s.generations;
    state.snapshotGeneration := s.snapshotGeneration;
    state.operatorPublication := s.operatorPublication;
  }

  method BuildCandidate(s: Core) returns (candidate: RackState)
    requires forall k :: k in s.members ==> s.members[k].key == k
    requires forall k :: k in s.relationships ==> s.relationships[k].key == k
    requires forall d :: d in s.failureDomains ==> s.failureDomains[d].id == d
    ensures fresh(candidate) && candidate.Value() == s && IndexesExact(candidate)
  {
    hide Agrees, DomainSound, DomainComplete, ExactBuckets, RackState.MembersIndexed, Structured;
    candidate := new RackState();
    SetRecords(candidate, s);
    candidate.RebuildIndexes();
  }

  /** Builds, checks and rewrites a candidate; nothing outside it changes. */
  method PrepareCandidate(env: Env, file: bytes, now: i64) returns (candidate: RackState?)
    ensures candidate == null <==> Loaded(env, file, now).None?
    ensures candidate != null ==>
              && fresh(candidate) && candidate.Value() == Loaded(env, file, now).value
              && candidate.Indexed() && candidate.DomainIndexComplete() && candidate.HasExactBuckets()
  {
    hide Files.Parse, StateCodec.DecodeState, Passes, Recovered, IndexesExact, RackState.Indexed,
      RackState.DomainIndexComplete, RackState.HasExactBuckets;
    var parsed := FileStreams.ParseFile(env.limits.maxPersistedBytes, file);
    if !parsed.Payload? {
      return null;
    }
    var decoded := StateStreams.DecodePayload(env.limits, env.digest, parsed.payload);
    DecodedKeys(env.limits, env.digest, parsed.payload);
    if decoded.None? {
      return null;
    }
    candidate := BuildCandidate(decoded.value);
    var passes := CheckInvariants(candidate, env.limits, now);
    if !passes {
      return null;
    }
    var next := Next(candidate.generations.coordinatorEpoch);
    if next.None? {
      return null;
    }
    ApplyRecoveryPolicy(candidate, next.value);
  }

  method CopyIndexes(state: RackState, candidate: RackState)
    requires state != candidate
    modifies state`relationshipsByMember, state`membersByKind, state`membersByFailureDomain, state`membersByPowerDomain,
             state`membersByCoolingDomain, state`membersByOwnerBoot, state`childrenByParent, state`childrenByDomain
    ensures SameIndexes(state, candidate)
  {
    state.relationshipsByMember := candidate.relationshipsByMember;
    state.membersByKind := candidate.membersByKind;
    state.membersByFailureDomain := candidate.membersByFailureDomain;
    state.membersByPowerDomain := candidate.membersByPowerDomain;
    state.membersByCoolingDomain := candidate.membersByCoolingDomain;
    state.membersByOwnerBoot := candidate.membersByOwnerBoot;
    state.childrenByParent := candidate.childrenByParent;
    state.childrenByDomain := candidate.childrenByDomain;
  }

  lemma SameIndexed(a: RackState, b: RackState)
    requires b.Indexed() && b.DomainIndexComplete() && b.HasExactBuckets() && SameIndexes(a, b)
    requires a.members == b.members && a.relationships == b.relationships && a.failureDomains == b.failureDomains
    ensures a.Indexed() && a.DomainIndexComplete() && a.HasExactBuckets()
  {
    hide Agrees, DomainSound, DomainComplete, ExactBuckets;
  }

  /** Replaces the state by the candidate, records and indexes. */
  method Commit(state: RackState, candidate: RackState)
    requires candidate.Indexed() && candidate.DomainIndexComplete() && candidate.HasExactBuckets() && state != candidate
    modifies state
    ensures state.Value() == candidate.Value() && state.Indexed() && state.DomainIndexComplete() && state.HasExactBuckets()
  {
    hide RackState.Indexed, RackState.DomainIndexComplete, RackState.HasExactBuckets, SameIndexes;
    SetRecords(state, candidate.Value());
    CopyIndexes(state, candidate);
    SameIndexed(state, candidate);
  }

  /** A load that fails leaves the state alone; one that succeeds commits exactly what the file yields. */
  method LoadState(fabric: RackFabric, file: bytes, now: i64) returns (ok: bool)
    modifies fabric.state
    ensures ok <==> Loaded(fabric.env, file, now).Some?
    ensures !ok ==> unchanged(fabric.state)
    ensures ok ==>
              && fabric.state.Value() == Loaded(fabric.env, file, now).value
              && fabric.state.Indexed() && fabric.state.DomainIndexComplete() && fabric.state.HasExactBuckets()
  {
    hide Loaded, RackState.Indexed, RackState.DomainIndexComplete, RackState.HasExactBuckets;
    var candidate := PrepareCandidate(fabric.env, file, now);
    if candidate == null {
      return false;
    }
    Commit(fabric.state, candidate);
    ok := true;
  }

  // ----- Saving -----

  /** The file a state is saved as. */
  ghost function SavedFile(env: Env, s: Core): bytes {
    Files.Framed(StateCodec.StatePayload(env.limits, s))
  }

  /** What saving leaves in the file, or nothing when the state or its payload is over a limit. */
  method SaveState(fabric: RackFabric, maxBytes: nat) returns (file: Option<bytes>)
    requires fabric.env.limits.maxStringBytes <= Codec.U32_MAX && Shapes.TypedState(fabric.state.Value())
    ensures var l, s := fabric.env.limits, fabric.state.Value();
            var n := |StateCodec.StatePayload(l, s)|;
            file == if StateStreams.Savable(l, s) && n <= maxBytes && n <= l.maxPersistedBytes
                    then Some(SavedFile(fabric.env, s)) else None
  {
    hide StateStreams.Savable, StateCodec.StatePayload, Files.Framed, Shapes.TypedState, StateStreams.CheckedBytes;
    var l := fabric.env.limits;
    StateStreams.CheckedBytesWithin(l, fabric.state.Value());
    var payload := StateStreams.EncodeState(l, fabric.state.Value());
    var bound := if maxBytes < l.maxPersistedBytes then maxBytes else l.maxPersistedBytes;
    if payload.None? || |payload.value| > bound {
      return None;
    }
    var framed := FileStreams.FrameFile(payload.value);
    assert framed[..] == SavedFile(fabric.env, fabric.state.Value());
    file := Some(framed[..]);
  }

  // ----- Load after save -----

  /** A state whose file can be read back as the very same state. */
  ghost predicate Restorable(env: Env, s: Core, now: i64) {
    && env.limits.maxStringBytes <= Codec.U32_MAX && env.limits.maxPersistedBytes < Files.U64_BOUND
    && Shapes.TypedState(s) && StateCodec.Keyed(s) && StateCodec.SnapshotsSealed(env.digest, s)
    && StateStreams.Savable(env.limits, s) && StateStreams.SaneState(env.limits, s)
    && |s.publishers| <= StateCodec.ReadablePublishers(env.limits)
    && |StateCodec.StatePayload(env.limits, s)| + Files.HEADER_BYTES + Files.TRAILER_BYTES
       <= env.limits.maxPersistedBytes
    && Passes(s, env.limits, now) && s.generations.coordinatorEpoch < U64_MAX
  }

  /** Loading a saved state yields its recovery rewrite, under the next epoch. */
  lemma LoadAfterSave(env: Env, s: Core, now: i64)
    requires Restorable(env, s, now)
    ensures Loaded(env, SavedFile(env, s), now)
         == Some(Recovered(s, s.generations.coordinatorEpoch + 1))
  {
    hide Shapes.TypedState, StateCodec.Keyed, StateCodec.SnapshotsSealed, StateStreams.Savable, StateStreams.SaneState,
      StateCodec.ReadablePublishers, StateCodec.StatePayload, StateCodec.DecodeState, Files.Framed, Files.Parse, Passes,
      Recovered;
    Files.FramedParses(env.limits.maxPersistedBytes, StateCodec.StatePayload(env.limits, s));
    StateStreams.SavedStateReturns(env.limits, env.digest, s);
  }

  lemma NextEpoch(env: Env, s: Core, now: i64)
    requires Restorable(env, s, now)
    ensures s.generations.coordinatorEpoch < U64_MAX
  {
  }

  /** An incarnation: some run of a state, saved at its end and loaded again. */
  datatype Incarnation = Incarnation(run: seq<Timed>, now: i64)

  /** The state an incarnation starts from. */
  ghost function StartOf(env: Env, s: Core, lives: seq<Incarnation>, n: nat): Option<Core>
    requires n <= |lives|
  {
    hide Reload;
    if n == 0 then Some(s)
    else
      match StartOf(env, s, lives, n - 1)
      case None => None
      case Some(t) => Reload(env, t, lives[n - 1])
  }

  ghost function Reload(env: Env, s: Core, life: Incarnation): Option<Core> {
    hide Loaded, SavedFile;
    Loaded(env, SavedFile(env, At(env, s, life.run, |life.run|)), life.now)
  }

  ghost predicate AllRestorable(env: Env, s: Core, lives: seq<Incarnation>) {
    hide Reload, Restorable;
    forall i :: 0 <= i < |lives| ==>
      var t := StartOf(env, s, lives, i);
      t.Some? ==> Restorable(env, At(env, t.value, lives[i].run, |lives[i].run|), lives[i].now)
  }

  /** Along save-then-load chains, whatever happens in between, every incarnation has the next coordinator epoch. */
  lemma {:induction false} EpochsGrow(env: Env, s: Core, lives: seq<Incarnation>, n: nat)
    requires Runs.Regular(s) && AllRestorable(env, s, lives) && n <= |lives|
    ensures StartOf(env, s, lives, n).Some?
    ensures Runs.Regular(StartOf(env, s, lives, n).value)
    ensures StartOf(env, s, lives, n).value.generations.coordinatorEpoch == s.generations.coordinatorEpoch + n
  {
    hide Runs.Regular, Restorable, Reload, Apply;
    if n > 0 {
      EpochsGrow(env, s, lives, n - 1);
      var t := StartOf(env, s, lives, n - 1).value;
      var life := lives[n - 1];
      OneLife(env, t, life);
    }
  }

  lemma OneLife(env: Env, s: Core, life: Incarnation)
    requires Runs.Regular(s) && Restorable(env, At(env, s, life.run, |life.run|), life.now)
    ensures var t := Reload(env, s, life);
            t.Some? && Runs.Regular(t.value) && t.value.generations.coordinatorEpoch == s.generations.coordinatorEpoch + 1
  {
    hide Runs.Regular, Restorable, Loaded, Recovered, SavedFile, Apply, Facts.MembersGrow, Facts.PublishersGrow,
      Facts.RackGrows;
    var u := At(env, s, life.run, |life.run|);
    Runs.RunIsRegular(env, s, life.run, |life.run|);
    Runs.RunGrows(env, s, life.run, 0, |life.run|);
    LoadAfterSave(env, u, life.now);
    NextEpoch(env, u, life.now);
    RecoveredIsRegular(u, u.generations.coordinatorEpoch + 1);
  }

  lemma RecoveredIsRegular(s: Core, epoch: u64)
    requires Runs.Regular(s)
    ensures Runs.Regular(Recovered(s, epoch)) && Recovered(s, epoch).generations.coordinatorEpoch == epoch
  {
    RecoveryKeepsStructure(s, epoch);
    hide Structured, RecoveredMember, RecoveredRelationship, RecoveredDomain, RecoveredPower, RecoveredCooling,
      RecoveredPublisher;
  }

  /** Once an incarnation has started, no token of an earlier one is accepted, however long it runs. */
  lemma EarlierTokensStayRefused(env: Env, s: Core, run: seq<Timed>, n: nat, token: AuthorityToken, rackScoped: bool)
    requires Runs.Regular(s) && n <= |run| && token.coordinatorEpoch < s.generations.coordinatorEpoch
    ensures CheckAuthority(At(env, s, run, n), token, rackScoped) == Denied(RejectStaleCoordinatorEpoch)
  {
    hide Runs.Regular, Apply, Facts.MembersGrow, Facts.PublishersGrow, Facts.RackGrows;
    Runs.RunGrows(env, s, run, 0, n);
  }

  /** No boot known before a recovery is accepted at any point of any run after it. */
  lemma OldBootsStayRefused(env: Env, s: Core, epoch: u64, run: seq<Timed>, n: nat, boot: Text)
    requires Runs.Regular(s) && n < |run| && Facts.Presents(run[n].event) == Some(boot)
    requires boot in s.publishers || boot in s.fencedBoots
    ensures !StepAt(env, Recovered(s, epoch), run, n).outcome.Accepted?
  {
    hide Runs.Regular, Apply, Facts.Presents, RecoveredMember, RecoveredRelationship, RecoveredDomain, RecoveredPower,
      RecoveredCooling;
    if boot in s.publishers {
      OutIsNeverAccepted(env, Recovered(s, epoch), run, n, boot);
    } else {
      RecoveredIsRegular(s, epoch);
      Runs.FencedIsNeverAccepted(env, Recovered(s, epoch), run, 0, n, boot);
    }
  }

  /** No snapshot bound to an earlier epoch validates as current at any point of any run after a recovery. */
  lemma OldSnapshotsStayStale(env: Env, s: Core, epoch: u64, run: seq<Timed>, n: nat, snapshot: RackSnapshot)
    requires Runs.Regular(s) && n <= |run| && snapshot.generations.coordinatorEpoch < epoch
    ensures !ValidateSnapshot(env, At(env, Recovered(s, epoch), run, n), snapshot).Current?
  {
    hide Runs.Regular, Apply, Recovered, Facts.MembersGrow, Facts.PublishersGrow, Facts.RackGrows;
    RecoveredIsRegular(s, epoch);
    Runs.RunGrows(env, Recovered(s, epoch), run, 0, n);
  }

  // ----- Every saved run -----

  /** The writer accepts the state. */
  ghost predicate Portable(env: Env, s: Core) {
    && env.limits.maxStringBytes <= Codec.U32_MAX && env.limits.maxPersistedBytes < Files.U64_BOUND
    && Shapes.TypedState(s) && StateStreams.Savable(env.limits, s)
  }

  /**
   * What a file needs to be loaded again: it is within the file limit, all lifetimes, identities and enumerators in it
   * are valid, no failure domain is reached in two ways, and the epoch can advance.
   */
  ghost predicate Loadable(env: Env, s: Core)
    requires Portable(env, s)
  {
    && |StateCodec.StatePayload(env.limits, s)| + Files.HEADER_BYTES + Files.TRAILER_BYTES <= env.limits.maxPersistedBytes
    && StateStreams.SaneState(env.limits, s)
    && SinglePaths(DomainGraph(s.failureDomains))
    && s.generations.coordinatorEpoch < U64_MAX
  }

  /** Under a further condition the file of the state loads as its recovery rewrite; otherwise it is refused. */
  ghost predicate LoadsExactlyIf(env: Env, s: Core, now: i64, condition: bool)
    requires Portable(env, s)
  {
    Loaded(env, SavedFile(env, s), now)
    == if Loadable(env, s) && condition then Some(Recovered(s, s.generations.coordinatorEpoch + 1)) else None
  }

  /** What holds of the initial state and of every state a load commits. */
  ghost predicate Startable(env: Env, s: Core) {
    Runs.Regular(s) && Consistent(s, env) && NoneFencedAndLive(s) && Shapes.TypedState(s)
  }

  /**
   * Whatever a coordinator was asked, the state it saves loads again as its recovery rewrite exactly when the file is
   * loadable and no process that retired the rack was left with authority; otherwise the load refuses it.
   */
  lemma SavedRunLoadsIff(env: Env, start: Core, run: seq<Timed>, n: nat, now: i64)
    requires Startable(env, start) && n <= |run|
    requires Portable(env, At(env, start, run, n))
    ensures LoadsExactlyIf(env, At(env, start, run, n), now, NobodyLeft(env, start, run, n))
  {
    hide Runs.Regular, Consistent, Portable, LoadsExactlyIf, Apply, NobodyLeft, NoneFencedAndLive;
    RunKeepsConsistency(env, start, run, n);
    NobodyLeftIff(env, start, run, n);
    ConsistentLoadsExactly(env, At(env, start, run, n), now);
  }

  /**
   * When moreover no accepted request carried a lifetime or an identity that nobody looked at and a reader refuses, the
   * size of the file, the domain paths, the retired rack and the epoch are all that can stand in the way of loading.
   */
  lemma SaneRunIsSane(env: Env, start: Core, run: seq<Timed>, n: nat)
    requires Startable(env, start) && StateStreams.SaneState(env.limits, start) && n <= |run|
    requires RunCarriesTyped(run) && RunCarriesSane(env, start, run, n)
    ensures Shapes.TypedState(At(env, start, run, n)) && StateStreams.SaneState(env.limits, At(env, start, run, n))
  {
    hide Runs.Regular, Consistent, Apply, NoneFencedAndLive, Fine, StateStreams.SaneState, Shapes.TypedState,
      RunCarriesTyped, RunCarriesSane;
    FineMeans(env.limits, start);
    RunStaysSane(env, start, run, n, true);
    FineMeans(env.limits, At(env, start, run, n));
  }

  /** No accepted request of the run gave a domain parents that merge. */
  ghost predicate NeverMerges(env: Env, s: Core, run: seq<Timed>, n: nat)
    requires n <= |run|
  {
    forall i :: 0 <= i < n ==> !(StepAt(env, s, run, i).outcome.Accepted? && MakesDiamond(At(env, s, run, i), run[i].event))
  }

  /** The file is within the limit of a load. */
  ghost predicate FileFits(env: Env, s: Core) {
    |StateCodec.StatePayload(env.limits, s)| + Files.HEADER_BYTES + Files.TRAILER_BYTES <= env.limits.maxPersistedBytes
  }

  /**
   * A fresh coordinator none of whose accepted requests made a diamond, carried an unchecked lifetime or identity that a
   * reader refuses, or left a process in authority that retired the rack, saves what loads again exactly when its file fits.
   */
  lemma FreshRunLoadsIff(env: Env, run: seq<Timed>, now: i64)
    requires RunCarriesTyped(run) && RunCarriesSane(env, INITIAL, run, |run|)
    requires NeverMerges(env, INITIAL, run, |run|) && NobodyLeft(env, INITIAL, run, |run|)
    requires Portable(env, At(env, INITIAL, run, |run|))
    ensures var s := At(env, INITIAL, run, |run|);
            Loaded(env, SavedFile(env, s), now) == if FileFits(env, s) then Some(Recovered(s, 2)) else None
  {
    hide Apply, RunCarriesTyped, RunCarriesSane, NobodyLeft, Portable, FileFits, Recovered, Loaded, SavedFile,
      Startable, StateStreams.SaneState, SinglePaths, Fine, Runs.Regular, Shapes.TypedState, Facts.MembersGrow,
      Facts.PublishersGrow, Facts.RackGrows;
    InitialIsStartable(env);
    InitialIsFine(true);
    FineMeans(env.limits, INITIAL);
    InitialHasSinglePaths();
    Runs.InitialIsRegular();
    SaneRunIsSane(env, INITIAL, run, |run|);
    RunKeepsSinglePaths(env, INITIAL, run, |run|);
    Runs.RunGrows(env, INITIAL, run, 0, |run|);
    SavedRunLoadsIff(env, INITIAL, run, |run|, now);
    LoadableIff(env, At(env, INITIAL, run, |run|));
  }

  lemma LoadableIff(env: Env, s: Core)
    requires Portable(env, s) && StateStreams.SaneState(env.limits, s) && SinglePaths(DomainGraph(s.failureDomains))
    requires s.generations.coordinatorEpoch < U64_MAX
    ensures Loadable(env, s) <==> FileFits(env, s)
  {
    hide StateStreams.SaneState, SinglePaths, StateCodec.StatePayload;
  }

  lemma ConsistentLoadsExactly(env: Env, s: Core, now: i64)
    requires Runs.Regular(s) && Consistent(s, env) && Portable(env, s)
    ensures LoadsExactlyIf(env, s, now, NoneFencedAndLive(s))
  {
    hide Runs.Regular, Consistent, Shapes.TypedState, StateStreams.Savable, StateStreams.SaneState, Passes, Recovered,
      SinglePaths, StateCodec.StatePayload, StateCodec.DecodeState, Files.Parse, Files.Framed, StateCodec.Keyed,
      StateCodec.SnapshotsSealed, StateCodec.ReadablePublishers, NoneFencedAndLive;
    var payload, max := StateCodec.StatePayload(env.limits, s), env.limits.maxPersistedBytes;
    ConsistentPasses(s, env, now);
    ConsistentIsKeyed(env, s);
    Files.SavedWithinTheLastBytesIsRefused(max, payload);
    StateStreams.SavedStateReturns(env.limits, env.digest, s);
    if |payload| + Files.HEADER_BYTES + Files.TRAILER_BYTES <= max {
      Files.FramedParses(max, payload);
    }
  }

  lemma ConsistentIsKeyed(env: Env, s: Core)
    requires Runs.Regular(s) && Consistent(s, env)
    requires Shapes.TypedState(s) && StateStreams.Savable(env.limits, s)
    ensures StateCodec.Keyed(s) && StateCodec.SnapshotsSealed(env.digest, s)
    ensures |s.publishers| <= StateCodec.ReadablePublishers(env.limits)
  {
    hide Shapes.TypedState, StateStreams.Savable, Acyclic;
    StateStreams.SavablePublishers(env.limits, s);
    ConsistentParts(s, env);
  }

  /** Recovery keeps a state consistent, so the next incarnation starts as well as the first one. */
  lemma RecoveryKeepsConsistency(env: Env, s: Core, epoch: u64)
    requires Consistent(s, env)
    ensures Consistent(Recovered(s, epoch), env)
  {
    hide RecoveredPower, RecoveredCooling, RecoveredMember, MemberOk, PowerOk, CoolingOk, NoRepeats;
    var t := Recovered(s, epoch);
    assert t.members.Keys == s.members.Keys;
    assert |t.members| == |t.members.Keys| == |s.members.Keys|;
    assert t.publishers.Keys == s.publishers.Keys;
    assert |t.publishers| == |t.publishers.Keys| == |s.publishers.Keys|;
    forall k | k in s.members && MemberOk(s.members[k], env.limits) {
      RecoveredMemberOk(s.members[k], env.limits);
    }
    if s.power.Some? {
      RecoveredPowerOk(s.power.value, s.generations.power);
    }
    if s.cooling.Some? {
      RecoveredCoolingOk(s.cooling.value, s.generations.cooling);
    }
  }

  lemma RecoveryLeavesNobody(s: Core, epoch: u64)
    ensures NoneFencedAndLive(Recovered(s, epoch))
  {
    hide RecoveredPower, RecoveredCooling, RecoveredMember;
  }

  lemma RecoveryKeepsTypes(s: Core, epoch: u64)
    requires Shapes.TypedState(s)
    ensures Shapes.TypedState(Recovered(s, epoch))
  {
    hide RecoveredPower, RecoveredCooling, Shapes.TypedDetails, Kept, DemotedCapability, RecoveredStamp;
  }

  /** Every state a load commits starts the next run as the initial state starts the first one. */
  lemma RecoveredIsStartable(env: Env, s: Core, epoch: u64)
    requires Runs.Regular(s) && Consistent(s, env) && Shapes.TypedState(s)
    ensures Startable(env, Recovered(s, epoch))
  {
    hide Runs.Regular, Consistent, Shapes.TypedState, NoneFencedAndLive, Recovered;
    RecoveredIsRegular(s, epoch);
    RecoveryKeepsConsistency(env, s, epoch);
    RecoveryLeavesNobody(s, epoch);
    RecoveryKeepsTypes(s, epoch);
  }

  lemma InitialIsStartable(env: Env)
    ensures Startable(env, INITIAL)
  {
    Runs.InitialIsRegular();
    InitialIsConsistent(env);
  }

  lemma RecoveredMemberOk(r: MemberRecord, limits: Limits)
    requires MemberOk(r, limits)
    ensures MemberOk(RecoveredMember(r), limits) && RecoveredMember(r).lifecycle == r.lifecycle
  {
  }

  lemma RecoveredPowerOk(p: PowerEnvelope, g: u64)
    requires PowerOk(p, g)
    ensures PowerOk(RecoveredPower(p), g)
  {
  }

  lemma RecoveredCoolingOk(c: CoolingEnvelope, g: u64)
    requires CoolingOk(c, g)
    ensures CoolingOk(RecoveredCooling(c), g)
  {
  }

  // ----- States that save but do not load -----

  /** A state with a failure-domain diamond saves, and is refused when it is loaded. */
  lemma DiamondIsNotLoaded(
    env: Env, s: Core, payload: bytes, now: i64, top: Text, left: Text, right: Text, base: Text)
    requires StateCodec.DecodeState(env.limits, env.digest, payload) == Some(s)
    requires {top, left, right, base} <= s.failureDomains.Keys && left != right
    requires left in s.failureDomains[base].parents && right in s.failureDomains[base].parents
    requires top in s.failureDomains[left].parents && top in s.failureDomains[right].parents
    requires env.limits.maxPersistedBytes < Files.U64_BOUND
    ensures Loaded(env, Files.Framed(payload), now).None?
  {
    hide StateCodec.DecodeState, Passes, Files.Parse, Files.Framed, Recovered;
    DiamondFails(s, env.limits, now, top, left, right, base);
    var parsed := Files.Parse(env.limits.maxPersistedBytes, Files.Framed(payload));
    if parsed.Payload? {
      Files.ParsedIsFramed(env.limits.maxPersistedBytes, Files.Framed(payload), parsed.payload);
      FramedIsInjective(payload, parsed.payload);
    }
  }

  lemma FramedIsInjective(p: bytes, q: bytes)
    requires Files.Framed(p) == Files.Framed(q)
    ensures p == q
  {
    Files.FramedParts(p);
    Files.FramedParts(q);
    hide Files.Framed, Files.Body;
    assert Files.Framed(p)[72..72 + |p|] == p;
  }
}
