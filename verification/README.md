# Rack Fabric: a verified model of the coordinator, its codec and its persisted state

Rack Fabric is a coordinator that owns the authoritative description of one rack: members, relationships, failure
domains, power and cooling envelopes, the processes that may publish them, the boots that are fenced, and the snapshots
taken so far. This project models three linked cores of it and proves what they promise.

**The state machine.** `Machine.dfy` gives every mutation as a step on values, `Core` to `Core` with an outcome. `State.dfy`
and `Fabric.dfy` give the same mutations as the program runs them: a class with mutable maps and eight derived indexes,
updated in place, whose searches read the indexes. Each method is proved equal to its step, so whatever is proved of
steps and runs holds of the coordinator: `Progress` and `Structure` say what every step keeps, `Runs`, `Fences` and
`Buckets` what holds over runs, `Lifecycles`, `Unions`, `Diamonds` and `Acceptance` exactly which requests break what the
others keep, `Consistency` and `LiveCheck` what the invariant check finds along runs. `Graph.dfy` holds reachability and
acyclicity of finite graphs, and the loop rules of the searches; `Scans.dfy`, `Invariants.dfy` and `Damage.dfy` the
invariant check; `RackReadiness.dfy` and `Evaluation.dfy` readiness, lifecycle and snapshots.

What each request answers and does is stated apart from the functions that compute it. `Refusals` gives the outcome of
every request in every state: refused only for a cause, idle exactly when there is nothing to do, accepted otherwise.
`Effects`, `Contents`, `Envelopes`, `Processes` and `Declarations` say what an accepted request stores and everything it
leaves alone, `Leases` what it costs and how long a heartbeat protects, `Ownership` who can change what, and `Verdicts`
what readiness and the lifecycle say about the records.

**The codec and the file.** `Codec.dfy` defines encoding and decoding for all layouts made of fixed-width integers,
bounded strings, strict flags, tagged alternatives and counted lists, and proves once that they are two-sided inverses.
`Streams.dfy` has the bounded writer and the absorbing reader as classes that refine it. `Records.dfy` and `Layouts.dfy`
give the layout of every record, field by field in the order of the program, `StateCodec.dfy` and `StateStreams.dfy` the
whole state; `Sanity.dfy` says record by record what a reader asks and a writer does not, `Duplicates.dfy` what becomes
of records under one key, `Canonicity.dfy` which payloads are the one encoding of their state. `Files.dfy` and
`FileStreams.dfy` are the persisted file, `Frames.dfy` the wire frame, `Recovery.dfy` and `Persistence.dfy` the recovery
rewrite and the load that commits it, `Survival.dfy` what comes back from a restart.

**The integrity primitives.** `Crc32c.dfy` (section 12.1 of RFC 3720) and `Sha256.dfy` (sections 5.1.1 and 6.2.2 of
FIPS 180-4): a table loop and a streaming hasher against bit-at-a-time division and the one-shot definition.
`KnownAnswers.dfy` and `DigestExample.dfy` prove where their constants come from and one published answer of each.

`Synthetic.dfy` models the loop that publishes failure domains parents first.

## Where the code does less than it says

The model follows the code; for each of these an exact condition is proved, for all states, runs or inputs.

- Parent edges and CONTAINS edges are each kept acyclic, their union is not: an accepted publication closes a cycle in it
  exactly when the new parent (or container) already reaches the member by edges of both kinds
  (`Unions.StepKeepsUnionIff`), and such publications are accepted (`Unions.MemberMayCloseUnion`,
  `Unions.ContainmentMayCloseUnion`).
- The invariant check flags acyclic diamonds of failure domains: its scan passes exactly when no domain lists a parent
  twice and no domain reaches another in two ways (`Scans.DomainsScanClean`). Which publications bring a second path about
  is `Diamonds.StepKeepsSinglePathsIff`; they are accepted (`Diamonds.DiamondCanBeMade`). The check never follows CONTAINS
  relationships, so a mutual containment passes (`Invariants.MutualContainmentPasses`), and never compares a relationship
  with the key it sits under.
- Publishing a known domain again drops its member bucket, and publishing a member again can take the last name of a
  known domain away (`LiveCheck.BucketCanBeDropped`, `LiveCheck.LastNameCanGo`). A member is missing from a dropped bucket
  until a request changes it, and a bucket that went with its last name until its domain is named or published again; the
  check that a running coordinator makes of itself passes exactly when, besides what the check of loaded records asks,
  nothing of the kind is pending (`LiveCheck.RunAndCheck`). What is loaded from a file passes at once
  (`LiveCheck.LoadAndCheck`).
- A process that retires the rack stays in authority although it is fenced. Along runs a boot is fenced and in authority
  exactly when an accepted retirement of the rack presented it and nothing took its authority since (`Fences.LiveIff`); any
  process in authority can bring that about (`Fences.ProcessCanStayLive`). Such a state saves, but is refused when it is
  loaded (`Consistency.RetirementPassesIff`, `Consistency.ProcessCanBlock`).
- Details, budgets of power domains, observations without evidence, links and carried owners are stored without a look at
  their lifetimes and identities, which a reader of the saved state refuses. From a state that could be read back, a
  request leads to one that cannot exactly when it is accepted and carries one of these (`Acceptance.StepStaysSaneIff`);
  a memory domain with a bandwidth that lives for -1 ms is accepted (`Acceptance.ExpiredBandwidthIsStored`).
- What a run saves loads again exactly when the file is within the file limit, everything in it can be read back, domain
  paths are single, no process that retired the rack was left in authority, and the epoch can advance
  (`Persistence.SavedRunLoadsIff`); for a fresh coordinator that was asked nothing of the above, exactly when the file is
  within its limit (`Persistence.FreshRunLoadsIff`).
- Saving bounds the payload, loading bounds the whole file by the same number: payloads within 80 bytes of the bound
  save and never load (`Files.SavedWithinTheLastBytesIsRefused`). Single bytes are written without a look at the bound, so
  the encoder itself may pass it (`StateStreams.EncodeState`); the saver compares the size again (`Persistence.SaveState`).
- A revalidation that meets a missing, foreign or exhausted target after a due one is refused, yet keeps what it changed
  and moves no generation (`Runs.PartialRevalidationIff`, `Runs.MidwayIsEasy`). A published snapshot that still validates as
  current is exact exactly when no such request was made since (`Runs.CurrentSnapshotIsExact`).
- Withdrawing all evidence takes a member out of retirement (`Lifecycles.RetiredCanReturn`); no other request does
  (`Lifecycles.StepUnretiresIff`).
- The documentation says that a process may not steal the record of another. Members, relationships and failure domains
  are protected (`Ownership.MembersAreIsolated`, `Ownership.RelationshipsAreIsolated`, `Ownership.DomainsAreIsolated`);
  the two envelopes are not (`Ownership.EnvelopesChangeHands`), and retiring a member asks for no owner
  (`Ownership.AnyoneCanRetire`).
- It says that the rack epoch, the worker and the lease are validated with every mutation. A token carries neither of the
  first two, and authority never looks at the lease (`Leases.LeaseIsNotAsked`): a process whose lease has lapsed keeps its
  authority until an expiry fences it (`Refusals.GrantedIff`, `Processes.ExpiryIsExact`).
- It says that fencing marks every record of the process. All its members are marked, but of its relationships, domains
  and envelopes only the ephemeral ones (`Processes.FencingIsExact`).
- It says that recovery flags durable declarations as reconstructed. Their provenance is left as it was, and a durable
  record without an owner comes back exactly as fresh as it went (`Survival.RecoveryIsExact`, `Survival.FreshAfterRestart`).
- Derived headroom is stamped with the later observation and the shorter lifetime of its inputs, so it can be fresh when
  an input is not, exactly between the end of that input and its own (`Envelopes.HeadroomOutlivesIff`,
  `Envelopes.HeadroomCanOutlive`), and it counts as physical whatever it was derived from.
- The state encoding is not canonical: an accepted payload is the encoding of its state exactly when its first byte is 0
  or 1 and every keyed list strictly ascends (`Canonicity.PayloadIsCanonicalIff`, `Canonicity.OtherFlagsAreAccepted`). A
  reader takes fewer publishers than a writer writes (`StateStreams.SavedIsReadable`); along runs that difference never
  matters, since registration bounds the publishers (`Persistence.ConsistentIsKeyed`).

## Model

| member | source | states |
|---|---|---|
| `Evidence.FreshnessOnlyFades` | include/rack_fabric/evidence.hpp:155-180 | evidence observed by time t that is fresh later was fresh at t |
| `Evidence.FreshnessWindow` | include/rack_fabric/evidence.hpp:155-180 | unmarked evidence with a lifetime is fresh exactly from its observation until the lifetime is over, a durable declaration without one always, and nothing else ever; what is stale is told from what is unknown |
| `Evidence.Next` | include/rack_fabric/generation.hpp:48-54 | a counter advances by exactly one, or not at all at its maximum; it never wraps |
| `RackReadiness.TimeNeverMakesReady` | src/core/state.cpp:472-581 | when nothing was observed after t, a contract satisfied later was satisfied at t |
| `RackReadiness.ClockNeverEntersReady` | src/core/state.cpp:583-631 | the clock alone takes a rack out of Ready or Degraded, never into them |
| `RackReadiness.SyntheticIsNeverReady` | src/core/state.cpp:25-37 | under a contract that wants physical provenance and a node, a rack of synthetic evidence is never Ready or Degraded |
| `Verdicts.ContractMeans` | src/core/state.cpp:472-581 | the contract is satisfied exactly when there are that many present nodes and accelerators with fresh (and physical) evidence, that many domains above such nodes, and what each flag asks for |
| `Verdicts.DeficitsMean` | src/core/state.cpp:472-581 | what each of the fourteen reported deficits says of the records; without a live rack there is exactly one |
| `Verdicts.LifecycleMeans` | src/core/state.cpp:583-631 | each lifecycle as a condition on the records: ready exactly when live, nothing awaits assertion, the contract is satisfied and no member is unavailable or freshly unwell or not ready; likewise the seven others |
| `Verdicts.UnavailableAwaits` | src/core/rack_fabric.cpp:1621-1676 | after a member was marked unavailable the rack must be revalidated, under every contract, at any time |
| `Verdicts.HealthDecides` | src/core/rack_fabric.cpp:1322-1404 | a fresh health report makes a ready or degraded rack degraded exactly when it or another member says so, and ready otherwise |
| `Verdicts.BadNewsUnreadies` | src/core/rack_fabric.cpp:1322-1404 | after a fresh report that a current member is not well or not ready, no rack is ready at that time |
| `Verdicts.PublishedCounts` | src/core/rack_fabric.cpp:645-865 | a member published as present counts for the contract exactly within the window of its evidence |
| `Verdicts.PublishedCountsOn` | src/core/rack_fabric.cpp:645-865 | and does so at every later point of a run until a request that may change it |
| `Evaluation.EvaluateReadiness` | src/core/state.cpp:472-581 | the counting loops list exactly the violated clauses; no deficit means the contract is satisfied |
| `Evaluation.DeriveLifecycle` | src/core/state.cpp:583-631 | the computed lifecycle is the one the records, the contract and the time determine |
| `Evaluation.TakeSnapshot` | src/core/state.cpp:696-724 | a snapshot holds all records in key order, the bound generations, and the digest of both |
| `Graph.RewiredCyclicIff` | src/core/rack_fabric.cpp:764-785 | in an acyclic graph, new edges out of a node close a cycle exactly when one of their targets already reaches it |
| `Structure.ParentEdgeCyclicIff` | src/core/state.cpp:372-392 | a parent edge keeps the member forest acyclic exactly when the parent does not already reach the child |
| `Structure.ContainsEdgeCyclicIff` | src/core/state.cpp:394-421 | a CONTAINS relationship keeps its graph acyclic exactly when the container is not already inside what it contains |
| `Structure.DomainEdgesCyclicIff` | src/core/state.cpp:423-447 | a set of parent edges keeps the failure-domain graph acyclic exactly when no parent reaches the domain |
| `Structure.StepKeepsStructure` | src/core/rack_fabric.cpp:645-2043 | every mutation keeps all endpoints existing and the parent, CONTAINS and failure-domain graphs acyclic |
| `Structure.RunKeepsStructure` | src/core/rack_fabric.cpp:645-2043 | so does every run |
| `State.RackState.IndexAddMember` | src/core/state.cpp:203-220 | indexing a member makes five indexes describe the members with it, and lists it under its domains |
| `State.RackState.IndexRemoveMember` | src/core/state.cpp:222-249 | removing a member makes them describe the members without it, empty buckets gone |
| `State.RackState.PutMember` | src/core/state.cpp:203-249 | replacing a member with its entries keeps every index in agreement with the records; exact member buckets stay exact exactly when every known domain the old record names is still named |
| `State.ReplacedBuckets` | src/core/state.cpp:203-249 | which buckets exist after a replacement, against those of a rebuild |
| `State.PutShifts` | src/core/state.cpp:203-249 | a replacement lists the member anew under all it names, leaves the others where they were, and takes the buckets of domains that lost their last name |
| `State.PublicationShifts` | src/core/state.cpp:273-292 | a publication drops the bucket of a known domain and gives it an empty one |
| `State.RackState.PutFailureDomain` | src/core/state.cpp:273-292 | after publishing a domain the member buckets are complete, and exact, exactly when it is new or no member names it |
| `State.RackState.RebuildIndexes` | src/core/state.cpp:179-201 | a rebuild yields indexes that agree with the records, relationships under the keys they carry, and exact buckets |
| `Indexes.AgreementIsUnique` | src/core/state.cpp:179-292 | two indexes that agree with the same records are equal |
| `Fabric.IndexesAreDetermined` | src/core/state.cpp:179-292 | maintained and rebuilt indexes of the same records: seven are equal, the eighth agrees on every lookup while both are complete |
| `State.RackState.ContainsCycle` | src/core/state.cpp:372-392 | the climb ends on any records, and on acyclic ones finds exactly whether the parent reaches the child |
| `State.RackState.RelationshipContainsCycle` | src/core/state.cpp:394-421 | the search through the index finds exactly whether the container is inside the contained member |
| `State.RackState.DomainContainsCycle` | src/core/state.cpp:423-447 | the search finds exactly whether the parent domain reaches the child domain |
| `State.RackState.FailureDomainsOf` | src/core/state.cpp:294-317 | climbing the records yields the exact closure of the member's domains, ascending |
| `State.RackState.MembersInFailureDomain` | src/core/state.cpp:319-353 | descending the indexes yields only members that belong to the domain, and with complete buckets all of them, ascending |
| `State.AffectedAreListed` | src/core/state.cpp:319-349 | descending from a domain and climbing from each member find the same members |
| `State.RackState.SharesFailureDomain` | src/core/state.cpp:355-370 | true exactly when the two closures intersect |
| `State.BinarySearch` | src/core/state.cpp:364-368 | a binary search of an ascending sequence finds exactly its elements |
| `Fabric.RackFabric.RegisterPublisher` | src/core/rack_fabric.cpp:472-552 | registration as its step; valid records and indexes stay valid |
| `Fabric.RackFabric.DeclareRack` | src/core/rack_fabric.cpp:554-643 | declaration and redeclaration as their step |
| `Fabric.RackFabric.PublishMember` | src/core/rack_fabric.cpp:645-865 | publication with its searches and index updates as its step; exact member buckets are lost exactly when it is accepted and a known domain loses its last name |
| `Fabric.RackFabric.PublishRelationship` | src/core/rack_fabric.cpp:867-984 | publication of a relationship as its step |
| `Fabric.RackFabric.PublishFailureDomain` | src/core/rack_fabric.cpp:986-1113 | publication of a domain as its step, and exactly when the member buckets stay complete and exact |
| `Fabric.RackFabric.PublishPower` | src/core/rack_fabric.cpp:1115-1204 | a power envelope with derived headroom as its step |
| `Fabric.RackFabric.PublishCooling` | src/core/rack_fabric.cpp:1206-1320 | a cooling envelope with sorted zones as its step |
| `Fabric.RackFabric.PublishHealth` | src/core/rack_fabric.cpp:1322-1404 | health publication as its step |
| `Fabric.RackFabric.PublishCapability` | src/core/rack_fabric.cpp:1406-1503 | capability publication as its step |
| `Fabric.RackFabric.WithdrawEvidence` | src/core/rack_fabric.cpp:1505-1584 | withdrawal of evidence as its step |
| `Fabric.RackFabric.WithdrawRelationship` | src/core/rack_fabric.cpp:1586-1619 | withdrawal of a relationship as its step |
| `Fabric.RackFabric.MarkUnavailable` | src/core/rack_fabric.cpp:1621-1676 | as its step |
| `Fabric.RackFabric.RetireMember` | src/core/rack_fabric.cpp:1678-1765 | retirement drops what the relationship index lists, detaches the children, and is its step |
| `Fabric.RackFabric.RetireRack` | src/core/rack_fabric.cpp:1767-1821 | as its step, which fences every registered boot |
| `Fabric.RackFabric.RevalidateMembers` | src/core/rack_fabric.cpp:1823-1889 | target by target, with the partial commit, as its step |
| `Fabric.RackFabric.Heartbeat` | src/core/rack_fabric.cpp:1891-1910 | as its step |
| `Fabric.RackFabric.FencePublisher` | src/core/rack_fabric.cpp:1912-2010 | fencing through the owner index orphans every member the boot owns, and is its step |
| `Fabric.RackFabric.ExpirePublishers` | src/core/rack_fabric.cpp:2012-2040 | fences the boots whose lease ran out, in map order, as its step |
| `Fabric.RackFabric.PublishSnapshot` | src/core/rack_fabric.cpp:2459-2507 | as its step, dropping the oldest retained snapshot at the limit |
| `Fabric.RackFabric.Perform` | src/core/rack_fabric.cpp:472-2507 | any request as its step; the members it touches are listed anew; complete buckets are lost exactly when it is accepted and drops one, exact ones exactly when it is accepted and drops one or takes the last name of a known domain |
| `Fabric.RackFabric.Replay` | src/core/rack_fabric.cpp:472-2507 | after any run the records are those of the steps on values, and the indexes agree; the buckets are complete exactly when no member is forgotten, and exact exactly when nothing is lost |
| `Buckets.ListsAgreeNext` | src/core/state.cpp:203-292 | along runs a bucket misses exactly the members that named its domain when it was published again and were not touched since |
| `Buckets.BucketsAgreeNext` | src/core/state.cpp:203-292 | along runs the bucket of a known domain that nobody names is gone exactly when it lost its last name and was not published since |
| `Buckets.ExactIffNothingLost` | src/core/state.cpp:994-1016 | the buckets are those of a rebuild exactly when no member is missing and none of them is gone |
| `Progress.StepIsSound` | src/core/rack_fabric.cpp:232-364 | every step: no generation, member, fenced boot or publication counter is lost or lowered; an accepted change of content moves a bound generation; an accepted request came from an unfenced, registered boot with the right publication generation; a refusal changes at most one rejection counter |
| `Runs.RunGrows` | src/core/rack_fabric.cpp:321-364 | no run lowers a member generation or any component of the generation set, removes a member, unfences a boot, or revives a retired rack |
| `Runs.AtMostOneMemberWinner` | src/core/rack_fabric.cpp:694-714 | of all publications of an existing member with one expected generation, at most one in a run is accepted |
| `Runs.AtMostOnePublication` | src/core/rack_fabric.cpp:321-364 | of all publications by one boot under one publication generation below the maximum, at most one in a run is accepted |
| `Runs.CurrentSnapshotIsExact` | src/core/rack_fabric.cpp:2459-2568 | with counters that are not exhausted, a published snapshot that still validates as current holds exactly the present members, relationships, domains and envelopes exactly when, since it was published, no granted revalidation met a blocked target after a due one |
| `Runs.MidwayChangesForGood` | src/core/rack_fabric.cpp:1846-1877 | what such a revalidation changed never becomes again, at any later point, what it was at any earlier one |
| `Runs.FreshSnapshotIsCurrent` | src/core/rack_fabric.cpp:2509-2568 | a snapshot validates as current right after it was published |
| `Declarations.ValidationMeans` | src/core/rack_fabric.cpp:2509-2568 | each answer of a validation as a condition; only an intact snapshot of this rack, bound to every present generation, is current |
| `Declarations.TamperedIsInvalid` | src/core/rack_fabric.cpp:2509-2568 | a snapshot changed under its old digest is invalid exactly when its digest differs |
| `Runs.PartialRevalidationIff` | src/core/rack_fabric.cpp:1846-1877 | a revalidation is refused although it changed a member exactly when it is granted and a due target precedes the first missing, foreign or exhausted one; it then moves no generation |
| `Runs.MidwayMisleads` | src/core/rack_fabric.cpp:1846-1877 | after such a revalidation every snapshot that was current is still taken for current, and no longer holds the members |
| `Runs.MidwayIsEasy` | src/core/rack_fabric.cpp:1846-1877 | a due target of the caller's own in front of a missing one is such a revalidation |
| `Fences.FencingIsPermanent` | src/core/rack_fabric.cpp:1767-2040 | after a boot is fenced, by request, by its lease or by the retirement of the rack, no request presenting it is accepted, and no member it owns is present with fresh evidence at any time until an operator asserts that member again |
| `Fences.StepLeavesLiveIff` | src/core/rack_fabric.cpp:1767-2040 | in one step a boot is left fenced and in authority exactly when it was and nothing took its authority, or when it retired the rack |
| `Fences.OnlyProcessesStayLive` | src/core/rack_fabric.cpp:1767-1821 | an accepted retirement of the rack leaves no fenced boot in authority exactly when an operator asked for it |
| `Fences.ProcessCanStayLive` | src/core/rack_fabric.cpp:1767-1821 | any process in authority can retire the rack below the largest generation, and is then fenced and in authority |
| `Fences.LiveIff` | src/core/rack_fabric.cpp:1767-2040 | along every run a boot is fenced and in authority exactly when it retired the rack and was neither fenced nor expired since |
| `Fences.OutIsNeverAccepted` | src/core/rack_fabric.cpp:282-312 | once a process is lost or fenced it stays so, and no request presenting its boot is accepted in any run |
| `Fences.ExpiryIsARun` | src/core/rack_fabric.cpp:2012-2040 | an uninterrupted expiry is the run of its fencings as requests of their own |
| `Runs.FencedIsNeverAccepted` | src/core/rack_fabric.cpp:282-290 | from any state in which a boot is fenced, no later request presenting it is accepted |
| `Lifecycles.StepUnretiresIff` | src/core/rack_fabric.cpp:1505-1584 | of all requests, exactly the accepted withdrawal of all evidence of a retired member takes it out of retirement |
| `Lifecycles.RetiredCanReturn` | src/core/rack_fabric.cpp:1505-1584 | whoever may change a retired member below the largest generation can take it out of retirement |
| `Lifecycles.RetiredStaysRetired` | src/core/rack_fabric.cpp:645-865 | between two points of a run without such a withdrawal a retired member stays retired |
| `Effects.CanonicalKeysMeet` | src/core/model.cpp:571-576 | canonical keys are equal exactly when the keys are equal or name one symmetric relationship from either end; canonicalizing twice changes nothing |
| `Effects.EitherEndIsStoredOnce` | src/core/rack_fabric.cpp:867-984 | publishing a symmetric relationship from either end has the same effect |
| `Effects.MemberIsWhatWasPublished` | src/core/rack_fabric.cpp:645-865 | an accepted publication stores the sent record, without live evidence if it is retired, under its process, the requested or the next generation and existing references, and changes no other record |
| `Effects.HealthIsWhatWasPublished` | src/core/rack_fabric.cpp:1322-1404 | an accepted health report stores exactly the reported health and readiness, one generation up, moves the health generation, and changes nothing else |
| `Contents.WithdrawalForgets` | src/core/rack_fabric.cpp:1505-1584 | a withdrawal takes away exactly what its scope names, at all times, for each of the six scopes, and leaves the rest of the member and every other record alone |
| `Contents.CapabilityIsWhatWasPublished` | src/core/rack_fabric.cpp:1406-1503 | an accepted capability replaces the first of its identity or is appended, confirmed anew; the others keep their places, and nothing else changes |
| `Contents.UnavailableIsWhatWasMarked` | src/core/rack_fabric.cpp:1621-1676 | marking changes the lifecycle, the mark, the reason and the generation of the one member, and nothing else |
| `Contents.RelationshipIsWhatWasPublished` | src/core/rack_fabric.cpp:867-984 | an accepted relationship is stored as sent under its canonical key, its process and the next topology generation; nothing else changes |
| `Contents.RelationshipIsWithdrawn` | src/core/rack_fabric.cpp:1586-1619 | a withdrawal takes away the one relationship it names |
| `Contents.DomainIsWhatWasPublished` | src/core/rack_fabric.cpp:986-1113 | an accepted domain is stored as sent, each parent once and in order, under its process and the next generation |
| `Contents.RetirementIsExact` | src/core/rack_fabric.cpp:1678-1765 | retirement keeps the member's description and drops its observations, its relationships and its place as a parent; every other record is as before |
| `Envelopes.PowerIsWhatWasPublished` | src/core/rack_fabric.cpp:1115-1204 | a power envelope is stored as sent, with rack and domain headroom exactly where both inputs are current, in one unit, and their difference is not negative |
| `Envelopes.CoolingIsWhatWasPublished` | src/core/rack_fabric.cpp:1206-1320 | a cooling envelope is stored as sent, its zones sorted by name and those of one name in order, with headroom likewise |
| `Envelopes.HeadroomWindow` | src/core/state.cpp:633-694 | derived headroom is fresh exactly from the later observation for the shorter lifetime |
| `Envelopes.HeadroomOutlivesIff` | src/core/state.cpp:633-694 | headroom is fresh while an input is not exactly between the end of an input and its own |
| `Envelopes.HeadroomCanOutlive` | src/core/state.cpp:633-694 | which happens, and such headroom counts as physical whatever it was derived from |
| `Processes.RegistrationIsExact` | src/core/rack_fabric.cpp:472-552 | a new boot becomes active at publication one under the configured lease; registering again only says that it is there |
| `Processes.HeartbeatIsExact` | src/core/rack_fabric.cpp:1891-1910 | a heartbeat changes when its process was seen, and nothing else |
| `Processes.FencingIsExact` | src/core/rack_fabric.cpp:1912-2010 | fencing takes the authority of one process, marks its members with their live observations and its ephemeral relationships, domains and envelopes, and leaves everything else alone |
| `Processes.ExpiryIsExact` | src/core/rack_fabric.cpp:2012-2040 | an expiry fences exactly the processes whose last heartbeat is longer ago than their lease, all at once, and is accepted when there is one |
| `Declarations.DeclarationIsExact` | src/core/rack_fabric.cpp:554-643 | the first declaration names the rack; a redeclaration begins the next incarnation, in which every member, relationship and domain must be asserted again |
| `Declarations.RackRetirementIsExact` | src/core/rack_fabric.cpp:1767-1821 | retiring the rack fences every process, ends every presence, and leaves only the process that asked active |
| `Declarations.RevalidationIsExact` | src/core/rack_fabric.cpp:1823-1889 | a revalidation confirms exactly the due targets ahead of the first one that blocks it, and ends for the reason of that one |
| `Declarations.NothingIsLeft` | src/core/rack_fabric.cpp:1823-1889 | after an accepted revalidation of everything no member remains to be revalidated |
| `Declarations.SnapshotIsExact` | src/core/rack_fabric.cpp:2459-2507 | a snapshot says who took it when and what lifecycle it found, is retained beside the others of which only the oldest goes at the limit, and changes nothing else |
| `Declarations.SnapshotIdsDiffer` | src/core/rack_fabric.cpp:2459-2507 | two snapshots of one rack never have the same identity |
| `Leases.AcceptedIsCounted` | src/core/rack_fabric.cpp:350-364 | every accepted publication moves the publication and the count of the one process it came from, which is then active, or those of the operator |
| `Leases.RefusalIsCounted` | src/core/rack_fabric.cpp:366-370 | a refusal is counted against the process that asked and leaves no other trace; without authority it leaves none |
| `Leases.LeaseIsNotAsked` | src/core/rack_fabric.cpp:232-348 | authority does not depend on leases and heartbeats |
| `Leases.HeartbeatProtects` | src/core/rack_fabric.cpp:2012-2040 | along a run an expiry leaves a process and its members alone when it was heard of within its lease |
| `Refusals.GrantedIff` | src/core/rack_fabric.cpp:232-348 | a token is granted its authority exactly when nothing speaks against its epoch, rack, process and publication; a denial names something that does |
| `Refusals.OutcomeIff` | src/core/rack_fabric.cpp:472-2507 | the outcome of every request in every state: refused only for a cause of that kind and never without one, idle exactly when it asks for what is so, accepted otherwise |
| `Refusals.RecordsMean` | src/core/rack_fabric.cpp:86-144 | what a member record must be to be published, part by part |
| `Refusals.ValidEvidenceFades` | src/core/rack_fabric.cpp:50-84 | valid evidence is fresh when it is made, and no later than a day afterwards unless it is durable without a lifetime |
| `Refusals.DoublesMean` | src/core/rack_fabric.cpp:50-84 | the tests on a double say finite, not a number and negative of its sign, exponent and fraction |
| `Refusals.IdentitiesAreNames` | include/rack_fabric/identity.hpp:46-91 | an identity has no separator, space or control character and never goes up a directory |
| `Refusals.NamesAreIdentities` | include/rack_fabric/identity.hpp:46-91 | up to 128 letters, digits, hyphens and underscores always make one |
| `Ownership.StepFootprint` | src/core/rack_fabric.cpp:472-2507 | every request leaves alone every part of the state that is not its own |
| `Ownership.StepChangesMember` | src/core/rack_fabric.cpp:645-2043 | a known member is changed only by an accepted request about it, its parent's retirement, its due revalidation, the rack's, or the fencing or lapse of its owner |
| `Ownership.MembersAreIsolated` | src/core/rack_fabric.cpp:687-692 | what one process owns no other process can change, except by an accepted retirement or a new declaration |
| `Ownership.RelationshipsAreIsolated` | src/core/rack_fabric.cpp:928-935 | nor a relationship, except by retiring an endpoint or declaring anew |
| `Ownership.DomainsAreIsolated` | src/core/rack_fabric.cpp:1055-1062 | nor a failure domain, except by declaring anew |
| `Ownership.EnvelopesChangeHands` | src/core/rack_fabric.cpp:1115-1320 | whoever may publish takes over the envelopes of another process |
| `Ownership.AnyoneCanRetire` | src/core/rack_fabric.cpp:1678-1765 | whoever has authority can retire a member of another process |
| `Ownership.StepMovesOwner` | src/core/rack_fabric.cpp:645-2043 | no request moves the owner of a known member but an operator's publication, or a process's when there was none |
| `Ownership.OwnershipLasts` | src/core/rack_fabric.cpp:645-2043 | along a run a member stays with its process until an operator publishes it |
| `Ownership.IsolationLasts` | src/core/rack_fabric.cpp:645-2043 | along a run it stays as it is whatever other processes ask for, short of a retirement or a new declaration |
| `Effects.WithdrawnNeverCounts` | src/core/rack_fabric.cpp:1505-1584 | a member whose evidence is all withdrawn counts nowhere in the readiness contract at any time |
| `Effects.RetiredTakesPartInNothing` | src/core/rack_fabric.cpp:1678-1765 | a retired member has no relationship, no child and no current evidence, and keeps its capabilities, details and references; other members lose at most their parent |
| `Effects.RetirementIsFinal` | src/core/rack_fabric.cpp:270-277 | once the rack is retired only fencing is ever accepted again, and its lifecycle stays Retired |
| `Scans.ParentChainsAcyclic` | src/core/state.cpp:846-864 | the parent-chain scan finds a cycle exactly when there is one, on arbitrary records |
| `Scans.DomainsScanClean` | src/core/state.cpp:908-926 | the domain scan passes exactly when no parent is listed twice and no domain reaches another in two ways, on arbitrary records |
| `Scans.SinglePathsAreAcyclic` | src/core/state.cpp:908-926 | what the domain scan asks rules out every cycle |
| `Invariants.CheckInvariants` | src/core/state.cpp:796-1019 | on any state the check passes exactly when the records are consistent, the parent chains end, paths between domains are single, and the indexes are those of a rebuild |
| `Damage.PassesIff` | src/core/state.cpp:787-1018 | records pass exactly when they show none of the 32 violations the check names, each in terms of the records |
| `Invariants.PassingIsStructured` | src/core/state.cpp:796-1019 | with relationships under their own keys, passing implies existing parents and endpoints, acyclic parents and domains, and complete indexes |
| `Invariants.DiamondFails` | src/core/state.cpp:908-926 | a diamond never passes |
| `Invariants.DiamondsAreStructured` | src/core/state.cpp:908-926 | diamonds that are acyclic with existing parents exist |
| `Invariants.MutualContainmentPasses` | src/core/state.cpp:866-893 | two members that contain each other pass |
| `Unions.StepKeepsUnionIff` | src/core/rack_fabric.cpp:764-787 | with the union of parent and CONTAINS edges acyclic, a request makes it cyclic exactly when it is accepted and its new parent or container already reaches the member by edges of both kinds |
| `Unions.RunKeepsUnion` | src/core/rack_fabric.cpp:645-2043 | along runs the union stays acyclic while no accepted request closes it |
| `Unions.MemberMayCloseUnion` | src/core/rack_fabric.cpp:764-787 | where one member, with a valid stored record, contains another by a relationship, whoever may change it can make the other its parent and closes a cycle |
| `Unions.ContainmentMayCloseUnion` | src/core/rack_fabric.cpp:907-915 | where a member reaches another by a parent edge and a CONTAINS edge, saying that it contains that one is accepted and closes a cycle |
| `Diamonds.RewiredSingleIff` | src/core/state.cpp:908-926 | in a graph with single paths, new edges out of a node that close no cycle keep paths single exactly when nothing above is met from two targets, or from a target and past the node |
| `Diamonds.StepKeepsSinglePathsIff` | src/core/rack_fabric.cpp:986-1113 | with single paths between domains, a request brings about a second one exactly when it is an accepted publication whose parents merge so |
| `Diamonds.DiamondCanBeMade` | src/core/rack_fabric.cpp:986-1113 | a new valid domain with two known parents that share one of theirs is accepted from whoever may publish, and makes a diamond |
| `Diamonds.RunKeepsSinglePaths` | src/core/rack_fabric.cpp:986-1113 | along runs paths stay single while no accepted request makes a diamond |
| `Consistency.StepKeepsConsistency` | src/core/rack_fabric.cpp:472-2507 | every mutation keeps all per-record conditions of the invariant check, and snapshots sealed by their digest |
| `Consistency.RunPassesIff` | src/core/state.cpp:796-1019 | after every run from the initial state the records, loaded or rebuilt elsewhere, pass the check exactly when paths between failure domains are single and no process that retired the rack was left in authority |
| `Consistency.RetirementPassesIff` | src/core/rack_fabric.cpp:1767-1821 | after an accepted retirement of the rack the records pass exactly when an operator asked for it and domain paths are single |
| `Consistency.ProcessCanBlock` | src/core/rack_fabric.cpp:1767-1821 | any process in authority can bring about records that do not pass |
| `LiveCheck.Check` | src/core/rack_fabric.cpp:2597-2600 | the check of a running coordinator passes exactly when paths are single, no fenced boot is in authority and the member buckets are exact |
| `LiveCheck.RunAndCheck` | src/core/rack_fabric.cpp:2597-2600 | after any run of a fresh coordinator its own check passes exactly when domain paths are single, nobody that retired the rack is left in authority, no member is missing from a bucket dropped since it was last changed, and no known domain lost its last name since it was last published |
| `LiveCheck.LastNameCanGo` | src/core/rack_fabric.cpp:645-865 | whoever may change a member with a valid stored record can take the last name of a known domain away |
| `LiveCheck.BucketCanBeDropped` | src/core/rack_fabric.cpp:986-1113 | whoever may publish a named domain with a valid stored record can drop its bucket |
| `LiveCheck.LoadAndCheck` | src/persistence/persistence.cpp:371-415 | a coordinator that loads what was saved passes its own check at once |
| `Crc32c.Compute` | src/internal/crypto.cpp:68-75 | the table loop computes the remainder of bit-at-a-time polynomial division, for every input and seed |
| `Crc32c.MakeTable` | src/internal/crypto.cpp:12-25 | the table holds the remainder of every single byte |
| `Crc32c.Chains` | src/internal/crypto.cpp:68-75 | checksums chain over concatenation through the seed |
| `Crc32c.BurstIsDetected` | src/internal/crypto.cpp:68-75 | inputs of one length that differ only within four consecutive bytes have different checksums |
| `Crc32c.ResidueIffChecksum` | src/internal/crypto.cpp:68-75 | four bytes after a message are its checksum exactly when the whole divides to a fixed residue |
| `Sha256.Hasher.Update` | src/internal/crypto.cpp:141-154 | however a chunk is cut by the buffer, the whole blocks are folded and the rest waits |
| `Sha256.Hasher.Finish` | src/internal/crypto.cpp:160-182 | padding ends, leaves the buffer empty, and yields the digest of all bytes absorbed |
| `Sha256.HashPieces` | src/internal/crypto.cpp:141-188 | for every way of cutting a message into updates the digest is that of the whole message |
| `KnownAnswers.CheckValue` | src/internal/crypto.cpp:12-75 | the checksum of the digits 1 to 9 is the published E3069283 |
| `KnownAnswers.RoundConstants` | src/internal/crypto.cpp:27-46 | the 64 round constants are the fractions of the cube roots of the first 64 primes |
| `KnownAnswers.InitialWords` | src/internal/crypto.cpp:81-94 | the initial words are those of the square roots of the first eight |
| `DigestExample.DigestOfAbc` | src/internal/crypto.cpp:141-188 | the digest of "abc" is the one published with the standard |
| `Codec.RoundTrip` | src/core/canonical.cpp:420-704 | reading what was written, followed by any bytes, returns the value and consumes exactly its bytes |
| `Codec.Canonical` | src/core/canonical.cpp:420-704 | bytes a reader accepts are the encoding of what it returns, and what it returns is well formed |
| `Codec.EncodingIsPrefixFree` | src/core/canonical.cpp:420-704 | encodings of one layout are injective and none is a prefix of another |
| `Codec.LenientFlagIsAmbiguous` | src/core/state.cpp:1107-1109 | a flag compared with 1 only reads any other byte as unset |
| `Enumerators.RanksAreCodes` | include/rack_fabric/member.hpp:47-85 | keys are ordered by the codes their kinds and classes are written as |
| `Ordering.TextLessMeans` | include/rack_fabric/member.hpp:47-64 | one text is below another exactly when it is a proper prefix of it, or smaller at the first byte in which they differ |
| `Streams.FitsIff` | src/core/canonical.cpp:420-704 | what a reader can return is exactly what is typed, within the writer's limits, and has valid identities, lifetimes and enumerators |
| `Streams.ReadsWhatFits` | src/core/canonical.cpp:508-704 | for every layout and typed value, what was written reads back as itself if it fits the reader, and is refused otherwise |
| `Streams.ByteWriter.Write` | src/core/canonical.cpp:420-506 | while the writer is fine it holds exactly the encodings written; it goes bad exactly over a string or count limit or when its last checked bytes end beyond the capacity, and keeps its first error |
| `Streams.ByteReader.Read` | src/core/canonical.cpp:508-704 | reading yields what the parse of the unread bytes yields, or its first error, which sticks |
| `RecordCodec.MemberCodecIsExact` | src/core/canonical.cpp:791-950 | the member codec, details of all ten kinds included, is a two-sided inverse |
| `RecordCodec.RelationshipCodecIsExact` | src/core/canonical.cpp:952-1017 | so is the relationship codec |
| `RecordCodec.FailureDomainCodecIsExact` | src/core/canonical.cpp:1019-1097 | so is the failure-domain codec |
| `RecordCodec.PowerCodecIsExact` | src/core/canonical.cpp:1099-1215 | so is the power-envelope codec |
| `RecordCodec.CoolingCodecIsExact` | src/core/canonical.cpp:1217-1324 | so is the cooling-envelope codec |
| `StateCodec.StateRoundTrip` | src/core/state.cpp:1021-1332 | decoding an encoded state returns its maps, publishers, fenced boots and snapshots with recomputed digests |
| `StateStreams.EncodeState` | src/core/state.cpp:1021-1102 | the encoder yields the payload exactly when strings and counts are within their limits and the last checked bytes within the capacity, and nothing otherwise |
| `StateStreams.DecodePayload` | src/core/state.cpp:1104-1332 | the decoding loops yield the state of the payload, or nothing where it does not parse to the end or has duplicate keys |
| `Duplicates.AcceptedIff` | src/core/state.cpp:1104-1332 | a payload is accepted exactly when it parses to its last byte and lists no member, relationship, domain or snapshot generation twice; the state then holds all that is listed and nothing else, and of several publishers or fenced boots under one boot the first |
| `StateStreams.SavedIsReadable` | src/core/state.cpp:1225-1233 | a state that was encoded fits the reader exactly when it is sane and its publishers fit the reader's limit |
| `StateStreams.SavedStateReturns` | src/core/state.cpp:1021-1332 | what the encoder yields decodes to the state it came from exactly when it fits the reader, and is refused otherwise |
| `Canonicity.PayloadIsCanonicalIff` | src/core/state.cpp:1104-1332 | an accepted payload is the encoding of the state it is read as exactly when its first byte is 0 or 1 and every keyed list strictly ascends |
| `Canonicity.OtherFlagsAreAccepted` | src/core/state.cpp:1107-1109 | every accepted payload without a rack has further accepted spellings that are not canonical |
| `Sanity.StateIsSane` | src/core/canonical.cpp:508-704 | a saved state satisfies the reader's checks exactly when the identities and lifetimes of all its records are valid, field by field |
| `Acceptance.StepStaysSaneIff` | src/core/rack_fabric.cpp:86-144 | from a state that can be read back, each request leads to one that cannot exactly when it is accepted and carries an unchecked lifetime out of range or an unset identity |
| `Acceptance.RunStaysSane` | src/core/rack_fabric.cpp:472-2507 | along runs whose accepted requests carry nothing of the kind the state can always be read back |
| `Acceptance.ExpiredBandwidthIsStored` | src/core/rack_fabric.cpp:86-144 | in any state, whoever may publish can store a memory domain whose bandwidth has a negative lifetime, and the state can no longer be read back |
| `Files.ParseIff` | src/persistence/persistence.cpp:198-299 | a file parses to a payload exactly when it is the file saved for it and within the size limit |
| `Files.SavedWithinTheLastBytesIsRefused` | src/persistence/persistence.cpp:325-331 | a saved payload parses exactly when it is at least 80 bytes below the limit |
| `Files.NoPrefixIsValid` | src/persistence/persistence.cpp:254-266 | every strict prefix of a valid file is found to be cut off |
| `Files.NoExtensionIsValid` | src/persistence/persistence.cpp:254-266 | every strict extension of a valid file is found to be too long |
| `Files.RefusalHasCause` | src/persistence/persistence.cpp:198-299 | each status of a refused file says what is wrong with it, and a file with nothing wrong is not refused |
| `Files.BurstIsRejected` | src/persistence/persistence.cpp:267-292 | a file that differs from a valid one only within four consecutive bytes, wherever they lie, is rejected |
| `FileStreams.FrameFile` | src/persistence/persistence.cpp:333-357 | the stores into the buffer, nibbles of the digest included, yield exactly the file layout |
| `FileStreams.ParseFile` | src/persistence/persistence.cpp:198-299 | the chain of checks gives the status of the parse |
| `Recovery.ApplyRecoveryPolicy` | src/persistence/persistence.cpp:89-173 | the loops rewrite every record as the recovery function does, and leave agreeing indexes and exact buckets |
| `Recovery.RecoveryIsConservative` | src/persistence/persistence.cpp:89-173 | afterwards no publisher is current, nothing has an owner, and no member, relationship or domain that was owned or ephemeral is fresh at any time |
| `Recovery.ObservationsAreForgotten` | src/persistence/persistence.cpp:89-173 | owned and ephemeral envelopes are never fresh, ephemeral ones lose their readings, and no ephemeral observation or capability of a member is fresh at any time |
| `Survival.RecoveryIsExact` | src/persistence/persistence.cpp:89-173 | durable unowned records come back as they were, all others marked; durable observations and all keys, lifecycles, generations, references and details are kept, and so is everything else but processes and the epoch |
| `Survival.RestartIsExact` | src/persistence/persistence.cpp:303-415 | the same of what is saved and loaded again |
| `Survival.FreshAfterRestart` | src/persistence/persistence.cpp:303-415 | after a save and a load a member is fresh, and counts, exactly when it did before and is durable and unowned |
| `Survival.TopologyFreshAfterRestart` | src/persistence/persistence.cpp:303-415 | so are relationships, domains and envelopes |
| `Survival.RestartAwaitsIff` | src/persistence/persistence.cpp:303-415 | after a restart a live rack must be revalidated exactly when it had to be or something of it did not endure |
| `Recovery.RecoveryIsIdempotent` | src/persistence/persistence.cpp:89-173 | recovering again changes only the epoch |
| `Recovery.RecoveryKeepsStructure` | src/persistence/persistence.cpp:89-173 | recovery keeps references valid and graphs acyclic |
| `Persistence.LoadState` | src/persistence/persistence.cpp:371-415 | a load succeeds exactly when the file yields a state, commits exactly that state with agreeing indexes and exact buckets, and otherwise changes nothing |
| `Persistence.SaveState` | src/persistence/persistence.cpp:303-369 | a save yields the framed payload exactly within its limits |
| `Persistence.LoadAfterSave` | src/persistence/persistence.cpp:303-415 | loading a saved state yields its recovery rewrite under the next epoch |
| `Persistence.SavedRunLoadsIff` | src/persistence/persistence.cpp:303-415 | for every run, what it saves loads as its recovery rewrite exactly when the file fits, its lifetimes and identities are valid, domain paths are single, no process that retired the rack was left in authority and the epoch can advance; otherwise it is refused |
| `Persistence.SaneRunIsSane` | src/persistence/persistence.cpp:303-415 | the lifetimes and identities are valid whenever no accepted request carried an unchecked one that is not |
| `Persistence.FreshRunLoadsIff` | src/persistence/persistence.cpp:303-415 | what a fresh coordinator saves loads exactly when its file fits, if no accepted request made a diamond, carried an invalid unchecked lifetime or identity, or left a process in authority that retired the rack |
| `Persistence.RecoveredIsStartable` | src/persistence/persistence.cpp:371-415 | the state a load commits meets everything the theorems about runs ask of their first state |
| `Persistence.RecoveryKeepsConsistency` | src/persistence/persistence.cpp:89-173 | a recovered state starts the next run as well as the initial one |
| `Persistence.EpochsGrow` | src/persistence/persistence.cpp:398-405 | along chains of runs, saves and loads every incarnation has the next epoch |
| `Persistence.EarlierTokensStayRefused` | src/core/rack_fabric.cpp:232-244 | no token of an earlier incarnation is accepted however long a later one runs |
| `Persistence.OldBootsStayRefused` | src/core/rack_fabric.cpp:282-312 | no boot known before a recovery is accepted at any point of any run after it |
| `Persistence.OldSnapshotsStayStale` | src/core/rack_fabric.cpp:2509-2568 | no snapshot of an earlier epoch validates as current at any point of any run after a recovery |
| `Persistence.DiamondIsNotLoaded` | src/core/state.cpp:908-926 | a saved state with a diamond is refused when it is loaded |
| `Frames.FrameRoundTrip` | src/protocol/protocol.cpp:426-523 | decoding an encoded frame followed by any bytes returns it and consumes exactly its length |
| `Frames.DecodedIsSealed` | src/protocol/protocol.cpp:451-523 | only well-formed frames within bounds are decoded, and only from the bytes they are sent as |
| `Frames.PrefixIsTruncated` | src/protocol/protocol.cpp:451-523 | every strict prefix of a well-formed frame within bounds is only found to be incomplete |
| `Frames.RefusalHasCause` | src/protocol/protocol.cpp:451-523 | each status of a refused frame says what is wrong with it, and a frame with nothing wrong is not refused |
| `Frames.EncodeFrame` | src/protocol/protocol.cpp:426-449 | the stores into the buffer yield the frame layout; frames over a bound are refused |
| `Frames.DecodeFrame` | src/protocol/protocol.cpp:451-523 | the step-by-step decoder gives the status and frame of the parse |
| `Frames.Receive` | src/protocol/protocol.cpp:451-523 | decoding frame after frame returns exactly the sequence that was sent, and stops only at a frame that fails |
| `Frames.BurstIsRejected` | src/protocol/protocol.cpp:509-514 | a change within four consecutive bytes that leaves the length field intact is never decoded |
| `Synthetic.PublishDomains` | src/synthetic/synthetic.cpp:479-529 | the loop ends and requests each domain once, after all its parents were accepted; for an operator's list of valid, new, uniquely named domains with listed parents, no cycle and room for all of them, every request is accepted and it never falls back |
| `Synthetic.NextIsAccepted` | src/synthetic/synthetic.cpp:479-529 | as long as all went well, the next domain of such a list whose parents were published is accepted |
| `Synthetic.OrderedIsAcyclic` | src/synthetic/synthetic.cpp:479-529 | a list with unique names that is published without the fallback has no cycle and no missing parent |

## Left out

- Sockets, threads, sessions, tools, hardware discovery: input and output; the exclusive lock already makes mutations
  atomic steps.
- Record codecs as one method each: every record is a layout, a table of fields in the order of the program, that the
  writer and the reader walk; the order of calls inside each encode and decode function is that table. The authority
  token and the per-message payloads of the protocol are not laid out.
- The snapshot digest is an uninterpreted function of the snapshot without its digest: collisions, and the truncation of
  the hashed encoding at the frame payload limit, are not modelled.
- A `double` is its 64 bits: two zeros of different sign are unequal here and equal in the program; the subtraction in
  headroom is a parameter.
- Ages of evidence and leases are unbounded integers: an overflow of the 64-bit difference is not modelled.
- Explanations, factors, error texts and rendered output: only the outcome kind is kept. A failed load is one outcome;
  the status of a file parse is modelled, the status of a payload that does not decode is not.
- Writing files: flushing, renaming and read errors; a file is a byte sequence.
- `Fabric.RackFabric.ExpirePublishers`: fences right away, while the program releases its lock between scanning and
  fencing; interrupted expiries are runs with the fencings as requests of their own (`Fences.ExpiryIsARun`).
- `Fabric.RackFabric.PublishSnapshot`: with a retention limit of zero the program erases the first of no snapshots, which
  has no defined behaviour; the model erases nothing. The digest is the one of `Evaluation.TakeSnapshot`.
- `Evaluation.TakeSnapshot`: the digest is an arbitrary function of the snapshot, not the hash of its bounded encoding.
- `Fabric.RackFabric.PublishPower`: the subtraction of doubles in the headroom is a parameter.
- `Fabric.RackFabric.PublishCooling`: the same parameter, and zones of equal name keep their order.
- Indexed containers iterate over sets in an arbitrary order where the program's order makes no difference to the result.
- `StateStreams.EncodeState`: the model's detail records are lists of attributes, so callers say that they have the
  attributes of their kind; strings longer than a 32-bit length can say are excluded by the string limit.
- `Persistence.SavedRunLoadsIff`: the state was accepted by the writer; what the writer refuses is `Persistence.SaveState`.
- `Synthetic.PublishDomains`: only the failure-domain loop; members, relationships and envelopes are published by the
  same pattern. A domain that is already there unchanged is not accepted, so its children wait for the fallback.
- `descendants`, summaries, queries by kind and the random generation of synthetic racks: easy or no part of a property.
