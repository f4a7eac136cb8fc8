/** What the readiness contract and the rack lifecycle say about the records, and which requests move them. */
module Verdicts {
  import opened Wrappers
  import opened Evidence
  import opened Model
  import opened Graph
  import opened RackReadiness
  import opened Machine
  import Facts = Progress
  import opened Structure
  import opened Runs
  import opened Effects
  import opened Contents
  import opened Ownership

  // ----- The contract, by witnesses -----

  /** These are present members of one kind with fresh evidence, physical where that is asked for. */
  ghost predicate AllCount(s: Core, contract: ReadinessContract, now: i64, kind: MemberKind, ks: set<MemberKey>) {
    forall k :: k in ks ==>
      && k in s.members && k.kind == kind && s.members[k].lifecycle.Present? && s.members[k].stamp.IsFreshAt(now)
      && (contract.requirePhysicalProvenance ==>
            var p := s.members[k].stamp.provenance; p.Measured? || p.Reported? || p.Derived?)
  }

  ghost predicate AtLeast(s: Core, contract: ReadinessContract, now: i64, kind: MemberKind, n: nat) {
    exists ks :: |ks| == n && AllCount(s, contract, now, kind, ks)
  }

  /** The domain is named by a node that counts, or is above one that is. */
  ghost predicate IsCovered(s: Core, contract: ReadinessContract, now: i64, d: Text) {
    exists k, x ::
      && AllCount(s, contract, now, MemberKind.Node, {k}) && k in s.members
      && x in s.members[k].failureDomains && Reaches(DomainGraph(s.failureDomains), x, d)
  }

  ghost predicate AllCovered(s: Core, contract: ReadinessContract, now: i64, ds: set<Text>) {
    forall d :: d in ds ==> IsCovered(s, contract, now, d)
  }

  ghost predicate CoversAtLeast(s: Core, contract: ReadinessContract, now: i64, n: nat) {
    exists ds :: |ds| == n && AllCovered(s, contract, now, ds)
  }

  lemma {:induction false} SubsetOfSize<T>(a: set<T>, n: nat) returns (b: set<T>)
    requires n <= |a|
    ensures b <= a && |b| == n
    decreases a
  {
    if n == |a| {
      b := a;
    } else {
      var x :| x in a;
      b := SubsetOfSize(a - {x}, n);
    }
  }

  lemma QualifyingCount(s: Core, contract: ReadinessContract, now: i64, kind: MemberKind, n: nat)
    ensures AtLeast(s, contract, now, kind, n) <==> n <= |Qualifying(s, contract, now, kind)|
  {
    hide AllCount, Qualifying;
    var q := Qualifying(s, contract, now, kind);
    if ks :| |ks| == n && AllCount(s, contract, now, kind, ks) {
      CountedQualify(s, contract, now, kind, ks);
      SubsetIsNoLarger(ks, q);
    }
    if n <= |q| {
      var ks := SubsetOfSize(q, n);
      CountedQualify(s, contract, now, kind, ks);
    }
  }

  lemma CountedQualify(s: Core, contract: ReadinessContract, now: i64, kind: MemberKind, ks: set<MemberKey>)
    ensures AllCount(s, contract, now, kind, ks) <==> ks <= Qualifying(s, contract, now, kind)
  {
    hide Stamp.IsFreshAt;
  }

  lemma ReachedAreCandidates(domains: map<Text, FailureDomainRecord>, direct: seq<Text>, x: Text, d: Text)
    requires x in direct && Reaches(DomainGraph(domains), x, d)
    ensures d in DomainClosure(domains, direct)
  {
    hide DomainGraph;
    var g := DomainGraph(domains);
    var all := Candidates(domains, direct);
    forall a, b | (a, b) in g
      ensures b in all
    {
      assert (a, b).1 in Nodes(g);
    }
    ClosedHoldsReachable(g, all, x, d);
  }

  lemma CoveredAre(s: Core, contract: ReadinessContract, now: i64, d: Text)
    ensures IsCovered(s, contract, now, d) <==> d in CoveredDomains(s, contract, now)
  {
    hide Stamp.IsFreshAt, DomainGraph, Reaches, Candidates;
    if k, x :|
      && AllCount(s, contract, now, MemberKind.Node, {k}) && k in s.members
      && x in s.members[k].failureDomains && Reaches(DomainGraph(s.failureDomains), x, d)
    {
      ReachedAreCandidates(s.failureDomains, s.members[k].failureDomains, x, d);
      assert k in Qualifying(s, contract, now, MemberKind.Node);
      assert d in DomainsOf(s, k);
    }
    if d in CoveredDomains(s, contract, now) {
      var k :| k in Qualifying(s, contract, now, MemberKind.Node) && d in DomainsOf(s, k);
      var x :| x in s.members[k].failureDomains && Reaches(DomainGraph(s.failureDomains), x, d);
      assert AllCount(s, contract, now, MemberKind.Node, {k});
    }
  }

  lemma CoveredCount(s: Core, contract: ReadinessContract, now: i64, n: nat)
    ensures CoversAtLeast(s, contract, now, n) <==> n <= |CoveredDomains(s, contract, now)|
  {
    hide CoveredDomains, IsCovered;
    var c := CoveredDomains(s, contract, now);
    forall d {
      CoveredAre(s, contract, now, d);
    }
    if ds :| |ds| == n && AllCovered(s, contract, now, ds) {
      SubsetIsNoLarger(ds, c);
    }
    if n <= |c| {
      var ds := SubsetOfSize(c, n);
      assert AllCovered(s, contract, now, ds);
    }
  }

  predicate IsCurrent(l: MemberLifecycle) { l.Present? || l.Unavailable? }

  /** What the flags of the contract ask for, each for itself. */
  ghost predicate FlagsHold(s: Core, contract: ReadinessContract, now: i64) {
    && (contract.requireAllMembersCurrent ==>
          forall k :: k in s.members && IsCurrent(s.members[k].lifecycle) ==> s.members[k].stamp.IsFreshAt(now))
    && (contract.requireMemberHealth ==>
          forall k :: k in s.members && IsCurrent(s.members[k].lifecycle) ==> s.members[k].health.stamp.IsFreshAt(now))
    && (contract.requireTopology ==> exists k :: k in s.relationships)
    && (contract.requireFailureDomains ==> exists d :: d in s.failureDomains)
    && (contract.requirePowerEnvelope ==> s.power.Some? && s.power.value.stamp.IsFreshAt(now))
    && (contract.requireCoolingEnvelope ==> s.cooling.Some? && s.cooling.value.stamp.IsFreshAt(now))
    && (contract.requireActivePublisher ==> exists b :: b in s.publishers && s.publishers[b].state.Active?)
  }

  predicate IsLive(s: Core) { s.rack.Some? && !s.rack.value.retired }

  /** The contract is satisfied exactly when there are enough nodes, accelerators and domains, and its flags hold. */
  lemma ContractMeans(s: Core, contract: ReadinessContract, now: i64)
    ensures Satisfied(s, contract, now) <==>
              && IsLive(s) && FlagsHold(s, contract, now)
              && AtLeast(s, contract, now, MemberKind.Node, contract.minNodes)
              && AtLeast(s, contract, now, MemberKind.Accelerator, contract.minAccelerators)
              && CoversAtLeast(s, contract, now, contract.minDistinctFailureDomains)
  {
    hide AtLeast, CoversAtLeast, Qualifying, CoveredDomains, Violates, FlagsHold;
    QualifyingCount(s, contract, now, MemberKind.Node, contract.minNodes);
    QualifyingCount(s, contract, now, MemberKind.Accelerator, contract.minAccelerators);
    CoveredCount(s, contract, now, contract.minDistinctFailureDomains);
    CountsMean(s, contract, now);
    if IsLive(s) {
      FlagsMean(s, contract, now);
    }
  }

  lemma CountsMean(s: Core, contract: ReadinessContract, now: i64)
    ensures IsLive(s) <==> !Violates(s, contract, now, RackNotDeclared) && !Violates(s, contract, now, RackIsRetired)
    ensures IsLive(s) ==>
              && (Violates(s, contract, now, InsufficientNodes) <==>
                    |Qualifying(s, contract, now, MemberKind.Node)| < contract.minNodes)
              && (Violates(s, contract, now, InsufficientAccelerators) <==>
                    |Qualifying(s, contract, now, MemberKind.Accelerator)| < contract.minAccelerators)
              && (Violates(s, contract, now, InsufficientFailureDomains) <==>
                    |CoveredDomains(s, contract, now)| < contract.minDistinctFailureDomains)
  {
    hide Qualifying, CoveredDomains;
  }

  /** The deficits of the flags; the others count. */
  predicate IsOfFlag(d: Deficit) {
    !d.RackNotDeclared? && !d.RackIsRetired? && !d.InsufficientNodes? && !d.InsufficientAccelerators?
    && !d.InsufficientFailureDomains?
  }

  lemma FlagsMean(s: Core, contract: ReadinessContract, now: i64)
    requires IsLive(s)
    ensures FlagsHold(s, contract, now) <==>
              forall d {:trigger Violates(s, contract, now, d)} :: IsOfFlag(d) ==> !Violates(s, contract, now, d)
  {
    if forall d {:trigger Violates(s, contract, now, d)} :: IsOfFlag(d) ==> !Violates(s, contract, now, d) {
      NoViolationMeans(s, contract, now);
    }
  }

  lemma NoViolationMeans(s: Core, contract: ReadinessContract, now: i64)
    requires IsLive(s)
    requires forall d {:trigger Violates(s, contract, now, d)} :: IsOfFlag(d) ==> !Violates(s, contract, now, d)
    ensures FlagsHold(s, contract, now)
  {
    assert !Violates(s, contract, now, MembersNotCurrent) && !Violates(s, contract, now, MemberHealthUnknown);
    assert !Violates(s, contract, now, TopologyRequired) && !Violates(s, contract, now, FailureDomainsRequired);
    assert !Violates(s, contract, now, PowerEnvelopeRequired) && !Violates(s, contract, now, PowerEnvelopeNotCurrent);
    assert !Violates(s, contract, now, CoolingEnvelopeRequired)
      && !Violates(s, contract, now, CoolingEnvelopeNotCurrent);
    assert !Violates(s, contract, now, NoActivePublisher);
  }

  /** What a reported deficit says: without a live rack only that, otherwise what is missing. */
  ghost predicate Says(s: Core, contract: ReadinessContract, now: i64, d: Deficit) {
    if !IsLive(s) then d == if s.rack.None? then RackNotDeclared else RackIsRetired
    else
      match d
      case RackNotDeclared => false
      case RackIsRetired => false
      case InsufficientNodes => !AtLeast(s, contract, now, MemberKind.Node, contract.minNodes)
      case InsufficientAccelerators => !AtLeast(s, contract, now, MemberKind.Accelerator, contract.minAccelerators)
      case InsufficientFailureDomains => !CoversAtLeast(s, contract, now, contract.minDistinctFailureDomains)
      case MembersNotCurrent => contract.requireAllMembersCurrent && SomeCurrentIsStale(s, now)
      case MemberHealthUnknown => contract.requireMemberHealth && SomeCurrentLacksHealth(s, now)
      case TopologyRequired => contract.requireTopology && forall k :: k !in s.relationships
      case FailureDomainsRequired => contract.requireFailureDomains && forall f :: f !in s.failureDomains
      case PowerEnvelopeRequired => contract.requirePowerEnvelope && s.power.None?
      case PowerEnvelopeNotCurrent =>
        contract.requirePowerEnvelope && s.power.Some? && !s.power.value.stamp.IsFreshAt(now)
      case CoolingEnvelopeRequired => contract.requireCoolingEnvelope && s.cooling.None?
      case CoolingEnvelopeNotCurrent =>
        contract.requireCoolingEnvelope && s.cooling.Some? && !s.cooling.value.stamp.IsFreshAt(now)
      case NoActivePublisher =>
        contract.requireActivePublisher && !exists b :: b in s.publishers && s.publishers[b].state.Active?
  }

  lemma DeficitsMean(s: Core, contract: ReadinessContract, now: i64, d: Deficit)
    ensures Violates(s, contract, now, d) <==> Says(s, contract, now, d)
  {
    hide Violates, Says;
    if !IsLive(s) {
      NoRackSays(s, contract, now, d);
    } else if d.InsufficientNodes? || d.InsufficientAccelerators? || d.InsufficientFailureDomains? {
      CountSays(s, contract, now, d);
    } else if d.MembersNotCurrent? || d.MemberHealthUnknown? {
      MembersSay(s, contract, now, d);
    } else {
      RestSays(s, contract, now, d);
    }
  }

  lemma NoRackSays(s: Core, contract: ReadinessContract, now: i64, d: Deficit)
    requires !IsLive(s)
    ensures Violates(s, contract, now, d) <==> Says(s, contract, now, d)
  {
  }

  lemma CountSays(s: Core, contract: ReadinessContract, now: i64, d: Deficit)
    requires IsLive(s) && (d.InsufficientNodes? || d.InsufficientAccelerators? || d.InsufficientFailureDomains?)
    ensures Violates(s, contract, now, d) <==> Says(s, contract, now, d)
  {
    hide AtLeast, CoversAtLeast, Qualifying, CoveredDomains;
    QualifyingCount(s, contract, now, MemberKind.Node, contract.minNodes);
    QualifyingCount(s, contract, now, MemberKind.Accelerator, contract.minAccelerators);
    CoveredCount(s, contract, now, contract.minDistinctFailureDomains);
  }

  lemma MembersSay(s: Core, contract: ReadinessContract, now: i64, d: Deficit)
    requires IsLive(s) && (d.MembersNotCurrent? || d.MemberHealthUnknown?)
    ensures Violates(s, contract, now, d) <==> Says(s, contract, now, d)
  {
    hide SomeCurrentIsStale, SomeCurrentLacksHealth, IsStaleMember, LacksHealth;
    StaleMean(s, now);
  }

  lemma RestSays(s: Core, contract: ReadinessContract, now: i64, d: Deficit)
    requires IsLive(s) && !d.InsufficientNodes? && !d.InsufficientAccelerators? && !d.InsufficientFailureDomains?
    requires !d.MembersNotCurrent? && !d.MemberHealthUnknown?
    ensures Violates(s, contract, now, d) <==> Says(s, contract, now, d)
  {
    hide Stamp.IsFreshAt;
    if forall k :: k !in s.relationships {
      assert s.relationships == map[];
    }
    if forall f :: f !in s.failureDomains {
      assert s.failureDomains == map[];
    }
  }

  ghost predicate SomeCurrentIsStale(s: Core, now: i64) {
    exists k :: k in s.members && IsCurrent(s.members[k].lifecycle) && !s.members[k].stamp.IsFreshAt(now)
  }

  ghost predicate SomeCurrentLacksHealth(s: Core, now: i64) {
    exists k :: k in s.members && IsCurrent(s.members[k].lifecycle) && !s.members[k].health.stamp.IsFreshAt(now)
  }

  lemma StaleMean(s: Core, now: i64)
    ensures SomeCurrentIsStale(s, now) <==> exists k :: k in s.members && IsStaleMember(s.members[k], now)
    ensures SomeCurrentLacksHealth(s, now) <==> exists k :: k in s.members && LacksHealth(s.members[k], now)
  {
  }

  // ----- The lifecycle -----

  /** Something must be asserted again. */
  ghost predicate AwaitsAssertion(s: Core) {
    || (exists k :: k in s.members && s.members[k].stamp.revalidationRequired)
    || (exists k :: k in s.relationships && s.relationships[k].stamp.revalidationRequired)
    || (exists d :: d in s.failureDomains && s.failureDomains[d].stamp.revalidationRequired)
  }

  /** The member is unavailable, or present with fresh news that it is not well or not ready. */
  predicate IsImpaired(r: MemberRecord, now: i64) {
    || r.lifecycle.Unavailable?
    || (r.lifecycle.Present? && r.health.stamp.IsFreshAt(now) && !r.health.value.Healthy?
      && !r.health.value.NotApplicable?)
    || (r.lifecycle.Present? && r.readiness.stamp.IsFreshAt(now) && r.readiness.value.NotReady?)
  }

  ghost predicate SomeImpaired(s: Core, now: i64) {
    exists k :: k in s.members && IsImpaired(s.members[k], now)
  }

  lemma ImpairedIsDegraded(r: MemberRecord, now: i64)
    ensures IsImpaired(r, now) <==> IsDegradedMember(r, now)
  {
  }

  lemma SomeImpairedMeans(s: Core, now: i64)
    ensures SomeImpaired(s, now) <==> exists k :: k in s.members && IsDegradedMember(s.members[k], now)
  {
    hide IsImpaired, IsDegradedMember;
    forall k | k in s.members {
      ImpairedIsDegraded(s.members[k], now);
    }
  }

  /** Each answer of the lifecycle, as a condition on the records. */
  lemma LifecycleMeans(s: Core, contract: ReadinessContract, now: i64)
    ensures var l := Lifecycle(s, contract, now);
            && (l.Undeclared? <==> s.rack.None?)
            && (l.Retired? <==> s.rack.Some? && s.rack.value.retired)
            && (l.RevalidationRequired? <==> IsLive(s) && AwaitsAssertion(s))
            && (l.Ready? <==>
                  IsLive(s) && !AwaitsAssertion(s) && Satisfied(s, contract, now) && !SomeImpaired(s, now))
            && (l.Degraded? <==>
                  IsLive(s) && !AwaitsAssertion(s) && Satisfied(s, contract, now) && SomeImpaired(s, now))
            && (l.Partial? <==>
                  && IsLive(s) && !AwaitsAssertion(s) && !Satisfied(s, contract, now)
                  && exists k :: k in s.members && IsCurrent(s.members[k].lifecycle))
            && (l.Discovering? <==>
                  && IsLive(s) && !AwaitsAssertion(s) && !Satisfied(s, contract, now)
                  && (exists k :: k in s.members) && forall k :: k in s.members ==> !IsCurrent(s.members[k].lifecycle))
            && (l.Declared? <==>
                  IsLive(s) && !AwaitsAssertion(s) && !Satisfied(s, contract, now) && forall k :: k !in s.members)
  {
    hide Satisfied, IsDegradedMember, SomeImpaired;
    SomeImpairedMeans(s, now);
    AwaitsMeans(s);
    hide NeedsRevalidation, AwaitsAssertion;
    if forall k :: k !in s.members {
      assert s.members == map[];
    }
  }

  lemma AwaitsMeans(s: Core)
    ensures AwaitsAssertion(s) <==> NeedsRevalidation(s)
  {
  }

  // ----- What requests do to the answers -----

  /** After a member was marked unavailable the rack must be revalidated, whatever the contract asks, at any time. */
  lemma UnavailableAwaits(env: Env, s: Core, e: Event, now: i64, contract: ReadinessContract, at: i64)
    requires Regular(s) && e.MarkUnavailable? && Apply(env, s, e, now).outcome.Accepted?
    ensures Lifecycle(Apply(env, s, e, now).state, contract, at) == RackLifecycle.RevalidationRequired
  {
    hide Regular, MarkUnavailableStep, Counted, Satisfied, IsDegradedMember, OthersKept, Stamp.IsFreshAt;
    RegularIsStructured(s);
    UnavailableIsWhatWasMarked(s, e, at);
    AcceptedIsLive(env, s, e, now);
    StepFootprint(env, s, e, now);
    MemberIsThere(s, Apply(env, s, e, now).state, e.member);
    LifecycleMeans(Apply(env, s, e, now).state, contract, at);
  }

  lemma AcceptedIsLive(env: Env, s: Core, e: Event, now: i64)
    requires e.MarkUnavailable? || e.PublishHealth?
    requires Apply(env, s, e, now).outcome.Accepted?
    ensures IsLive(s)
  {
    Facts.GrantMeans(s, e.authority, true);
    hide CheckAuthority, Conclude;
  }

  /** Nothing the contract looks at got worse. */
  ghost predicate StandsAsWell(s: Core, t: Core, now: i64) {
    && t.rack == s.rack && t.relationships == s.relationships && t.failureDomains == s.failureDomains
    && t.power == s.power && t.cooling == s.cooling && t.members.Keys == s.members.Keys
    && (forall k :: k in s.members ==>
          && t.members[k].lifecycle == s.members[k].lifecycle && t.members[k].stamp == s.members[k].stamp
          && t.members[k].failureDomains == s.members[k].failureDomains
          && (s.members[k].health.stamp.IsFreshAt(now) ==> t.members[k].health.stamp.IsFreshAt(now)))
    && forall b :: b in s.publishers && s.publishers[b].state.Active? ==>
         b in t.publishers && t.publishers[b].state.Active?
  }

  lemma StillCounts(s: Core, t: Core, contract: ReadinessContract, now: i64, kind: MemberKind, ks: set<MemberKey>)
    requires StandsAsWell(s, t, now) && AllCount(s, contract, now, kind, ks)
    ensures AllCount(t, contract, now, kind, ks)
  {
    hide Stamp.IsFreshAt;
  }

  lemma StillAtLeast(s: Core, t: Core, contract: ReadinessContract, now: i64, kind: MemberKind, n: nat)
    requires StandsAsWell(s, t, now) && AtLeast(s, contract, now, kind, n)
    ensures AtLeast(t, contract, now, kind, n)
  {
    hide StandsAsWell, AllCount;
    var ks :| |ks| == n && AllCount(s, contract, now, kind, ks);
    StillCounts(s, t, contract, now, kind, ks);
  }

  lemma StillCovered(s: Core, t: Core, contract: ReadinessContract, now: i64, d: Text)
    requires StandsAsWell(s, t, now) && IsCovered(s, contract, now, d)
    ensures IsCovered(t, contract, now, d)
  {
    hide AllCount, Reaches, DomainGraph;
    var k, x :|
      && AllCount(s, contract, now, MemberKind.Node, {k}) && k in s.members
      && x in s.members[k].failureDomains && Reaches(DomainGraph(s.failureDomains), x, d);
    StillCounts(s, t, contract, now, MemberKind.Node, {k});
  }

  lemma StillCoversAtLeast(s: Core, t: Core, contract: ReadinessContract, now: i64, n: nat)
    requires StandsAsWell(s, t, now) && CoversAtLeast(s, contract, now, n)
    ensures CoversAtLeast(t, contract, now, n)
  {
    hide StandsAsWell, IsCovered;
    var ds :| |ds| == n && AllCovered(s, contract, now, ds);
    forall d | d in ds {
      StillCovered(s, t, contract, now, d);
    }
    assert AllCovered(t, contract, now, ds);
  }

  lemma StillSatisfied(s: Core, t: Core, contract: ReadinessContract, now: i64)
    requires StandsAsWell(s, t, now) && Satisfied(s, contract, now)
    ensures Satisfied(t, contract, now)
  {
    hide Satisfied, AtLeast, CoversAtLeast, Stamp.IsFreshAt;
    ContractMeans(s, contract, now);
    ContractMeans(t, contract, now);
    StillAtLeast(s, t, contract, now, MemberKind.Node, contract.minNodes);
    StillAtLeast(s, t, contract, now, MemberKind.Accelerator, contract.minAccelerators);
    StillCoversAtLeast(s, t, contract, now, contract.minDistinctFailureDomains);
  }

  lemma ReportStandsAsWell(s: Core, e: Event, at: i64)
    requires Structured(s) && e.PublishHealth? && HealthStep(s, e).outcome.Accepted? && e.health.stamp.IsFreshAt(at)
    ensures StandsAsWell(s, HealthStep(s, e).state, at)
  {
    hide Structured, HealthStep, Stamp.IsFreshAt, LacksHealth, StandsAsWell, OthersKept, SameButHealth, Counted;
    HealthIsWhatWasPublished(s, e);
    FreshIsEvidence(e.health.stamp, at);
    ReportStands(s, HealthStep(s, e).state, e.authority, e.member, at);
  }

  lemma ReportStands(s: Core, t: Core, token: AuthorityToken, k: MemberKey, at: i64)
    requires k in s.members && OthersKept(s, t, k) && SameButHealth(t.members[k], s.members[k]) && Counted(s, token, t)
    requires t.members[k].health.stamp.IsFreshAt(at)
    ensures StandsAsWell(s, t, at)
  {
    hide Stamp.IsFreshAt;
    assert forall b :: b in s.publishers && s.publishers[b].state.Active? ==>
             b in t.publishers && t.publishers[b].state.Active?;
    hide Counted;
  }

  lemma FreshIsEvidence(stamp: Stamp, at: i64)
    requires stamp.IsFreshAt(at)
    ensures stamp.HasEvidence()
  {
  }

  /**
   * A fresh health report decides between the two: a rack that was ready or degraded is degraded exactly when the report
   * or another member says so, and ready otherwise.
   */
  lemma HealthDecides(env: Env, s: Core, e: Event, now: i64, contract: ReadinessContract, at: i64)
    requires Regular(s) && e.PublishHealth? && e.member in s.members && e.health.stamp.IsFreshAt(at)
    requires Apply(env, s, e, now).outcome.Accepted?
    requires Lifecycle(s, contract, at).Ready? || Lifecycle(s, contract, at).Degraded?
    ensures Lifecycle(Apply(env, s, e, now).state, contract, at)
         == if BadNews(s.members[e.member].lifecycle, e.health.value, NextReadiness(s.members[e.member], e), at)
               || exists k :: k in s.members && k != e.member && IsImpaired(s.members[k], at)
            then RackLifecycle.Degraded else RackLifecycle.Ready
  {
    hide Regular, HealthStep, Satisfied, Stamp.IsFreshAt, Counted, StandsAsWell, SameButHealth, BadNews, IsImpaired,
      AwaitsAssertion, OthersKept;
    RegularIsStructured(s);
    ReportStandsAsWell(s, e, at);
    HealthIsWhatWasPublished(s, e);
    FreshIsEvidence(e.health.stamp, at);
    var t := HealthStep(s, e).state;
    StillSatisfied(s, t, contract, at);
    StillAwaits(s, t, at);
    LifecycleMeans(s, contract, at);
    LifecycleMeans(t, contract, at);
    ReportImpairs(s, t, e, at);
    StandsLive(s, t, at);
  }

  /** After a fresh report that a current member is not well, or not ready, the rack is not ready. */
  lemma BadNewsUnreadies(env: Env, s: Core, e: Event, now: i64, contract: ReadinessContract, at: i64)
    requires Regular(s) && e.PublishHealth? && e.member in s.members && e.health.stamp.IsFreshAt(at)
    requires Apply(env, s, e, now).outcome.Accepted?
    requires BadNews(s.members[e.member].lifecycle, e.health.value, NextReadiness(s.members[e.member], e), at)
    ensures !Lifecycle(Apply(env, s, e, now).state, contract, at).Ready?
  {
    hide Regular, HealthStep, Satisfied, Stamp.IsFreshAt, Counted, SameButHealth, BadNews, IsImpaired, AwaitsAssertion,
      OthersKept;
    RegularIsStructured(s);
    HealthIsWhatWasPublished(s, e);
    FreshIsEvidence(e.health.stamp, at);
    ReportImpairs(s, HealthStep(s, e).state, e, at);
    LifecycleMeans(HealthStep(s, e).state, contract, at);
  }

  function NextReadiness(r: MemberRecord, e: Event): Readiness
    requires e.PublishHealth?
  {
    if e.publishReadiness then e.readiness else r.readiness
  }

  /** The member is unavailable, or present and not well, or present and freshly said not to be ready. */
  predicate BadNews(l: MemberLifecycle, health: HealthState, readiness: Readiness, at: i64) {
    || l.Unavailable?
    || (l.Present? && (health.Unknown? || health.Degraded? || health.Unhealthy?))
    || (l.Present? && readiness.value.NotReady? && readiness.stamp.IsFreshAt(at))
  }

  lemma StandsLive(s: Core, t: Core, at: i64)
    requires StandsAsWell(s, t, at)
    ensures IsLive(s) <==> IsLive(t)
  {
  }

  lemma StillAwaits(s: Core, t: Core, at: i64)
    requires StandsAsWell(s, t, at)
    ensures AwaitsAssertion(s) <==> AwaitsAssertion(t)
  {
    hide Stamp.IsFreshAt;
  }

  lemma ReportImpairs(s: Core, t: Core, e: Event, at: i64)
    requires e.PublishHealth? && e.member in s.members && OthersKept(s, t, e.member) && e.health.stamp.IsFreshAt(at)
    requires t.members[e.member].health == e.health && SameButHealth(t.members[e.member], s.members[e.member])
    requires t.members[e.member].readiness == NextReadiness(s.members[e.member], e)
    ensures SomeImpaired(t, at) <==>
              || BadNews(s.members[e.member].lifecycle, e.health.value, NextReadiness(s.members[e.member], e), at)
              || exists k :: k in s.members && k != e.member && IsImpaired(s.members[k], at)
  {
    hide Stamp.IsFreshAt;
    assert IsImpaired(t.members[e.member], at) <==>
             BadNews(s.members[e.member].lifecycle, e.health.value, NextReadiness(s.members[e.member], e), at);
    hide IsImpaired, BadNews;
  }

  // ----- What is published counts until it is too old or changed -----

  /** The stamp is evidence at this time: not marked, observed, and within its lifetime or without an end. */
  predicate IsInWindow(stamp: Stamp, at: i64) {
    && !stamp.revalidationRequired && !stamp.provenance.Unknown? && stamp.observedAt > 0
    && (|| (stamp.durability.Durable? && stamp.ttl == 0)
        || (stamp.ttl > 0 && 0 < at && stamp.observedAt <= at <= stamp.observedAt + stamp.ttl))
  }

  /** A member published as present counts for the contract exactly within the window of its evidence. */
  lemma PublishedCounts(env: Env, s: Core, e: Event, now: i64, contract: ReadinessContract, at: i64)
    requires e.PublishMember? && e.record.lifecycle.Present? && Apply(env, s, e, now).outcome.Accepted?
    ensures var t := Apply(env, s, e, now).state;
            && e.record.key in t.members
            && (HasCurrentEvidence(t.members[e.record.key], at, contract) <==>
                  && IsInWindow(e.record.stamp, at)
                  && (contract.requirePhysicalProvenance ==>
                        var p := e.record.stamp.provenance; p.Measured? || p.Reported? || p.Derived?))
  {
    hide PublishMemberStep, OthersKept, Counted, SameButEvidence, Stamp.IsFreshAt;
    MemberIsWhatWasPublished(s, env.limits, e, at);
    MemberIsThere(s, Apply(env, s, e, now).state, e.record.key);
    FreshnessWindow(e.record.stamp, at);
  }

  /** It does so at every later point of a run, as long as no request is made that may change it. */
  lemma PublishedCountsOn(env: Env, s: Core, run: seq<Timed>, i: nat, j: nat, contract: ReadinessContract, at: i64)
    requires Regular(s) && i < j <= |run|
    requires run[i].event.PublishMember? && run[i].event.record.lifecycle.Present?
        && StepAt(env, s, run, i).outcome.Accepted?
    requires forall m :: i < m < j ==>
               run[i].event.record.key in At(env, s, run, m).members ==>
                 !MayChange(At(env, s, run, m), run[m].event, StepAt(env, s, run, m).outcome, run[m].now,
                            run[i].event.record.key)
    ensures var t, r := At(env, s, run, j), run[i].event.record;
            && r.key in t.members
            && (HasCurrentEvidence(t.members[r.key], at, contract) <==>
                  && IsInWindow(r.stamp, at)
                  && (contract.requirePhysicalProvenance ==>
                        var p := r.stamp.provenance; p.Measured? || p.Reported? || p.Derived?))
  {
    hide Regular, Apply, MayChange, HasCurrentEvidence, IsInWindow;
    PublishedCounts(env, At(env, s, run, i), run[i].event, run[i].now, contract, at);
    assert At(env, s, run, i + 1) == StepAt(env, s, run, i).state;
    RecordLasts(env, s, run, i + 1, j, run[i].event.record.key);
  }
}
