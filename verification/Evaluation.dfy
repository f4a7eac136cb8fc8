/** Readiness, lifecycle and snapshots as the coordinator computes them, by counting loops over its records. */
module Evaluation {
  import opened Wrappers
  import opened Evidence
  import opened Model
  import opened Ordering
  import opened RackReadiness
  import opened Machine
  import opened State

  /** What the members outside `rest` contribute to the contract. */
  ghost predicate Counted(
    s: Core, contract: ReadinessContract, now: i64, rest: set<MemberKey>, nodes: nat, accelerators: nat,
    covered: set<Text>)
  {
    && nodes == |Qualifying(s, contract, now, MemberKind.Node) - rest|
    && accelerators == |Qualifying(s, contract, now, MemberKind.Accelerator) - rest|
    && covered == CoveredOutside(s, contract, now, rest)
  }

  ghost function CoveredOutside(s: Core, contract: ReadinessContract, now: i64, rest: set<MemberKey>): set<Text> {
    set k, d | k in Qualifying(s, contract, now, MemberKind.Node) && k !in rest && d in DomainsOf(s, k) :: d
  }

  lemma CountingStarts(s: Core, contract: ReadinessContract, now: i64)
    ensures Counted(s, contract, now, s.members.Keys, 0, 0, {})
  {
    hide DomainsOf, HasCurrentEvidence;
    assert Qualifying(s, contract, now, MemberKind.Node) - s.members.Keys == {};
    assert Qualifying(s, contract, now, MemberKind.Accelerator) - s.members.Keys == {};
  }

  lemma CountingEnds(s: Core, contract: ReadinessContract, now: i64, nodes: nat, accelerators: nat, covered: set<Text>)
    requires Counted(s, contract, now, {}, nodes, accelerators, covered)
    ensures nodes == |Qualifying(s, contract, now, MemberKind.Node)|
    ensures accelerators == |Qualifying(s, contract, now, MemberKind.Accelerator)|
    ensures covered == CoveredDomains(s, contract, now)
  {
    hide DomainsOf, HasCurrentEvidence;
    var ns := Qualifying(s, contract, now, MemberKind.Node);
    var accs := Qualifying(s, contract, now, MemberKind.Accelerator);
    assert ns - {} == ns && accs - {} == accs;
  }

  lemma DifferenceWithout<T>(s: set<T>, rest: set<T>, x: T)
    requires x in rest
    ensures s - (rest - {x}) == if x in s then s - rest + {x} else s - rest
    ensures |s - (rest - {x})| == |s - rest| + if x in s then 1 else 0
  {
    assert s - (rest - {x}) == if x in s then s - rest + {x} else s - rest;
  }

  lemma CountOne(
    s: Core, contract: ReadinessContract, now: i64, rest: set<MemberKey>, nodes: nat, accelerators: nat,
    covered: set<Text>, key: MemberKey)
    requires Counted(s, contract, now, rest, nodes, accelerators, covered) && key in rest && key in s.members
    ensures var q := HasCurrentEvidence(s.members[key], now, contract);
            Counted(s, contract, now, rest - {key},
                    if q && key.kind.Node? then nodes + 1 else nodes,
                    if q && key.kind.Accelerator? then accelerators + 1 else accelerators,
                    if q && key.kind.Node? then covered + DomainsOf(s, key) else covered)
  {
    hide DomainsOf, HasCurrentEvidence;
    DifferenceWithout(Qualifying(s, contract, now, MemberKind.Node), rest, key);
    DifferenceWithout(Qualifying(s, contract, now, MemberKind.Accelerator), rest, key);
    var q := HasCurrentEvidence(s.members[key], now, contract) && key.kind.Node?;
    assert key in Qualifying(s, contract, now, MemberKind.Node) <==> q;
    assert CoveredOutside(s, contract, now, rest - {key}) == if q then covered + DomainsOf(s, key) else covered;
  }

  method CountQualifying(state: RackState, contract: ReadinessContract, now: i64)
    returns (nodes: nat, accelerators: nat, covered: set<Text>)
    ensures nodes == |Qualifying(state.Value(), contract, now, MemberKind.Node)|
    ensures accelerators == |Qualifying(state.Value(), contract, now, MemberKind.Accelerator)|
    ensures covered == CoveredDomains(state.Value(), contract, now)
  {
    hide DomainsOf, HasCurrentEvidence, Counted, Qualifying, CoveredDomains, StrictTotal, Ascends;
    ghost var s := state.Value();
    CountingStarts(s, contract, now);
    nodes, accelerators, covered := 0, 0, {};
    var rest := state.members.Keys;
    while rest != {}
      invariant rest <= state.members.Keys && Counted(s, contract, now, rest, nodes, accelerators, covered)
      decreases rest
    {
      var key :| key in rest;
      CountOne(s, contract, now, rest, nodes, accelerators, covered, key);
      if HasCurrentEvidence(state.members[key], now, contract) {
        if key.kind.Node? {
          var domains := state.FailureDomainsOf(key);
          AscendingHolds(DomainsOf(s, key), TextLess);
          assert (set d | d in domains) == DomainsOf(s, key);
          nodes, covered := nodes + 1, covered + set d | d in domains;
        } else if key.kind.Accelerator? {
          accelerators := accelerators + 1;
        }
      }
      rest := rest - {key};
    }
    CountingEnds(s, contract, now, nodes, accelerators, covered);
  }

  method CountStale(members: map<MemberKey, MemberRecord>, now: i64) returns (count: nat)
    ensures count > 0 <==> exists k :: k in members && IsStaleMember(members[k], now)
  {
    hide IsStaleMember;
    count := 0;
    var rest := members.Keys;
    while rest != {}
      invariant rest <= members.Keys
      invariant count > 0 <==> exists k :: k in members && k !in rest && IsStaleMember(members[k], now)
      decreases rest
    {
      var key :| key in rest;
      if IsStaleMember(members[key], now) {
        count := count + 1;
      }
      rest := rest - {key};
    }
  }

  method CountWithoutHealth(members: map<MemberKey, MemberRecord>, now: i64) returns (count: nat)
    ensures count > 0 <==> exists k :: k in members && LacksHealth(members[k], now)
  {
    hide LacksHealth;
    count := 0;
    var rest := members.Keys;
    while rest != {}
      invariant rest <= members.Keys
      invariant count > 0 <==> exists k :: k in members && k !in rest && LacksHealth(members[k], now)
      decreases rest
    {
      var key :| key in rest;
      if LacksHealth(members[key], now) {
        count := count + 1;
      }
      rest := rest - {key};
    }
  }

  /** Lists what the contract still lacks, and nothing else. */
  method EvaluateReadiness(state: RackState, contract: ReadinessContract, now: i64) returns (deficits: seq<Deficit>)
    ensures forall d :: d in deficits <==> Violates(state.Value(), contract, now, d)
    ensures deficits == [] <==> Satisfied(state.Value(), contract, now)
  {
    hide Qualifying, CoveredDomains, IsStaleMember, LacksHealth, Stamp.IsFreshAt;
    if state.rack.None? {
      assert Violates(state.Value(), contract, now, RackNotDeclared);
      return [RackNotDeclared];
    }
    if state.rack.value.retired {
      assert Violates(state.Value(), contract, now, RackIsRetired);
      return [RackIsRetired];
    }
    var counts := CountDeficits(state, contract, now);
    var members := MemberDeficits(state, contract, now);
    var rest := PlantDeficits(state, contract, now);
    deficits := counts + members + rest;
    forall d
      ensures d in deficits <==> Violates(state.Value(), contract, now, d)
    {
      assert d in deficits <==> d in counts || d in members || d in rest;
    }
    if deficits != [] {
      assert deficits[0] in deficits;
    }
  }

  method CountDeficits(state: RackState, contract: ReadinessContract, now: i64) returns (deficits: seq<Deficit>)
    ensures forall d :: d in deficits <==>
              || (d.InsufficientNodes?
                  && |Qualifying(state.Value(), contract, now, MemberKind.Node)| < contract.minNodes)
              || (d.InsufficientAccelerators?
                  && |Qualifying(state.Value(), contract, now, MemberKind.Accelerator)| < contract.minAccelerators)
              || (d.InsufficientFailureDomains?
                  && |CoveredDomains(state.Value(), contract, now)| < contract.minDistinctFailureDomains)
  {
    hide Qualifying, CoveredDomains;
    var nodes, accelerators, covered := CountQualifying(state, contract, now);
    deficits := [];
    if nodes < contract.minNodes {
      deficits := deficits + [InsufficientNodes];
    }
    if accelerators < contract.minAccelerators {
      deficits := deficits + [InsufficientAccelerators];
    }
    if |covered| < contract.minDistinctFailureDomains {
      deficits := deficits + [InsufficientFailureDomains];
    }
  }

  method MemberDeficits(state: RackState, contract: ReadinessContract, now: i64) returns (deficits: seq<Deficit>)
    ensures forall d :: d in deficits <==>
              || (d.MembersNotCurrent? && contract.requireAllMembersCurrent
                  && exists k :: k in state.members && IsStaleMember(state.members[k], now))
              || (d.MemberHealthUnknown? && contract.requireMemberHealth
                  && exists k :: k in state.members && LacksHealth(state.members[k], now))
              || (d.TopologyRequired? && contract.requireTopology && state.relationships == map[])
              || (d.FailureDomainsRequired? && contract.requireFailureDomains && state.failureDomains == map[])
  {
    hide IsStaleMember, LacksHealth;
    deficits := [];
    if contract.requireAllMembersCurrent {
      var stale := CountStale(state.members, now);
      if stale > 0 {
        deficits := deficits + [MembersNotCurrent];
      }
    }
    if contract.requireMemberHealth {
      var missing := CountWithoutHealth(state.members, now);
      if missing > 0 {
        deficits := deficits + [MemberHealthUnknown];
      }
    }
    if contract.requireTopology && state.relationships == map[] {
      deficits := deficits + [TopologyRequired];
    }
    if contract.requireFailureDomains && state.failureDomains == map[] {
      deficits := deficits + [FailureDomainsRequired];
    }
  }

  method PlantDeficits(state: RackState, contract: ReadinessContract, now: i64) returns (deficits: seq<Deficit>)
    ensures forall d :: d in deficits <==>
              || (d.PowerEnvelopeRequired? && contract.requirePowerEnvelope && state.power.None?)
              || (d.PowerEnvelopeNotCurrent? && contract.requirePowerEnvelope && state.power.Some?
                  && !state.power.value.stamp.IsFreshAt(now))
              || (d.CoolingEnvelopeRequired? && contract.requireCoolingEnvelope && state.cooling.None?)
              || (d.CoolingEnvelopeNotCurrent? && contract.requireCoolingEnvelope && state.cooling.Some?
                  && !state.cooling.value.stamp.IsFreshAt(now))
              || (d.NoActivePublisher? && contract.requireActivePublisher
                  && forall b :: b in state.publishers ==> !state.publishers[b].state.Active?)
  {
    hide Stamp.IsFreshAt;
    deficits := [];
    if contract.requirePowerEnvelope {
      if state.power.None? {
        deficits := deficits + [PowerEnvelopeRequired];
      } else if !state.power.value.stamp.IsFreshAt(now) {
        deficits := deficits + [PowerEnvelopeNotCurrent];
      }
    }
    if contract.requireCoolingEnvelope {
      if state.cooling.None? {
        deficits := deficits + [CoolingEnvelopeRequired];
      } else if !state.cooling.value.stamp.IsFreshAt(now) {
        deficits := deficits + [CoolingEnvelopeNotCurrent];
      }
    }
    var anyActive := exists b :: b in state.publishers && state.publishers[b].state.Active?;
    if contract.requireActivePublisher && !anyActive {
      deficits := deficits + [NoActivePublisher];
    }
  }

  method DeriveLifecycle(state: RackState, contract: ReadinessContract, now: i64) returns (lifecycle: RackLifecycle)
    ensures lifecycle == Lifecycle(state.Value(), contract, now)
  {
    hide IsDegradedMember, Violates, Satisfied;
    if state.rack.None? {
      return RackLifecycle.Undeclared;
    }
    if state.rack.value.retired {
      return RackLifecycle.Retired;
    }
    if NeedsRevalidation(state.Value()) {
      return RackLifecycle.RevalidationRequired;
    }
    var deficits := EvaluateReadiness(state, contract, now);
    if deficits == [] {
      var degraded := exists k :: k in state.members && IsDegradedMember(state.members[k], now);
      return if degraded then RackLifecycle.Degraded else RackLifecycle.Ready;
    }
    if state.members == map[] {
      return RackLifecycle.Declared;
    }
    var anyPresent := exists k :: k in state.members && IsCurrentMember(state.members[k].lifecycle);
    lifecycle := if anyPresent then RackLifecycle.Partial else RackLifecycle.Discovering;
  }

  /** Copies the records in key order, binds the generations and seals them with the digest. */
  method TakeSnapshot(env: Env, state: RackState, id: Text, generation: u64, publication: u64, now: i64)
    returns (snapshot: RackSnapshot)
    requires state.rack.Some?
    ensures snapshot == BuildSnapshot(env, state.Value(), id, generation, publication, now)
  {
    hide Lifecycle, StrictTotal, Ascends, InOrder, MemberLess, RelationshipLess, TextLess;
    MemberOrder();
    RelationshipOrder();
    TextOrder();
    var lifecycle := DeriveLifecycle(state, env.contract, now);
    var members := ListInOrder(state.members, MemberLess);
    var relationships := ListInOrder(state.relationships, RelationshipLess);
    var domains := ListInOrder(state.failureDomains, TextLess);
    snapshot := RackSnapshot(
      id, generation, publication, now, state.rack.value.id, state.rack.value.epoch, state.generations, lifecycle,
      members, relationships, domains, state.power, state.cooling, "");
    snapshot := snapshot.(digest := env.digest(snapshot));
  }
}
