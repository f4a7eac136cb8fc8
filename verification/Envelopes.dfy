/** What an accepted envelope stores: the sent readings, and headroom derived from those that are current. */
module Envelopes {
  import opened Wrappers
  import opened Evidence
  import opened Model
  import opened Ordering
  import opened Machine
  import Facts = Progress
  import opened Effects
  import opened Contents

  // ----- Headroom -----

  function Later(a: Quantity, b: Quantity): i64 {
    if a.stamp.observedAt < b.stamp.observedAt then b.stamp.observedAt else a.stamp.observedAt
  }

  function Shorter(a: Quantity, b: Quantity): i64 {
    if b.stamp.ttl < a.stamp.ttl then b.stamp.ttl else a.stamp.ttl
  }

  /** Headroom is there exactly when both inputs are, current and in one unit, and their difference is not below zero. */
  predicate IsHeadroom(env: Env, h: Option<Quantity>, limit: Option<Quantity>, load: Option<Quantity>, now: i64) {
    && (h.Some? <==>
          && limit.Some? && load.Some? && limit.value.unit == load.value.unit
          && limit.value.stamp.IsFreshAt(now) && load.value.stamp.IsFreshAt(now)
          && !IsNotANumber(env.subtract(limit.value.value, load.value.value))
          && !IsNegative(env.subtract(limit.value.value, load.value.value)))
    && (h.Some? ==>
          && h.value.value == env.subtract(limit.value.value, load.value.value)
          && h.value.unit == limit.value.unit && h.value.uncertainty.None?
          && h.value.stamp == Stamp(Derived, Later(limit.value, load.value), Shorter(limit.value, load.value),
            Ephemeral, false))
  }

  lemma HeadroomIsDerived(env: Env, limit: Option<Quantity>, load: Option<Quantity>, now: i64)
    ensures IsHeadroom(env, Headroom(env, limit, load, now), limit, load, now)
  {
    hide Stamp.IsFreshAt, IsNotANumber, IsNegative;
  }

  /** Headroom is fresh from the later observation on, for the shorter lifetime; never when an input has none. */
  lemma HeadroomWindow(env: Env, limit: Quantity, load: Quantity, now: i64, at: i64)
    requires Headroom(env, Some(limit), Some(load), now).Some?
    ensures Headroom(env, Some(limit), Some(load), now).value.stamp.IsFreshAt(at) <==>
              && limit.stamp.ttl > 0 && load.stamp.ttl > 0
              && Later(limit, load) <= at <= Later(limit, load) + Shorter(limit, load)
  {
    HeadroomIsDerived(env, Some(limit), Some(load), now);
    FreshnessWindow(limit.stamp, now);
    FreshnessWindow(load.stamp, now);
    FreshnessWindow(Headroom(env, Some(limit), Some(load), now).value.stamp, at);
    hide Headroom, Stamp.IsFreshAt;
  }

  /** Headroom is fresh when one of its inputs is not, exactly between the end of the first input and its own. */
  lemma HeadroomOutlivesIff(env: Env, limit: Quantity, load: Quantity, now: i64, at: i64)
    requires Headroom(env, Some(limit), Some(load), now).Some? && limit.stamp.ttl > 0 && load.stamp.ttl > 0
    ensures var h := Headroom(env, Some(limit), Some(load), now).value;
            h.stamp.IsFreshAt(at) && !(limit.stamp.IsFreshAt(at) && load.stamp.IsFreshAt(at)) <==>
              && (limit.stamp.observedAt + limit.stamp.ttl < at || load.stamp.observedAt + load.stamp.ttl < at)
              && at <= Later(limit, load) + Shorter(limit, load)
  {
    HeadroomIsDerived(env, Some(limit), Some(load), now);
    HeadroomWindow(env, limit, load, now, at);
    FreshnessWindow(limit.stamp, now);
    FreshnessWindow(load.stamp, now);
    FreshnessWindow(limit.stamp, at);
    FreshnessWindow(load.stamp, at);
    hide Headroom, Stamp.IsFreshAt;
  }

  /** It does: a limit observed at 1 s for 10 s and a load observed at 10 s leave headroom that is fresh at 15 s. */
  lemma HeadroomCanOutlive(env: Env, limit: u64, load: u64, unit: QuantityUnit, p: Provenance)
    requires !p.Unknown? && !IsNotANumber(env.subtract(limit, load)) && !IsNegative(env.subtract(limit, load))
    ensures var a := Quantity(limit, unit, None, Stamp(p, 1000, 10000, Ephemeral, false));
            var h := Headroom(env, Some(a), Some(Quantity(load, unit, None, Stamp(p, 10000, 60000, Ephemeral,
              false))), 10000);
            h.Some? && h.value.stamp.IsFreshAt(15000) && !a.stamp.IsFreshAt(15000)
              && IsPhysical(h.value.stamp.provenance)
  {
    var a := Quantity(limit, unit, None, Stamp(p, 1000, 10000, Ephemeral, false));
    var b := Quantity(load, unit, None, Stamp(p, 10000, 60000, Ephemeral, false));
    HeadroomIsDerived(env, Some(a), Some(b), 10000);
    assert Headroom(env, Some(a), Some(b), 10000).Some?;
    HeadroomOutlivesIff(env, a, b, 10000, 15000);
    hide Headroom, IsNotANumber, IsNegative;
  }

  // ----- Power -----

  /** The envelope is stored as it was sent, under the next generation, confirmed anew, with derived headroom. */
  ghost predicate StoresPower(env: Env, s: Core, t: Core, token: AuthorityToken, sent: PowerEnvelope, now: i64) {
    && t == Around(s, t).(power := t.power) && Counted(s, token, t) && t.power.Some? && s.generations.power < U64_MAX
    && t.generations == s.generations.(power := s.generations.power + 1,
      constraints := Advance(s.generations.constraints))
    && var p := t.power.value;
       && OwnedBy(s, token, p.ownerBoot, p.ownerWorker, sent.ownerBoot, sent.ownerWorker)
       && p == sent.(generation := t.generations.power, stamp := sent.stamp.(revalidationRequired := false),
                     ownerBoot := p.ownerBoot, ownerWorker := p.ownerWorker,
                     rackHeadroom := p.rackHeadroom, domainBudgets := p.domainBudgets)
       && IsHeadroom(env, p.rackHeadroom, sent.rackLimit, sent.rackObservedDraw, now)
       && |p.domainBudgets| == |sent.domainBudgets|
       && forall i :: 0 <= i < |sent.domainBudgets| ==>
            var b := p.domainBudgets[i];
            && b == sent.domainBudgets[i].(headroom := b.headroom)
            && IsHeadroom(env, b.headroom, b.limit, b.observedDraw, now)
  }

  lemma PowerIsDerived(env: Env, p: PowerEnvelope, now: i64)
    ensures var d := DerivedPower(env, p, now);
            && d == p.(rackHeadroom := d.rackHeadroom, domainBudgets := d.domainBudgets)
            && IsHeadroom(env, d.rackHeadroom, p.rackLimit, p.rackObservedDraw, now)
            && |d.domainBudgets| == |p.domainBudgets|
            && forall i :: 0 <= i < |p.domainBudgets| ==>
                 && d.domainBudgets[i] == p.domainBudgets[i].(headroom := d.domainBudgets[i].headroom)
                 && IsHeadroom(env, d.domainBudgets[i].headroom, p.domainBudgets[i].limit,
                   p.domainBudgets[i].observedDraw, now)
  {
    hide Headroom, IsHeadroom;
    HeadroomIsDerived(env, p.rackLimit, p.rackObservedDraw, now);
    forall i | 0 <= i < |p.domainBudgets| {
      HeadroomIsDerived(env, p.domainBudgets[i].limit, p.domainBudgets[i].observedDraw, now);
    }
  }

  lemma PowerIsWhatWasPublished(env: Env, s: Core, e: Event, now: i64)
    requires e.PublishPower? && PowerStep(env, s, e, now).outcome.Accepted?
    ensures StoresPower(env, s, PowerStep(env, s, e, now).state, e.authority, e.power, now)
  {
    hide CheckAuthority, AdvancePublication, Conclude, Counted, JudgePower, DerivedPower, IsHeadroom;
    Facts.GrantMeans(s, e.authority, true);
    var a := CheckAuthority(s, e.authority, true);
    assert a.Granted?;
    var g := s.generations;
    OnlyAccepted(s, a.publisher, JudgePower(s, e), CommitPower(env, s, e.authority, a.publisher, e.power, now));
    PowerHasRoom(s, e);
    OwnersMean(s, e.authority, a.publisher, e.power.ownerBoot, e.power.ownerWorker);
    var c := e.power.(generation := Advance(g.power), stamp := e.power.stamp.(revalidationRequired := false),
                      ownerBoot := OwnerOf(e.authority.boot, e.power.ownerBoot),
                      ownerWorker := WorkerOf(s, a.publisher, e.power.ownerWorker));
    PowerIsDerived(env, c, now);
    var u := s.(power := Some(DerivedPower(env, c, now)),
                generations := g.(power := Advance(g.power), constraints := Advance(g.constraints)));
    EndingKeepsRecords(u, a.publisher);
    EndingIsCounted(s, e.authority, u, a.publisher);
    hide OwnedBy, OwnerOf, WorkerOf;
  }

  lemma PowerHasRoom(s: Core, e: Event)
    requires e.PublishPower? && JudgePower(s, e).Accepted?
    ensures s.generations.power < U64_MAX
  {
  }

  // ----- Cooling -----

  /** The zones of one name, in the order they are listed, without headroom. */
  function ZonesNamed(zones: seq<CoolingZone>, name: Text): seq<CoolingZone> {
    if zones == [] then []
    else if zones[0].zone == name then [zones[0].(thermalHeadroom := None)] + ZonesNamed(zones[1..], name)
    else ZonesNamed(zones[1..], name)
  }

  predicate InNameOrder(zones: seq<CoolingZone>) {
    forall i, j :: 0 <= i < j < |zones| ==> !TextLess(zones[j].zone, zones[i].zone)
  }

  lemma {:induction false} InsertIsStable(z: CoolingZone, zones: seq<CoolingZone>, name: Text)
    requires InNameOrder(zones)
    ensures ZonesNamed(InsertZone(z, zones), name) == ZonesNamed([z] + zones, name)
    ensures InNameOrder(InsertZone(z, zones))
    ensures forall x :: x in InsertZone(z, zones) ==> x == z || x in zones
  {
    TextOrder();
    hide TextLess;
    if zones != [] && TextLess(zones[0].zone, z.zone) {
      var rest := InsertZone(z, zones[1..]);
      InsertIsStable(z, zones[1..], name);
      assert InsertZone(z, zones) == [zones[0]] + rest;
      assert ([zones[0]] + rest)[1..] == rest && ([z] + zones)[1..] == zones && ([z] + zones[1..])[1..] == zones[1..];
      assert zones[0].zone != z.zone;
      forall j | 0 <= j < |rest|
        ensures !TextLess(rest[j].zone, zones[0].zone)
      {
        assert rest[j] in rest;
      }
    }
  }

  /** Sorting orders the zones by name and keeps those of one name as they were. */
  lemma {:induction false} SortIsStable(zones: seq<CoolingZone>, name: Text)
    ensures ZonesNamed(SortZones(zones), name) == ZonesNamed(zones, name) && InNameOrder(SortZones(zones))
  {
    hide InNameOrder, InsertZone;
    if zones != [] {
      SortIsStable(zones[1..], name);
      InsertIsStable(zones[0], SortZones(zones[1..]), name);
      var sorted := SortZones(zones[1..]);
      assert ([zones[0]] + sorted)[1..] == sorted;
    } else {
      EmptyIsInOrder();
    }
  }

  lemma EmptyIsInOrder()
    ensures InNameOrder([])
  {
  }

  lemma {:induction false} HeadroomKeepsNames(a: seq<CoolingZone>, b: seq<CoolingZone>, name: Text)
    requires |a| == |b| && forall i :: 0 <= i < |a| ==> b[i] == a[i].(thermalHeadroom := b[i].thermalHeadroom)
    ensures ZonesNamed(a, name) == ZonesNamed(b, name)
    ensures InNameOrder(a) ==> InNameOrder(b)
  {
    hide TextLess;
    if a != [] {
      HeadroomKeepsNames(a[1..], b[1..], name);
    }
  }

  /** The envelope is stored as it was sent, its zones sorted by name, with derived headroom for each. */
  ghost predicate StoresCooling(env: Env, s: Core, t: Core, token: AuthorityToken, sent: CoolingEnvelope, now: i64) {
    && t == Around(s, t).(cooling := t.cooling) && Counted(s, token, t) && t.cooling.Some?
      && s.generations.cooling < U64_MAX
    && t.generations
       == s.generations.(cooling := s.generations.cooling + 1, constraints := Advance(s.generations.constraints))
    && var c := t.cooling.value;
       && OwnedBy(s, token, c.ownerBoot, c.ownerWorker, sent.ownerBoot, sent.ownerWorker)
       && c == sent.(generation := t.generations.cooling, stamp := sent.stamp.(revalidationRequired := false),
                     ownerBoot := c.ownerBoot, ownerWorker := c.ownerWorker, zones := c.zones)
       && |c.zones| == |sent.zones| && InNameOrder(c.zones)
       && (forall name :: ZonesNamed(c.zones, name) == ZonesNamed(sent.zones, name))
       && forall z :: z in c.zones ==> IsHeadroom(env, z.thermalHeadroom, z.coolingCapacity, z.designThermalLimit, now)
  }

  lemma CoolingIsDerived(env: Env, c: CoolingEnvelope, sent: seq<CoolingZone>, now: i64)
    requires c.zones == SortZones(sent)
    ensures var d := DerivedCooling(env, c, now);
            && d == c.(zones := d.zones) && |d.zones| == |sent| && InNameOrder(d.zones)
            && (forall name :: ZonesNamed(d.zones, name) == ZonesNamed(sent, name))
            && forall z :: z in d.zones ==> IsHeadroom(env, z.thermalHeadroom, z.coolingCapacity,
              z.designThermalLimit, now)
  {
    hide Headroom, IsHeadroom, SortZones, InNameOrder, ZonesNamed;
    var d := DerivedCooling(env, c, now);
    forall i | 0 <= i < |c.zones| {
      HeadroomIsDerived(env, c.zones[i].coolingCapacity, c.zones[i].designThermalLimit, now);
    }
    forall name
      ensures ZonesNamed(d.zones, name) == ZonesNamed(sent, name) && InNameOrder(d.zones)
    {
      SortIsStable(sent, name);
      HeadroomKeepsNames(c.zones, d.zones, name);
    }
    assert ZonesNamed(d.zones, []) == ZonesNamed(sent, []);
  }

  lemma CoolingIsWhatWasPublished(env: Env, s: Core, e: Event, now: i64)
    requires e.PublishCooling? && CoolingStep(env, s, e, now).outcome.Accepted?
    ensures StoresCooling(env, s, CoolingStep(env, s, e, now).state, e.authority, e.cooling, now)
  {
    hide CheckAuthority, AdvancePublication, Conclude, Counted, JudgeCooling, DerivedCooling, IsHeadroom, SortZones,
      InNameOrder,
      ZonesNamed;
    Facts.GrantMeans(s, e.authority, true);
    var a := CheckAuthority(s, e.authority, true);
    assert a.Granted?;
    var g := s.generations;
    OnlyAccepted(s, a.publisher, JudgeCooling(s, e), CommitCooling(env, s, e.authority, a.publisher, e.cooling, now));
    CoolingHasRoom(s, e);
    OwnersMean(s, e.authority, a.publisher, e.cooling.ownerBoot, e.cooling.ownerWorker);
    var c := e.cooling.(generation := Advance(g.cooling), zones := SortZones(e.cooling.zones),
                        stamp := e.cooling.stamp.(revalidationRequired := false),
                        ownerBoot := OwnerOf(e.authority.boot, e.cooling.ownerBoot),
                        ownerWorker := WorkerOf(s, a.publisher, e.cooling.ownerWorker));
    CoolingIsDerived(env, c, e.cooling.zones, now);
    var u := s.(cooling := Some(DerivedCooling(env, c, now)),
                generations := g.(cooling := Advance(g.cooling), constraints := Advance(g.constraints)));
    EndingKeepsRecords(u, a.publisher);
    EndingIsCounted(s, e.authority, u, a.publisher);
    hide OwnedBy, OwnerOf, WorkerOf;
  }

  lemma CoolingHasRoom(s: Core, e: Event)
    requires e.PublishCooling? && JudgeCooling(s, e).Accepted?
    ensures s.generations.cooling < U64_MAX
  {
    hide JudgeZones;
  }
}
