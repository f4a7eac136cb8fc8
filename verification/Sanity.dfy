/** What a reader asks of a state and a writer does not, record by record: valid identities and lifetimes within a day. */
module Sanity {
  import opened Wrappers
  import opened Evidence
  import opened Model
  import opened Ordering
  import opened Codec
  import opened Streams
  import opened Enumerators
  import opened Records
  import opened Layouts
  import opened StateCodec
  import opened StateStreams
  import opened Shapes

  // ----- The records -----

  predicate Timely(x: Stamp) { 0 <= x.ttl <= MAX_TTL }

  predicate Named(id: Option<Text>) { id.Some? ==> IsIdentity(id.value) }

  predicate AllNamed(ids: seq<Text>) { forall i :: 0 <= i < |ids| ==> IsIdentity(ids[i]) }

  predicate SaneQuantity(q: Option<Quantity>) { q.Some? ==> Timely(q.value.stamp) }

  /** An attribute: an identity is valid, a code is known, a quantity has a valid lifetime. */
  predicate SaneField(s: Schema, f: Field) {
    match f
    case Absent => true
    case TextField(t) => s == Opt(Id) ==> IsIdentity(t)
    case NumberField(n) => s.Opt? && s.item.Word? ==> n <= s.item.max
    case QuantityField(q) => s == Opt(QUANTITY) ==> Timely(q.stamp)
  }

  predicate SaneDetails(d: MemberDetails) {
    d.Details? ==>
      var fields := DetailFields(Code(KINDS, d.kind));
      forall i :: 0 <= i < |fields| && i < |d.fields| ==> SaneField(fields[i], d.fields[i])
  }

  predicate SaneCapability(c: CapabilityRef) { IsIdentity(c.id) && Timely(c.stamp) }

  predicate SaneObservations(r: MemberRecord) {
    Timely(r.health.stamp) && Timely(r.readiness.stamp) && Timely(r.reachability.stamp)
  }

  predicate SaneReferences(r: MemberRecord) {
    && (r.parent.Some? ==> IsIdentity(r.parent.value.id)) && AllNamed(r.failureDomains)
    && Named(r.powerDomain) && Named(r.coolingDomain) && Named(r.switchDomain)
  }

  predicate SaneMember(r: MemberRecord) {
    && IsIdentity(r.key.id) && Timely(r.stamp) && Named(r.ownerWorker) && Named(r.ownerBoot)
    && SaneReferences(r) && SaneObservations(r)
    && (forall i :: 0 <= i < |r.capabilities| ==> SaneCapability(r.capabilities[i]))
    && SaneDetails(r.details)
  }

  predicate SaneRelationship(r: RelationshipRecord) {
    && IsIdentity(r.key.from.id) && IsIdentity(r.key.to.id) && Timely(r.stamp)
    && Named(r.ownerWorker) && Named(r.ownerBoot) && Named(r.link) && SaneQuantity(r.capacity)
  }

  predicate SaneDomain(d: FailureDomainRecord) {
    IsIdentity(d.id) && AllNamed(d.parents) && Timely(d.stamp) && Named(d.ownerWorker) && Named(d.ownerBoot)
  }

  predicate SaneBudget(b: PowerDomainBudget) {
    IsIdentity(b.domain) && SaneQuantity(b.limit) && SaneQuantity(b.observedDraw) && SaneQuantity(b.headroom)
  }

  predicate SanePower(p: Option<PowerEnvelope>) {
    p.Some? ==>
      && SaneQuantity(p.value.rackLimit) && SaneQuantity(p.value.rackObservedDraw) && SaneQuantity(p.value.rackHeadroom)
      && (forall i :: 0 <= i < |p.value.domainBudgets| ==> SaneBudget(p.value.domainBudgets[i]))
      && Timely(p.value.stamp) && Named(p.value.ownerWorker) && Named(p.value.ownerBoot)
  }

  predicate SaneZone(z: CoolingZone) {
    && IsIdentity(z.zone) && SaneQuantity(z.designThermalLimit) && SaneQuantity(z.observedTemperature)
    && SaneQuantity(z.coolingCapacity) && SaneQuantity(z.thermalHeadroom)
    && (z.throttling.Some? ==> Timely(z.throttling.value.stamp))
  }

  predicate SaneCooling(c: Option<CoolingEnvelope>) {
    c.Some? ==>
      && (forall i :: 0 <= i < |c.value.zones| ==> SaneZone(c.value.zones[i]))
      && Timely(c.value.stamp) && Named(c.value.ownerWorker) && Named(c.value.ownerBoot)
  }

  predicate SaneRack(r: Option<RackRecord>) { r.Some? ==> IsIdentity(r.value.id) && IsIdentity(r.value.epoch) }

  predicate SanePublisher(p: PublisherRecord) { IsIdentity(p.worker) && IsIdentity(p.boot) }

  predicate SaneFenced(f: FencedBootRecord) { IsIdentity(f.boot) && Named(f.worker) }

  predicate SaneSnapshot(x: RackSnapshot) {
    && IsIdentity(x.id) && IsIdentity(x.rack) && IsIdentity(x.rackEpoch)
    && (forall i :: 0 <= i < |x.members| ==> SaneMember(x.members[i]))
    && (forall i :: 0 <= i < |x.relationships| ==> SaneRelationship(x.relationships[i]))
    && (forall i :: 0 <= i < |x.failureDomains| ==> SaneDomain(x.failureDomains[i]))
    && SanePower(x.power) && SaneCooling(x.cooling)
  }

  /** Every record of the state is sane. */
  ghost predicate SaneRecords(s: Core) {
    && SaneRack(s.rack)
    && (forall k :: k in s.members ==> SaneMember(s.members[k]))
    && (forall k :: k in s.relationships ==> SaneRelationship(s.relationships[k]))
    && (forall d :: d in s.failureDomains ==> SaneDomain(s.failureDomains[d]))
    && SanePower(s.power) && SaneCooling(s.cooling)
    && (forall b :: b in s.publishers ==> SanePublisher(s.publishers[b]))
    && (forall b :: b in s.fencedBoots ==> SaneFenced(s.fencedBoots[b]))
    && forall g :: g in s.snapshots ==> SaneSnapshot(s.snapshots[g])
  }

  // ----- Their layouts -----

  lemma SaneRec(fields: seq<Schema>, vs: seq<Value>)
    requires |fields| == |vs|
    ensures Sane(Rec(fields), Tuple(vs)) <==> forall i :: 0 <= i < |fields| ==> Sane(fields[i], vs[i])
  {
  }

  lemma SaneList<T(!new)>(max: nat, s: Schema, xs: seq<T>, to: T -> Value)
    ensures Sane(List(max, s), FromSeq(xs, to)) <==> forall i {:trigger xs[i]} :: 0 <= i < |xs| ==> Sane(s, to(xs[i]))
  {
    var v := FromSeq(xs, to);
    assert |v.vs| == |xs| && forall i :: 0 <= i < |xs| ==> v.vs[i] == to(xs[i]);
  }

  lemma SaneOption<T(!new)>(s: Schema, x: Option<T>, to: T -> Value)
    ensures Sane(Opt(s), FromOption(x, to)) <==> (x.Some? ==> Sane(s, to(x.value)))
    ensures Sane(Lenient(s), FromOption(x, to)) <==> (x.Some? ==> Sane(s, to(x.value)))
  {
  }

  lemma SaneScalars()
    ensures forall b {:trigger FromFlag(b)} :: Sane(Flag, FromFlag(b))
    ensures forall n {:trigger FromLong(n)} :: Sane(Long, FromLong(n))
    ensures forall i: i64 {:trigger FromInt(i)} :: Sane(Signed, FromInt(i)) && (Sane(Ttl, FromInt(i)) <==> 0 <= i <= MAX_TTL)
    ensures forall t {:trigger FromText(t)} :: Sane(Str, FromText(t)) && (Sane(Id, FromText(t)) <==> IsIdentity(t))
    ensures forall o {:trigger FromOption(o, FromLong)} :: Sane(Opt(Long), FromOption(o, FromLong))
    ensures forall o {:trigger FromOption(o, FromText)} ::
              Sane(Opt(Str), FromOption(o, FromText)) && (Sane(Opt(Id), FromOption(o, FromText)) <==> Named(o))
  {
    hide IsIdentity;
  }

  lemma CodeIsKnown<T(!new)>(table: seq<T>, max: nat)
    requires Codes(table) && |table| == max + 1
    ensures forall x: T {:trigger FromCode(table, x)} :: Sane(Enum(max), FromCode(table, x))
    ensures forall x: T {:trigger Code(table, x)} :: Code(table, x) <= max
  {
    forall x: T
      ensures Code(table, x) <= max
    {
      assert Pick(table, Num(Code(table, x))) == x;
    }
  }

  lemma StampIsSane()
    ensures forall x {:trigger FromStamp(x)} :: Sane(STAMP, FromStamp(x)) <==> Timely(x)
  {
    hide Sane, FromFlag, FromInt, FromCode, Codes;
    forall x
      ensures Sane(STAMP, FromStamp(x)) <==> Timely(x)
    {
      SaneScalars();
      StampCodes();
      CodeIsKnown(PROVENANCES, 6);
      CodeIsKnown(DURABILITIES, 1);
      SaneRec(STAMP_FIELDS, FromStamp(x).vs);
      assert STAMP_FIELDS[2] == Ttl;
    }
  }

  lemma QuantityIsSane()
    ensures forall x {:trigger FromQuantity(x)} :: Sane(QUANTITY, FromQuantity(x)) <==> Timely(x.stamp)
    ensures forall o {:trigger FromOption(o, FromQuantity)} ::
              Sane(Opt(QUANTITY), FromOption(o, FromQuantity)) <==> SaneQuantity(o)
  {
    hide Sane, FromFlag, FromInt, FromCode, Codes, FromLong, FromOption;
    forall x
      ensures Sane(QUANTITY, FromQuantity(x)) <==> Timely(x.stamp)
    {
      SaneScalars();
      AllCodes();
      CodeIsKnown(UNITS, 9);
      CodeIsKnown(PROVENANCES, 6);
      CodeIsKnown(DURABILITIES, 1);
      SaneRec(QUANTITY_FIELDS, FromQuantity(x).vs);
      assert QUANTITY_FIELDS[5] == Ttl;
    }
    hide FromQuantity;
    forall o
      ensures Sane(Opt(QUANTITY), FromOption(o, FromQuantity)) <==> SaneQuantity(o)
    {
      SaneOption(QUANTITY, o, FromQuantity);
    }
  }

  lemma KeyIsSane()
    ensures forall x {:trigger FromKey(x)} :: Sane(KEY, FromKey(x)) <==> IsIdentity(x.id)
    ensures forall o {:trigger FromOption(o, FromKey)} ::
              Sane(Opt(KEY), FromOption(o, FromKey)) <==> (o.Some? ==> IsIdentity(o.value.id))
  {
    hide Sane, FromCode, Codes, FromText, IsIdentity, FromOption;
    forall x
      ensures Sane(KEY, FromKey(x)) <==> IsIdentity(x.id)
    {
      SaneScalars();
      KindCodes();
      CodeIsKnown(KINDS, 9);
      SaneRec(KEY_FIELDS, FromKey(x).vs);
      assert KEY_FIELDS[1] == Id;
    }
    hide FromKey;
    forall o
      ensures Sane(Opt(KEY), FromOption(o, FromKey)) <==> (o.Some? ==> IsIdentity(o.value.id))
    {
      SaneOption(KEY, o, FromKey);
    }
  }

  lemma EvidenceIsSane(h: Health, r: Readiness, q: Reachability, t: Throttling)
    ensures Sane(HEALTH, FromHealth(h)) <==> Timely(h.stamp)
    ensures Sane(READINESS, FromReadiness(r)) <==> Timely(r.stamp)
    ensures Sane(REACHABILITY, FromReachability(q)) <==> Timely(q.stamp)
    ensures Sane(THROTTLING, FromThrottling(t)) <==> Timely(t.stamp)
  {
    hide Sane, FromCode, Codes, FromStamp;
    StampIsSane();
    AllCodes();
    CodeIsKnown(HEALTH_STATES, 4);
    CodeIsKnown(READINESS_STATES, 2);
    CodeIsKnown(REACHABILITY_STATES, 2);
    CodeIsKnown(THROTTLE_STATES, 3);
    SaneRec(HEALTH_FIELDS, FromHealth(h).vs);
    SaneRec(READINESS_FIELDS, FromReadiness(r).vs);
    SaneRec(REACHABILITY_FIELDS, FromReachability(q).vs);
    SaneRec(THROTTLING_FIELDS, FromThrottling(t).vs);
    assert HEALTH_FIELDS[1] == READINESS_FIELDS[1] == REACHABILITY_FIELDS[1] == THROTTLING_FIELDS[1] == STAMP;
  }

  lemma CapabilitiesAreSane(max: nat, xs: seq<CapabilityRef>)
    ensures Sane(List(max, CAPABILITY), FromSeq(xs, FromCapability))
        <==> forall i :: 0 <= i < |xs| ==> SaneCapability(xs[i])
  {
    hide Sane, FromText, FromStamp, FromOption, IsIdentity, FromSeq;
    StampIsSane();
    SaneScalars();
    forall i | 0 <= i < |xs|
      ensures Sane(CAPABILITY, FromCapability(xs[i])) <==> SaneCapability(xs[i])
    {
      SaneRec(CAPABILITY_FIELDS, FromCapability(xs[i]).vs);
      assert CAPABILITY_FIELDS[0] == Id && CAPABILITY_FIELDS[1] == STAMP;
    }
    hide FromCapability;
    SaneList(max, CAPABILITY, xs, FromCapability);
  }

  lemma TextsAreSane(max: nat, xs: seq<Text>)
    ensures Sane(List(max, Id), FromSeq(xs, FromText)) <==> AllNamed(xs)
  {
    hide Sane, FromText, FromSeq, IsIdentity;
    SaneScalars();
    SaneList(max, Id, xs, FromText);
  }

  lemma FieldIsSane(s: Schema, f: Field)
    requires IsAttribute(s)
    ensures Sane(s, FromField(f)) <==> SaneField(s, f)
  {
    QuantityIsSane();
    hide FromQuantity, IsIdentity;
    if f.QuantityField? {
      QuantityIsTuple(f.quantity);
    }
  }

  lemma DetailsAreSane(d: MemberDetails)
    ensures Sane(DETAILS, FromDetails(d)) <==> SaneDetails(d)
  {
    hide DetailFields, FromField, SaneField, IsAttribute, Code;
    KindCodes();
    CodeIsKnown(KINDS, 9);
    hide Codes;
    if d.Details? {
      var n := Code(KINDS, d.kind);
      var fields := DetailFields(n);
      DetailsAreAttributes(n);
      assert ALTERNATIVES[n + 1] == Rec(fields) by {
        AlternativeIs(n);
      }
      forall i | 0 <= i < |fields| && i < |d.fields|
        ensures Sane(fields[i], FromField(d.fields[i])) <==> SaneField(fields[i], d.fields[i])
      {
        FieldIsSane(fields[i], d.fields[i]);
      }
      DetailsAre(d, n);
    }
  }

  lemma AlternativeIs(n: nat)
    requires n <= 9
    ensures |ALTERNATIVES| == 11 && ALTERNATIVES[n + 1] == Rec(DetailFields(n))
  {
    hide DetailFields;
    assert ALTERNATIVES[n + 1] == Alternative(n + 1);
  }

  lemma DetailsAre(d: MemberDetails, n: nat)
    requires d.Details? && n == Code(KINDS, d.kind) && |ALTERNATIVES| == 11 && n <= 9
    requires ALTERNATIVES[n + 1] == Rec(DetailFields(n))
    ensures var fields := DetailFields(n);
            Sane(DETAILS, FromDetails(d)) <==>
              forall i :: 0 <= i < |fields| && i < |d.fields| ==> Sane(fields[i], FromField(d.fields[i]))
  {
    hide DetailFields, FromField, Code, ALTERNATIVES;
    var v := FromDetails(d);
    var vs := v.choice.vs;
    assert v.tag == n + 1 && v.choice == FromSeq(d.fields, FromField);
    assert |vs| == |d.fields| && forall i :: 0 <= i < |vs| ==> vs[i] == FromField(d.fields[i]);
    assert Sane(DETAILS, v) == Sane(Rec(DetailFields(n)), v.choice);
  }

  lemma MemberCodesAreSane(x: MemberRecord)
    ensures Sane(Enum(6), FromCode(LIFECYCLES, x.lifecycle)) && Sane(Enum(4), FromCode(REASONS, x.revalidationReason))
  {
    hide Sane, FromCode, Codes, Code;
    LifecycleCodes();
    AuthorityCodes();
    CodeIsKnown(LIFECYCLES, 6);
    CodeIsKnown(REASONS, 4);
  }

  lemma MemberStartIsSane(items: nat, x: MemberRecord)
    ensures var f, vs := MemberFields(items), FromMember(x).vs;
            && (Sane(f[0], vs[0]) <==> IsIdentity(x.key.id)) && Sane(f[1], vs[1]) && Sane(f[2], vs[2]) && Sane(f[3], vs[3])
            && (Sane(f[4], vs[4]) <==> Timely(x.stamp)) && Sane(f[5], vs[5])
            && (Sane(f[6], vs[6]) <==> Named(x.ownerWorker)) && (Sane(f[7], vs[7]) <==> Named(x.ownerBoot))
            && (Sane(f[8], vs[8]) <==> (x.parent.Some? ==> IsIdentity(x.parent.value.id)))
            && (Sane(f[9], vs[9]) <==> AllNamed(x.failureDomains))
  {
    hide Sane, FromCode, FromText, FromStamp, FromOption, FromLong, FromKey, FromSeq, FromHealth, FromReadiness,
      FromReachability, FromCapability, FromDetails, DETAILS, IsIdentity, AllNamed, Named, Timely, KEY, STAMP, HEALTH,
      READINESS, REACHABILITY, CAPABILITY, LIFECYCLES, REASONS;
    SaneScalars();
    MemberCodesAreSane(x);
    KeyIsSane();
    StampIsSane();
    TextsAreSane(items, x.failureDomains);
  }

  lemma MemberRestIsSane(items: nat, x: MemberRecord)
    ensures var f, vs := MemberFields(items), FromMember(x).vs;
            && (Sane(f[10], vs[10]) <==> Named(x.powerDomain)) && (Sane(f[11], vs[11]) <==> Named(x.coolingDomain))
            && (Sane(f[12], vs[12]) <==> Named(x.switchDomain)) && (Sane(f[13], vs[13]) <==> Timely(x.health.stamp))
            && (Sane(f[14], vs[14]) <==> Timely(x.readiness.stamp))
            && (Sane(f[15], vs[15]) <==> Timely(x.reachability.stamp))
            && (Sane(f[16], vs[16]) <==> forall i :: 0 <= i < |x.capabilities| ==> SaneCapability(x.capabilities[i]))
            && (Sane(f[17], vs[17]) <==> SaneDetails(x.details)) && Sane(f[18], vs[18])
  {
    hide Sane, FromCode, FromText, FromStamp, FromOption, FromLong, FromKey, FromSeq, FromHealth, FromReadiness,
      FromReachability, FromCapability, FromDetails, DETAILS, IsIdentity, AllNamed, Named, SaneDetails, SaneCapability,
      Timely;
    SaneScalars();
    EvidenceIsSane(x.health, x.readiness, x.reachability, EvidenceValue(ThrottleState.Unknown, NO_EVIDENCE));
    CapabilitiesAreSane(items, x.capabilities);
    DetailsAreSane(x.details);
  }

  lemma MemberIsSane(items: nat, x: MemberRecord)
    ensures Sane(MemberLayout(items), FromMember(x)) <==> SaneMember(x)
  {
    hide Sane, MemberFields, FromMember, IsIdentity, AllNamed, Named, SaneDetails, SaneCapability, Timely, SaneMember;
    MemberFieldCount(items, x);
    var f, vs := MemberFields(items), FromMember(x).vs;
    SaneRec(f, vs);
    assert Tuple(vs) == FromMember(x);
    MemberFieldsAreSane(items, x);
  }

  lemma MemberFieldsAreSane(items: nat, x: MemberRecord)
    requires |MemberFields(items)| == 19 && FromMember(x).Tuple? && |FromMember(x).vs| == 19
    ensures (forall i :: 0 <= i < 19 ==> Sane(MemberFields(items)[i], FromMember(x).vs[i])) <==> SaneMember(x)
  {
    hide Sane, MemberFields, FromMember, IsIdentity, AllNamed, Named, SaneDetails, SaneCapability, Timely;
    NineteenAreSane(MemberFields(items), FromMember(x).vs);
    MemberStartIsSane(items, x);
    MemberRestIsSane(items, x);
  }

  lemma NineteenAreSane(f: seq<Schema>, vs: seq<Value>)
    requires |f| == |vs| == 19
    ensures (forall i :: 0 <= i < 19 ==> Sane(f[i], vs[i])) <==>
              && Sane(f[0], vs[0]) && Sane(f[1], vs[1]) && Sane(f[2], vs[2]) && Sane(f[3], vs[3])
              && Sane(f[4], vs[4]) && Sane(f[5], vs[5]) && Sane(f[6], vs[6]) && Sane(f[7], vs[7])
              && Sane(f[8], vs[8]) && Sane(f[9], vs[9]) && Sane(f[10], vs[10]) && Sane(f[11], vs[11])
              && Sane(f[12], vs[12]) && Sane(f[13], vs[13]) && Sane(f[14], vs[14]) && Sane(f[15], vs[15])
              && Sane(f[16], vs[16]) && Sane(f[17], vs[17]) && Sane(f[18], vs[18])
  {
    hide Sane;
  }

  lemma MemberFieldCount(items: nat, x: MemberRecord)
    ensures |MemberFields(items)| == 19 && FromMember(x).Tuple? && |FromMember(x).vs| == 19
  {
  }

  lemma MembersAreSane(max: nat, items: nat, xs: seq<MemberRecord>)
    ensures Sane(List(max, MemberLayout(items)), FromSeq(xs, FromMember))
        <==> forall i :: 0 <= i < |xs| ==> SaneMember(xs[i])
  {
    hide Sane, FromMember, FromSeq, MemberLayout, SaneMember;
    forall i | 0 <= i < |xs| {
      MemberIsSane(items, xs[i]);
    }
    SaneList(max, MemberLayout(items), xs, FromMember);
  }

  lemma RelationshipIsSane(x: RelationshipRecord)
    ensures Sane(RELATIONSHIP, FromRelationship(x)) <==> SaneRelationship(x)
  {
    hide Sane, FromCode, FromText, FromStamp, FromOption, FromLong, FromKey, FromQuantity, Codes, IsIdentity, Named,
      SaneQuantity, Timely;
    SaneScalars();
    ClassCodes();
    CodeIsKnown(CLASSES, 12);
    KeyIsSane();
    StampIsSane();
    QuantityIsSane();
    var f := RELATIONSHIP_FIELDS;
    SaneRec(f, FromRelationship(x).vs);
    assert f[1] == f[2] == KEY && f[3] == STAMP && f[5] == f[6] == f[7] == Opt(Id) && f[8] == Opt(QUANTITY);
  }

  lemma RelationshipsAreSane(max: nat, xs: seq<RelationshipRecord>)
    ensures Sane(List(max, RELATIONSHIP), FromSeq(xs, FromRelationship))
        <==> forall i :: 0 <= i < |xs| ==> SaneRelationship(xs[i])
  {
    hide Sane, FromRelationship, FromSeq, SaneRelationship;
    forall i | 0 <= i < |xs| {
      RelationshipIsSane(xs[i]);
    }
    SaneList(max, RELATIONSHIP, xs, FromRelationship);
  }

  lemma DomainIsSane(items: nat, x: FailureDomainRecord)
    ensures Sane(FailureDomainLayout(items), FromFailureDomain(x)) <==> SaneDomain(x)
  {
    hide Sane, FromCode, FromText, FromStamp, FromOption, FromLong, FromSeq, Codes, IsIdentity, Named, AllNamed, Timely;
    SaneScalars();
    DomainKindCodes();
    LifecycleCodes();
    CodeIsKnown(DOMAIN_KINDS, 10);
    CodeIsKnown(LIFECYCLES, 6);
    StampIsSane();
    TextsAreSane(items, x.parents);
    var f := FailureDomainFields(items);
    SaneRec(f, FromFailureDomain(x).vs);
    assert f[0] == Id && f[3] == List(items, Id) && f[5] == STAMP && f[6] == f[7] == Opt(Id);
  }

  lemma DomainsAreSane(max: nat, items: nat, xs: seq<FailureDomainRecord>)
    ensures Sane(List(max, FailureDomainLayout(items)), FromSeq(xs, FromFailureDomain))
        <==> forall i :: 0 <= i < |xs| ==> SaneDomain(xs[i])
  {
    hide Sane, FromFailureDomain, FromSeq, FailureDomainLayout, SaneDomain;
    forall i | 0 <= i < |xs| {
      DomainIsSane(items, xs[i]);
    }
    SaneList(max, FailureDomainLayout(items), xs, FromFailureDomain);
  }

  lemma BudgetIsSane(x: PowerDomainBudget)
    ensures Sane(BUDGET, FromBudget(x)) <==> SaneBudget(x)
  {
    hide Sane, FromText, FromOption, FromQuantity, IsIdentity, SaneQuantity;
    SaneScalars();
    QuantityIsSane();
    SaneRec(BUDGET_FIELDS, FromBudget(x).vs);
    assert BUDGET_FIELDS[0] == Id && BUDGET_FIELDS[1] == BUDGET_FIELDS[2] == BUDGET_FIELDS[3] == Opt(QUANTITY);
  }

  lemma PowerIsSane(items: nat, x: Option<PowerEnvelope>)
    ensures Sane(Opt(PowerLayout(items)), FromOption(x, FromPower)) <==> SanePower(x)
  {
    hide Sane, FromText, FromOption, FromQuantity, FromStamp, FromSeq, FromBudget, FromLong, SaneBudget, SaneQuantity,
      Timely, Named;
    if x.Some? {
      var p := x.value;
      SaneScalars();
      QuantityIsSane();
      StampIsSane();
      forall i | 0 <= i < |p.domainBudgets| {
        BudgetIsSane(p.domainBudgets[i]);
      }
      SaneList(items, BUDGET, p.domainBudgets, FromBudget);
      var f := PowerFields(items);
      SaneRec(f, FromPower(p).vs);
      assert f[1] == f[2] == f[3] == Opt(QUANTITY) && f[4] == List(items, BUDGET) && f[5] == STAMP;
      assert f[6] == f[7] == Opt(Id);
    }
    SaneOption(PowerLayout(items), x, FromPower);
  }

  lemma ZoneIsSane(x: CoolingZone)
    ensures Sane(ZONE, FromZone(x)) <==> SaneZone(x)
  {
    hide Sane, FromText, FromOption, FromQuantity, IsIdentity, SaneQuantity, FromThrottling, Timely;
    SaneScalars();
    QuantityIsSane();
    if x.throttling.Some? {
      EvidenceIsSane(NO_HEALTH, NO_READINESS, NO_REACHABILITY, x.throttling.value);
    }
    SaneOption(THROTTLING, x.throttling, FromThrottling);
    SaneRec(ZONE_FIELDS, FromZone(x).vs);
    var f := ZONE_FIELDS;
    assert f[0] == Id && f[1] == f[2] == f[3] == f[4] == Opt(QUANTITY) && f[5] == Opt(THROTTLING);
  }

  lemma CoolingIsSane(items: nat, x: Option<CoolingEnvelope>)
    ensures Sane(Opt(CoolingLayout(items)), FromOption(x, FromCooling)) <==> SaneCooling(x)
  {
    hide Sane, FromText, FromOption, FromStamp, FromSeq, FromZone, FromLong, SaneZone, Timely, Named;
    if x.Some? {
      var c := x.value;
      SaneScalars();
      StampIsSane();
      forall i | 0 <= i < |c.zones| {
        ZoneIsSane(c.zones[i]);
      }
      SaneList(items, ZONE, c.zones, FromZone);
      var f := CoolingFields(items);
      SaneRec(f, FromCooling(c).vs);
      assert f[1] == List(items, ZONE) && f[2] == STAMP && f[3] == f[4] == Opt(Id);
    }
    SaneOption(CoolingLayout(items), x, FromCooling);
  }

  lemma GenerationsAreSane(x: GenerationSet)
    ensures Sane(GENERATIONS, FromGenerations(x))
  {
    hide Sane, FromLong;
    SaneScalars();
    SaneRec(GENERATIONS_FIELDS, FromGenerations(x).vs);
  }

  lemma TwoNamesAreSane(a: Text, b: Text)
    ensures Sane(Checked(TWO_NAMES), Tuple([FromText(a), FromText(b)])) <==> IsIdentity(a) && IsIdentity(b)
  {
    hide IsIdentity;
    var vs := [FromText(a), FromText(b)];
    assert vs[0].Txt? && vs[1].Txt?;
  }

  lemma RackIsSane(x: Option<RackRecord>)
    ensures Sane(Lenient(RACK_RECORD), FromOption(x, FromRackRecord)) <==> SaneRack(x)
  {
    hide Sane, FromText, FromOption, FromLong, FromFlag, FromInt, IsIdentity;
    if x.Some? {
      SaneScalars();
      TwoNamesAreSane(x.value.id, x.value.epoch);
      SaneRec(RACK_RECORD_FIELDS, FromRackRecord(x.value).vs);
      assert RACK_RECORD_FIELDS[0] == Checked(TWO_NAMES);
    }
    SaneOption(RACK_RECORD, x, FromRackRecord);
  }

  lemma PublishersAreSane(max: nat, xs: seq<PublisherRecord>)
    ensures Sane(List(max, PUBLISHER), FromSeq(xs, FromPublisher))
        <==> forall i :: 0 <= i < |xs| ==> SanePublisher(xs[i])
  {
    hide Sane, FromText, FromOption, FromLong, FromInt, FromCode, FromSeq, IsIdentity, Codes;
    SaneScalars();
    AuthorityCodes();
    CodeIsKnown(PUBLISHER_STATES, 4);
    forall i | 0 <= i < |xs|
      ensures Sane(PUBLISHER, FromPublisher(xs[i])) <==> SanePublisher(xs[i])
    {
      TwoNamesAreSane(xs[i].worker, xs[i].boot);
      SaneRec(PUBLISHER_FIELDS, FromPublisher(xs[i]).vs);
      assert PUBLISHER_FIELDS[0] == Checked(TWO_NAMES);
    }
    SaneList(max, PUBLISHER, xs, FromPublisher);
  }

  lemma FencedAreSane(max: nat, xs: seq<FencedBootRecord>)
    ensures Sane(List(max, FENCED), FromSeq(xs, FromFenced)) <==> forall i :: 0 <= i < |xs| ==> SaneFenced(xs[i])
  {
    hide Sane, FromText, FromOption, FromLong, FromInt, FromCode, FromSeq, IsIdentity, Named, Codes;
    SaneScalars();
    AuthorityCodes();
    CodeIsKnown(REASONS, 4);
    forall i | 0 <= i < |xs|
      ensures Sane(FENCED, FromFenced(xs[i])) <==> SaneFenced(xs[i])
    {
      SaneRec(FENCED_FIELDS, FromFenced(xs[i]).vs);
      assert FENCED_FIELDS[0] == Id && FENCED_FIELDS[1] == Opt(Id);
    }
    SaneList(max, FENCED, xs, FromFenced);
  }

  lemma HeaderIsSane(x: RackSnapshot)
    ensures Sane(Checked(SNAPSHOT_HEADER), At(FromSnapshot(x), 0))
        <==> IsIdentity(x.id) && IsIdentity(x.rack) && IsIdentity(x.rackEpoch)
  {
    hide IsIdentity, FromGenerations, FromMember, FromRelationship, FromFailureDomain, FromPower, FromCooling, FromSeq,
      FromOption, FromCode;
    var vs := At(FromSnapshot(x), 0).vs;
    assert vs == [FromText(x.id), FromLong(x.generation), FromLong(x.publicationGeneration), FromInt(x.createdAt),
                  FromText(x.rack), FromText(x.rackEpoch)];
    assert vs[0].Txt? && vs[4].Txt? && vs[5].Txt?;
  }

  lemma SnapshotIsSane(l: Limits, x: RackSnapshot)
    ensures Sane(SnapshotLayout(l), FromSnapshot(x)) <==> SaneSnapshot(x)
  {
    hide Sane, FromText, FromOption, FromLong, FromInt, FromCode, FromSeq, FromGenerations, FromMember, Codes,
      FromRelationship, FromFailureDomain, FromPower, FromCooling, MemberLayout, FailureDomainLayout, PowerLayout,
      CoolingLayout, SaneMember, SaneRelationship, SaneDomain, SanePower, SaneCooling, IsIdentity;
    HeaderIsSane(x);
    AuthorityCodes();
    CodeIsKnown(RACK_LIFECYCLES, 7);
    GenerationsAreSane(x.generations);
    MembersAreSane(l.maxMembers, l.maxCollectionItems, x.members);
    RelationshipsAreSane(l.maxRelationships, x.relationships);
    DomainsAreSane(l.maxFailureDomains, l.maxCollectionItems, x.failureDomains);
    PowerIsSane(l.maxCollectionItems, x.power);
    CoolingIsSane(l.maxCollectionItems, x.cooling);
    var f := SnapshotFields(l);
    SaneRec(f, FromSnapshot(x).vs);
    assert f[0] == Checked(SNAPSHOT_HEADER) && f[3] == List(l.maxMembers, MemberLayout(l.maxCollectionItems));
    assert f[4] == List(l.maxRelationships, RELATIONSHIP);
    assert f[5] == List(l.maxFailureDomains, FailureDomainLayout(l.maxCollectionItems));
    assert f[6] == Opt(PowerLayout(l.maxCollectionItems)) && f[7] == Opt(CoolingLayout(l.maxCollectionItems));
  }

  lemma SnapshotsAreSane(l: Limits, xs: seq<RackSnapshot>)
    ensures Sane(List(l.maxRetainedSnapshots, SnapshotLayout(l)), FromSeq(xs, FromSnapshot))
        <==> forall i :: 0 <= i < |xs| ==> SaneSnapshot(xs[i])
  {
    hide Sane, FromSnapshot, FromSeq, SnapshotLayout, SaneSnapshot;
    forall i | 0 <= i < |xs| {
      SnapshotIsSane(l, xs[i]);
    }
    SaneList(l.maxRetainedSnapshots, SnapshotLayout(l), xs, FromSnapshot);
  }

  /** The records of a map in key order satisfy what the records of the map satisfy. */
  lemma AllInOrder<K(!new), V(!new)>(m: map<K, V>, less: (K, K) -> bool, p: V -> bool)
    requires StrictTotal(less)
    ensures (forall i :: 0 <= i < |InOrder(m, less)| ==> p(InOrder(m, less)[i])) <==> forall k :: k in m ==> p(m[k])
  {
    hide StrictTotal, Ascends, InOrder;
    var keys, vs := Ascending(m.Keys, less), InOrder(m, less);
    forall i | 0 <= i < |vs|
      ensures keys[i] in m && vs[i] == m[keys[i]]
    {
      InOrderAt(m, less, i);
    }
    if forall i :: 0 <= i < |vs| ==> p(vs[i]) {
      forall k | k in m
        ensures p(m[k])
      {
        assert k in keys;
        var i :| 0 <= i < |keys| && keys[i] == k;
        assert p(vs[i]);
      }
    }
  }

  /** A state that a writer accepted satisfies a reader exactly when each of its records is sane. */
  lemma StateIsSane(l: Limits, s: Core)
    ensures SaneState(l, s) <==> SaneRecords(s)
  {
    hide Sane, FromOption, FromLong, FromSeq, FromGenerations, FromMember, FromRelationship, FromFailureDomain,
      FromPower, FromCooling, FromRackRecord, FromPublisher, FromFenced, FromSnapshot, MemberLayout,
      FailureDomainLayout, PowerLayout, CoolingLayout, SnapshotLayout, StrictTotal, InOrder, SaneMember,
      SaneRelationship, SaneDomain, SanePower, SaneCooling, SaneRack, SanePublisher, SaneFenced, SaneSnapshot;
    TextOrder();
    MemberOrder();
    RelationshipOrder();
    SnapshotOrder();
    SaneScalars();
    RackIsSane(s.rack);
    GenerationsAreSane(s.generations);
    MembersAreSane(l.maxMembers, l.maxCollectionItems, InOrder(s.members, MemberLess));
    RelationshipsAreSane(l.maxRelationships, InOrder(s.relationships, RelationshipLess));
    DomainsAreSane(l.maxFailureDomains, l.maxCollectionItems, InOrder(s.failureDomains, TextLess));
    PowerIsSane(l.maxCollectionItems, s.power);
    CoolingIsSane(l.maxCollectionItems, s.cooling);
    PublishersAreSane(l.maxMembers, InOrder(s.publishers, TextLess));
    FencedAreSane(l.maxFencedBoots, InOrder(s.fencedBoots, TextLess));
    SnapshotsAreSane(l, InOrder(s.snapshots, GenerationLess));
    AllInOrder(s.members, MemberLess, SaneMember);
    AllInOrder(s.relationships, RelationshipLess, SaneRelationship);
    AllInOrder(s.failureDomains, TextLess, SaneDomain);
    AllInOrder(s.publishers, TextLess, SanePublisher);
    AllInOrder(s.fencedBoots, TextLess, SaneFenced);
    AllInOrder(s.snapshots, GenerationLess, SaneSnapshot);
    SaneRec(StateFields(l, l.maxMembers), FromState(s).vs);
    NameFields(l, l.maxMembers);
  }

  lemma NameFields(l: Limits, n: nat)
    ensures var f, items := StateFields(l, n), l.maxCollectionItems;
            && |f| == 12 && f[0] == Lenient(RACK_RECORD) && f[1] == GENERATIONS && f[2] == f[3] == Long
            && f[4] == List(l.maxMembers, MemberLayout(items)) && f[5] == List(l.maxRelationships, RELATIONSHIP)
            && f[6] == List(l.maxFailureDomains, FailureDomainLayout(items)) && f[7] == Opt(PowerLayout(items))
            && f[8] == Opt(CoolingLayout(items)) && f[9] == List(n, PUBLISHER) && f[10] == List(l.maxFencedBoots, FENCED)
            && f[11] == List(l.maxRetainedSnapshots, SnapshotLayout(l))
  {
  }

  // ----- A detail record no reader takes -----

  /** A bandwidth of nothing, to live for less than no time. */
  const EXPIRED_BANDWIDTH := Quantity(0, BytesPerSecond, None, Stamp(Measured, 1, -1, Durable, false))

  const MEMORY_DETAILS := Details(MemoryDomain, [Absent, Absent, Absent, QuantityField(EXPIRED_BANDWIDTH)])

  lemma MemoryIsThird()
    ensures Code(KINDS, MemoryDomain) == 3 && |ALTERNATIVES| == 11
    ensures ALTERNATIVES[4] == Rec([Opt(Word(4)), Opt(Long), Opt(Word(U32_MAX)), Opt(QUANTITY)])
    ensures DetailFields(3) == [Opt(Word(4)), Opt(Long), Opt(Word(U32_MAX)), Opt(QUANTITY)]
  {
    assert KINDS[1..][1..][1..][0] == MemoryDomain;
    assert KINDS[0] == MemberKind.Node && KINDS[1..][0] == Accelerator && KINDS[1..][1..][0] == CpuPackage;
    AlternativeIs(3);
  }

  const MEMORY_FIELDS := [Opt(Word(4)), Opt(Long), Opt(Word(U32_MAX)), Opt(QUANTITY)]

  lemma MemoryValueIsShaped(quantity: Value)
    requires Shaped(QUANTITY, quantity)
    ensures Shaped(Rec(MEMORY_FIELDS), Tuple([Missing, Missing, Missing, Given(quantity)]))
  {
    hide QUANTITY;
  }

  lemma MemoryValueIs()
    ensures FromDetails(MEMORY_DETAILS)
         == Chosen(Code(KINDS, MemoryDomain) + 1, Tuple([Missing, Missing, Missing, Given(FromQuantity(EXPIRED_BANDWIDTH))]))
  {
    hide Code, KINDS, FromQuantity;
    assert FromSeq(MEMORY_DETAILS.fields, FromField).vs
        == [Missing, Missing, Missing, Given(FromQuantity(EXPIRED_BANDWIDTH))];
  }

  lemma MemoryDetailsAreTyped()
    ensures TypedDetails(MEMORY_DETAILS) && !SaneDetails(MEMORY_DETAILS)
  {
    hide ALTERNATIVES, DetailFields, QUANTITY, FromQuantity, Code, KINDS, FromDetails;
    MemoryIsThird();
    QuantityShaped(EXPIRED_BANDWIDTH);
    MemoryValueIsShaped(FromQuantity(EXPIRED_BANDWIDTH));
    MemoryValueIs();
    assert !SaneField(MEMORY_FIELDS[3], MEMORY_DETAILS.fields[3]);
  }
}
