/** The layouts of members, topology, envelopes, and the records of authority. */
module Layouts {
  import opened Model
  import opened Codec
  import opened Enumerators
  import opened Records

  function MemberFields(items: nat): seq<Schema> {
    [KEY, Enum(6), Long, Long, STAMP, Enum(4), Opt(Id), Opt(Id), Opt(KEY), List(items, Id), Opt(Id), Opt(Id), Opt(Id),
     HEALTH, READINESS, REACHABILITY, List(items, CAPABILITY), DETAILS, Opt(Str)]
  }

  function MemberLayout(items: nat): Schema { Rec(MemberFields(items)) }

  function FromMember(x: MemberRecord): Value {
    Tuple([FromKey(x.key), FromCode(LIFECYCLES, x.lifecycle), FromLong(x.generation), FromLong(x.publicationGeneration),
           FromStamp(x.stamp), FromCode(REASONS, x.revalidationReason), FromOption(x.ownerWorker, FromText),
           FromOption(x.ownerBoot, FromText), FromOption(x.parent, FromKey), FromSeq(x.failureDomains, FromText),
           FromOption(x.powerDomain, FromText), FromOption(x.coolingDomain, FromText),
           FromOption(x.switchDomain, FromText), FromHealth(x.health), FromReadiness(x.readiness),
           FromReachability(x.reachability), FromSeq(x.capabilities, FromCapability), FromDetails(x.details),
           FromOption(x.source, FromText)])
  }

  function AsMember(v: Value): MemberRecord {
    MemberRecord(
      AsKey(At(v, 0)), Pick(LIFECYCLES, At(v, 1)), AsLong(At(v, 2)), AsLong(At(v, 3)), AsStamp(At(v, 4)),
      Pick(REASONS, At(v, 5)), AsOption(At(v, 6), AsText), AsOption(At(v, 7), AsText), AsOption(At(v, 8), AsKey),
      AsSeq(At(v, 9), AsText), AsOption(At(v, 10), AsText), AsOption(At(v, 11), AsText), AsOption(At(v, 12), AsText),
      AsHealth(At(v, 13)), AsReadiness(At(v, 14)), AsReachability(At(v, 15)), AsSeq(At(v, 16), AsCapability),
      AsDetails(At(v, 17)), AsOption(At(v, 18), AsText))
  }

  lemma MemberReturns(x: MemberRecord)
    ensures AsMember(FromMember(x)) == x
  {
    hide Code, Pick, FromCode, Fits, FromFlag, AsFlag, FromInt, AsInt, FromLong, AsLong, FromText, AsText, Codes,
      FromOption, AsOption, FromSeq, AsSeq, FromStamp, AsStamp, FromKey, AsKey, FromHealth, AsHealth, FromReadiness,
      AsReadiness, FromReachability, AsReachability, FromCapability, AsCapability, FromDetails, AsDetails;
    Scalars(0);
    AllCodes();
    TableFor(0, LIFECYCLES, 6);
    TableFor(0, REASONS, 4);
    StampCorresponds(0);
    KeyCorresponds(0);
    OptionCorresponds(0, KEY, FromKey, AsKey);
    ListCorresponds(0, 0, Id, FromText, AsText);
    HealthCorresponds(0);
    ReadinessCorresponds(0);
    ReachabilityCorresponds(0);
    CapabilityCorresponds(0);
    ListCorresponds(0, 0, CAPABILITY, FromCapability, AsCapability);
    DetailsCorrespond(0);
  }

  lemma MemberFieldsFit(limit: nat, items: nat, v: Value)
    requires Fits(limit, MemberLayout(items), v)
    ensures v.Tuple? && |v.vs| == 19
    ensures Fits(limit, KEY, v.vs[0]) && Fits(limit, Enum(6), v.vs[1]) && Fits(limit, Long, v.vs[2])
    ensures Fits(limit, Long, v.vs[3]) && Fits(limit, STAMP, v.vs[4]) && Fits(limit, Enum(4), v.vs[5])
    ensures Fits(limit, Opt(Id), v.vs[6]) && Fits(limit, Opt(Id), v.vs[7]) && Fits(limit, Opt(KEY), v.vs[8])
    ensures Fits(limit, List(items, Id), v.vs[9])
  {
    hide Fits;
    RecFields(limit, MemberFields(items), v);
  }

  lemma MemberStartReturns(limit: nat, items: nat, v: Value)
    requires Fits(limit, MemberLayout(items), v)
    ensures v.Tuple? && |v.vs| == 19
    ensures FromKey(AsKey(v.vs[0])) == v.vs[0] && FromCode(LIFECYCLES, Pick(LIFECYCLES, v.vs[1])) == v.vs[1]
    ensures FromLong(AsLong(v.vs[2])) == v.vs[2] && FromLong(AsLong(v.vs[3])) == v.vs[3]
    ensures FromStamp(AsStamp(v.vs[4])) == v.vs[4] && FromCode(REASONS, Pick(REASONS, v.vs[5])) == v.vs[5]
  {
    hide Code, Pick, FromCode, Fits, FromFlag, AsFlag, FromInt, AsInt, FromLong, AsLong, FromText, AsText, Codes,
      FromOption, AsOption, FromSeq, AsSeq, FromStamp, AsStamp, FromKey, AsKey, MemberLayout, MemberFields;
    MemberFieldsFit(limit, items, v);
    Scalars(limit);
    LifecycleCodes();
    AuthorityCodes();
    TableFor(limit, LIFECYCLES, 6);
    TableFor(limit, REASONS, 4);
    StampCorresponds(limit);
    KeyCorresponds(limit);
  }

  lemma MemberHeadReturns(limit: nat, items: nat, v: Value)
    requires Fits(limit, MemberLayout(items), v)
    ensures v.Tuple? && |v.vs| == 19
    ensures FromOption(AsOption(v.vs[6], AsText), FromText) == v.vs[6]
    ensures FromOption(AsOption(v.vs[7], AsText), FromText) == v.vs[7]
    ensures FromOption(AsOption(v.vs[8], AsKey), FromKey) == v.vs[8]
    ensures FromSeq(AsSeq(v.vs[9], AsText), FromText) == v.vs[9]
  {
    hide Code, Pick, FromCode, Fits, FromFlag, AsFlag, FromInt, AsInt, FromLong, AsLong, FromText, AsText, Codes,
      FromOption, AsOption, FromSeq, AsSeq, FromStamp, AsStamp, FromKey, AsKey, MemberLayout, MemberFields;
    MemberFieldsFit(limit, items, v);
    Scalars(limit);
    KeyCorresponds(limit);
    OptionCorresponds(limit, KEY, FromKey, AsKey);
    ListCorresponds(limit, items, Id, FromText, AsText);
  }

  lemma MemberTailReturns(limit: nat, items: nat, v: Value)
    requires Fits(limit, MemberLayout(items), v)
    ensures v.Tuple? && |v.vs| == 19
    ensures forall i | i in {10, 11, 12, 18} :: FromOption(AsOption(v.vs[i], AsText), FromText) == v.vs[i]
    ensures FromHealth(AsHealth(v.vs[13])) == v.vs[13] && FromReadiness(AsReadiness(v.vs[14])) == v.vs[14]
    ensures FromReachability(AsReachability(v.vs[15])) == v.vs[15]
    ensures FromSeq(AsSeq(v.vs[16], AsCapability), FromCapability) == v.vs[16]
    ensures FromDetails(AsDetails(v.vs[17])) == v.vs[17]
  {
    hide Code, Pick, FromCode, Fits, FromFlag, AsFlag, FromInt, AsInt, FromLong, AsLong, FromText, AsText, Codes,
      FromOption, AsOption, FromSeq, AsSeq, FromStamp, AsStamp, FromKey, AsKey, FromHealth, AsHealth, FromReadiness,
      AsReadiness, FromReachability, AsReachability, FromCapability, AsCapability, FromDetails, AsDetails;
    Scalars(limit);
    HealthCorresponds(limit);
    ReadinessCorresponds(limit);
    ReachabilityCorresponds(limit);
    CapabilityCorresponds(limit);
    ListCorresponds(limit, items, CAPABILITY, FromCapability, AsCapability);
    DetailsCorrespond(limit);
    RecFields(limit, MemberFields(items), v);
  }

  lemma MemberValueReturns(limit: nat, items: nat, v: Value)
    requires Fits(limit, MemberLayout(items), v)
    ensures FromMember(AsMember(v)) == v
  {
    hide Code, Pick, FromCode, Fits, FromFlag, AsFlag, FromInt, AsInt, FromLong, AsLong, FromText, AsText, Codes,
      FromOption, AsOption, FromSeq, AsSeq, FromStamp, AsStamp, FromKey, AsKey, FromHealth, AsHealth, FromReadiness,
      AsReadiness, FromReachability, AsReachability, FromCapability, AsCapability, FromDetails, AsDetails;
    MemberStartReturns(limit, items, v);
    MemberHeadReturns(limit, items, v);
    MemberTailReturns(limit, items, v);
  }

  lemma MemberCorresponds(limit: nat, items: nat)
    ensures Corresponds(limit, MemberLayout(items), FromMember, AsMember)
  {
    hide FromMember, AsMember, Fits;
    forall x
      ensures AsMember(FromMember(x)) == x
    {
      MemberReturns(x);
    }
    forall v | Fits(limit, MemberLayout(items), v)
      ensures FromMember(AsMember(v)) == v
    {
      MemberValueReturns(limit, items, v);
    }
  }

  const RELATIONSHIP_FIELDS := [Enum(12), KEY, KEY, STAMP, Long, Opt(Id), Opt(Id), Opt(Id), Opt(QUANTITY), Opt(Str)]
  const RELATIONSHIP := Rec(RELATIONSHIP_FIELDS)

  function FromRelationship(x: RelationshipRecord): Value {
    Tuple([FromCode(CLASSES, x.key.cls), FromKey(x.key.from), FromKey(x.key.to), FromStamp(x.stamp), FromLong(x.generation),
           FromOption(x.ownerWorker, FromText), FromOption(x.ownerBoot, FromText), FromOption(x.link, FromText),
           FromOption(x.capacity, FromQuantity), FromOption(x.source, FromText)])
  }

  function AsRelationship(v: Value): RelationshipRecord {
    RelationshipRecord(
      RelationshipKey(Pick(CLASSES, At(v, 0)), AsKey(At(v, 1)), AsKey(At(v, 2))), AsStamp(At(v, 3)), AsLong(At(v, 4)),
      AsOption(At(v, 5), AsText), AsOption(At(v, 6), AsText), AsOption(At(v, 7), AsText),
      AsOption(At(v, 8), AsQuantity), AsOption(At(v, 9), AsText))
  }

  lemma RelationshipCorresponds(limit: nat)
    ensures Corresponds(limit, RELATIONSHIP, FromRelationship, AsRelationship)
  {
    hide Code, Pick, FromCode, Fits, FromFlag, AsFlag, FromInt, AsInt, FromLong, AsLong, FromText, AsText, Codes,
      FromOption, AsOption, FromSeq, AsSeq, FromStamp, AsStamp, FromKey, AsKey, FromQuantity, AsQuantity;
    Scalars(limit);
    ClassCodes();
    TableFor(limit, CLASSES, 12);
    StampCorresponds(limit);
    KeyCorresponds(limit);
    QuantityCorresponds(limit);
    OptionCorresponds(limit, QUANTITY, FromQuantity, AsQuantity);
    forall v | Fits(limit, RELATIONSHIP, v)
      ensures FromRelationship(AsRelationship(v)) == v
    {
      RecFields(limit, RELATIONSHIP_FIELDS, v);
    }
  }

  function FailureDomainFields(items: nat): seq<Schema> {
    [Id, Enum(10), Enum(6), List(items, Id), Long, STAMP, Opt(Id), Opt(Id), Opt(Str), Opt(Str)]
  }

  function FailureDomainLayout(items: nat): Schema { Rec(FailureDomainFields(items)) }

  function FromFailureDomain(x: FailureDomainRecord): Value {
    Tuple([FromText(x.id), FromCode(DOMAIN_KINDS, x.kind), FromCode(LIFECYCLES, x.lifecycle),
           FromSeq(x.parents, FromText), FromLong(x.generation), FromStamp(x.stamp),
           FromOption(x.ownerWorker, FromText), FromOption(x.ownerBoot, FromText), FromOption(x.labelText, FromText),
           FromOption(x.source, FromText)])
  }

  function AsFailureDomain(v: Value): FailureDomainRecord {
    FailureDomainRecord(
      AsText(At(v, 0)), Pick(DOMAIN_KINDS, At(v, 1)), Pick(LIFECYCLES, At(v, 2)), AsSeq(At(v, 3), AsText),
      AsLong(At(v, 4)), AsStamp(At(v, 5)), AsOption(At(v, 6), AsText), AsOption(At(v, 7), AsText),
      AsOption(At(v, 8), AsText), AsOption(At(v, 9), AsText))
  }

  lemma FailureDomainCorresponds(limit: nat, items: nat)
    ensures Corresponds(limit, FailureDomainLayout(items), FromFailureDomain, AsFailureDomain)
  {
    hide Code, Pick, FromCode, Fits, FromFlag, AsFlag, FromInt, AsInt, FromLong, AsLong, FromText, AsText, Codes,
      FromOption, AsOption, FromSeq, AsSeq, FromStamp, AsStamp;
    Scalars(limit);
    DomainKindCodes();
    LifecycleCodes();
    TableFor(limit, DOMAIN_KINDS, 10);
    TableFor(limit, LIFECYCLES, 6);
    StampCorresponds(limit);
    ListCorresponds(limit, items, Id, FromText, AsText);
    forall v | Fits(limit, FailureDomainLayout(items), v)
      ensures FromFailureDomain(AsFailureDomain(v)) == v
    {
      RecFields(limit, FailureDomainFields(items), v);
    }
  }

  const BUDGET_FIELDS := [Id, Opt(QUANTITY), Opt(QUANTITY), Opt(QUANTITY)]
  const BUDGET := Rec(BUDGET_FIELDS)

  function FromBudget(x: PowerDomainBudget): Value {
    Tuple([FromText(x.domain), FromOption(x.limit, FromQuantity), FromOption(x.observedDraw, FromQuantity),
           FromOption(x.headroom, FromQuantity)])
  }

  function AsBudget(v: Value): PowerDomainBudget {
    PowerDomainBudget(AsText(At(v, 0)), AsOption(At(v, 1), AsQuantity), AsOption(At(v, 2), AsQuantity),
                      AsOption(At(v, 3), AsQuantity))
  }

  lemma BudgetCorresponds(limit: nat)
    ensures Corresponds(limit, BUDGET, FromBudget, AsBudget)
  {
    hide Code, Pick, FromCode, Fits, FromFlag, AsFlag, FromInt, AsInt, FromLong, AsLong, FromText, AsText, Codes,
      FromOption, AsOption, FromSeq, AsSeq, FromQuantity, AsQuantity;
    Scalars(limit);
    QuantityCorresponds(limit);
    OptionCorresponds(limit, QUANTITY, FromQuantity, AsQuantity);
    forall v | Fits(limit, BUDGET, v)
      ensures FromBudget(AsBudget(v)) == v
    {
      RecFields(limit, BUDGET_FIELDS, v);
    }
  }

  function PowerFields(items: nat): seq<Schema> {
    [Long, Opt(QUANTITY), Opt(QUANTITY), Opt(QUANTITY), List(items, BUDGET), STAMP, Opt(Id), Opt(Id), Opt(Str)]
  }

  function PowerLayout(items: nat): Schema { Rec(PowerFields(items)) }

  function FromPower(x: PowerEnvelope): Value {
    Tuple([FromLong(x.generation), FromOption(x.rackLimit, FromQuantity), FromOption(x.rackObservedDraw, FromQuantity),
           FromOption(x.rackHeadroom, FromQuantity), FromSeq(x.domainBudgets, FromBudget), FromStamp(x.stamp),
           FromOption(x.ownerWorker, FromText), FromOption(x.ownerBoot, FromText), FromOption(x.source, FromText)])
  }

  function AsPower(v: Value): PowerEnvelope {
    PowerEnvelope(
      AsLong(At(v, 0)), AsOption(At(v, 1), AsQuantity), AsOption(At(v, 2), AsQuantity), AsOption(At(v, 3), AsQuantity),
      AsSeq(At(v, 4), AsBudget), AsStamp(At(v, 5)), AsOption(At(v, 6), AsText), AsOption(At(v, 7), AsText),
      AsOption(At(v, 8), AsText))
  }

  lemma PowerCorresponds(limit: nat, items: nat)
    ensures Corresponds(limit, PowerLayout(items), FromPower, AsPower)
  {
    hide Code, Pick, FromCode, Fits, FromFlag, AsFlag, FromInt, AsInt, FromLong, AsLong, FromText, AsText, Codes,
      FromOption, AsOption, FromSeq, AsSeq, FromQuantity, AsQuantity, FromStamp, AsStamp, FromBudget, AsBudget;
    Scalars(limit);
    QuantityCorresponds(limit);
    OptionCorresponds(limit, QUANTITY, FromQuantity, AsQuantity);
    StampCorresponds(limit);
    BudgetCorresponds(limit);
    ListCorresponds(limit, items, BUDGET, FromBudget, AsBudget);
    forall v | Fits(limit, PowerLayout(items), v)
      ensures FromPower(AsPower(v)) == v
    {
      RecFields(limit, PowerFields(items), v);
    }
  }

  const ZONE_FIELDS := [Id, Opt(QUANTITY), Opt(QUANTITY), Opt(QUANTITY), Opt(QUANTITY), Opt(THROTTLING)]
  const ZONE := Rec(ZONE_FIELDS)

  function FromZone(x: CoolingZone): Value {
    Tuple([FromText(x.zone), FromOption(x.designThermalLimit, FromQuantity), FromOption(x.observedTemperature, FromQuantity),
           FromOption(x.coolingCapacity, FromQuantity), FromOption(x.thermalHeadroom, FromQuantity),
           FromOption(x.throttling, FromThrottling)])
  }

  function AsZone(v: Value): CoolingZone {
    CoolingZone.CoolingZone(AsText(At(v, 0)), AsOption(At(v, 1), AsQuantity), AsOption(At(v, 2), AsQuantity),
                AsOption(At(v, 3), AsQuantity), AsOption(At(v, 4), AsQuantity), AsOption(At(v, 5), AsThrottling))
  }

  lemma ZoneCorresponds(limit: nat)
    ensures Corresponds(limit, ZONE, FromZone, AsZone)
  {
    hide Code, Pick, FromCode, Fits, FromFlag, AsFlag, FromInt, AsInt, FromLong, AsLong, FromText, AsText, Codes,
      FromOption, AsOption, FromSeq, AsSeq, FromQuantity, AsQuantity, FromThrottling, AsThrottling;
    Scalars(limit);
    QuantityCorresponds(limit);
    OptionCorresponds(limit, QUANTITY, FromQuantity, AsQuantity);
    ThrottlingCorresponds(limit);
    OptionCorresponds(limit, THROTTLING, FromThrottling, AsThrottling);
    forall v | Fits(limit, ZONE, v)
      ensures FromZone(AsZone(v)) == v
    {
      RecFields(limit, ZONE_FIELDS, v);
    }
  }

  function CoolingFields(items: nat): seq<Schema> {
    [Long, List(items, ZONE), STAMP, Opt(Id), Opt(Id), Opt(Str)]
  }

  function CoolingLayout(items: nat): Schema { Rec(CoolingFields(items)) }

  function FromCooling(x: CoolingEnvelope): Value {
    Tuple([FromLong(x.generation), FromSeq(x.zones, FromZone), FromStamp(x.stamp), FromOption(x.ownerWorker, FromText),
           FromOption(x.ownerBoot, FromText), FromOption(x.source, FromText)])
  }

  function AsCooling(v: Value): CoolingEnvelope {
    CoolingEnvelope(AsLong(At(v, 0)), AsSeq(At(v, 1), AsZone), AsStamp(At(v, 2)), AsOption(At(v, 3), AsText),
                    AsOption(At(v, 4), AsText), AsOption(At(v, 5), AsText))
  }

  lemma CoolingCorresponds(limit: nat, items: nat)
    ensures Corresponds(limit, CoolingLayout(items), FromCooling, AsCooling)
  {
    hide Code, Pick, FromCode, Fits, FromFlag, AsFlag, FromInt, AsInt, FromLong, AsLong, FromText, AsText, Codes,
      FromOption, AsOption, FromSeq, AsSeq, FromStamp, AsStamp, FromZone, AsZone;
    Scalars(limit);
    StampCorresponds(limit);
    ZoneCorresponds(limit);
    ListCorresponds(limit, items, ZONE, FromZone, AsZone);
    forall v | Fits(limit, CoolingLayout(items), v)
      ensures FromCooling(AsCooling(v)) == v
    {
      RecFields(limit, CoolingFields(items), v);
    }
  }

  const GENERATIONS_FIELDS := [Long, Long, Long, Long, Long, Long, Long, Long, Long, Long]
  const GENERATIONS := Rec(GENERATIONS_FIELDS)

  function FromGenerations(x: GenerationSet): Value {
    Tuple([FromLong(x.rack), FromLong(x.membership), FromLong(x.topology), FromLong(x.failureDomains),
           FromLong(x.constraints), FromLong(x.power), FromLong(x.cooling), FromLong(x.health),
           FromLong(x.capabilities), FromLong(x.coordinatorEpoch)])
  }

  function AsGenerations(v: Value): GenerationSet {
    GenerationSet(AsLong(At(v, 0)), AsLong(At(v, 1)), AsLong(At(v, 2)), AsLong(At(v, 3)), AsLong(At(v, 4)),
                  AsLong(At(v, 5)), AsLong(At(v, 6)), AsLong(At(v, 7)), AsLong(At(v, 8)), AsLong(At(v, 9)))
  }

  lemma GenerationsCorresponds(limit: nat)
    ensures Corresponds(limit, GENERATIONS, FromGenerations, AsGenerations)
  {
    hide Code, Pick, FromCode, Fits, FromFlag, AsFlag, FromInt, AsInt, FromLong, AsLong, FromText, AsText, Codes,
      FromOption, AsOption, FromSeq, AsSeq;
    Scalars(limit);
    forall v | Fits(limit, GENERATIONS, v)
      ensures FromGenerations(AsGenerations(v)) == v
    {
      RecFields(limit, GENERATIONS_FIELDS, v);
    }
  }

  lemma CheckedFields(limit: nat, texts: seq<Schema>, v: Value)
    requires Fits(limit, Checked(texts), v)
    ensures v.Tuple? && |v.vs| == |texts|
    ensures forall i :: 0 <= i < |texts| ==> Fits(limit, texts[i], v.vs[i])
  {
  }

  const TWO_NAMES := [Str, Str]

  const RACK_RECORD_FIELDS := [Checked(TWO_NAMES), Long, Flag, Opt(Str), Signed]
  const RACK_RECORD := Rec(RACK_RECORD_FIELDS)

  function FromRackRecord(x: RackRecord): Value {
    Tuple([Tuple([FromText(x.id), FromText(x.epoch)]), FromLong(x.generation), FromFlag(x.retired),
           FromOption(x.labelText, FromText), FromInt(x.declaredAt)])
  }

  function AsRackRecord(v: Value): RackRecord {
    RackRecord(AsText(At(At(v, 0), 0)), AsText(At(At(v, 0), 1)), AsLong(At(v, 1)), AsFlag(At(v, 2)),
               AsOption(At(v, 3), AsText), AsInt(At(v, 4)))
  }

  lemma RackRecordCorresponds(limit: nat)
    ensures Corresponds(limit, RACK_RECORD, FromRackRecord, AsRackRecord)
  {
    hide Code, Pick, FromCode, Fits, FromFlag, AsFlag, FromInt, AsInt, FromLong, AsLong, FromText, AsText, Codes,
      FromOption, AsOption, FromSeq, AsSeq;
    Scalars(limit);
    forall v | Fits(limit, RACK_RECORD, v)
      ensures FromRackRecord(AsRackRecord(v)) == v
    {
      RecFields(limit, RACK_RECORD_FIELDS, v);
      CheckedFields(limit, TWO_NAMES, v.vs[0]);
      assert v.vs[0].vs == [v.vs[0].vs[0], v.vs[0].vs[1]];
    }
  }

  const PUBLISHER_FIELDS := [Checked(TWO_NAMES), Long, Long, Enum(4), Signed, Signed, Signed, Opt(Str), Long, Long]
  const PUBLISHER := Rec(PUBLISHER_FIELDS)

  function FromPublisher(x: PublisherRecord): Value {
    Tuple([Tuple([FromText(x.worker), FromText(x.boot)]), FromLong(x.coordinatorEpoch),
           FromLong(x.publicationGeneration), FromCode(PUBLISHER_STATES, x.state), FromInt(x.registeredAt),
           FromInt(x.lastSeenAt), FromInt(x.leaseMillis), FromOption(x.labelText, FromText),
           FromLong(x.acceptedMutations), FromLong(x.rejectedMutations)])
  }

  function AsPublisher(v: Value): PublisherRecord {
    PublisherRecord(
      AsText(At(At(v, 0), 0)), AsText(At(At(v, 0), 1)), AsLong(At(v, 1)), AsLong(At(v, 2)),
      Pick(PUBLISHER_STATES, At(v, 3)), AsInt(At(v, 4)), AsInt(At(v, 5)), AsInt(At(v, 6)), AsOption(At(v, 7), AsText),
      AsLong(At(v, 8)), AsLong(At(v, 9)))
  }

  lemma PublisherCorresponds(limit: nat)
    ensures Corresponds(limit, PUBLISHER, FromPublisher, AsPublisher)
  {
    hide Code, Pick, FromCode, Fits, FromFlag, AsFlag, FromInt, AsInt, FromLong, AsLong, FromText, AsText, Codes,
      FromOption, AsOption, FromSeq, AsSeq;
    Scalars(limit);
    AuthorityCodes();
    TableFor(limit, PUBLISHER_STATES, 4);
    forall v | Fits(limit, PUBLISHER, v)
      ensures FromPublisher(AsPublisher(v)) == v
    {
      RecFields(limit, PUBLISHER_FIELDS, v);
      CheckedFields(limit, TWO_NAMES, v.vs[0]);
      assert v.vs[0].vs == [v.vs[0].vs[0], v.vs[0].vs[1]];
    }
  }

  const FENCED_FIELDS := [Id, Opt(Id), Long, Signed, Enum(4)]
  const FENCED := Rec(FENCED_FIELDS)

  function FromFenced(x: FencedBootRecord): Value {
    Tuple([FromText(x.boot), FromOption(x.worker, FromText), FromLong(x.fencedUnderEpoch), FromInt(x.fencedAt),
           FromCode(REASONS, x.reason)])
  }

  function AsFenced(v: Value): FencedBootRecord {
    FencedBootRecord(AsText(At(v, 0)), AsOption(At(v, 1), AsText), AsLong(At(v, 2)), AsInt(At(v, 3)),
                     Pick(REASONS, At(v, 4)))
  }

  lemma FencedCorresponds(limit: nat)
    ensures Corresponds(limit, FENCED, FromFenced, AsFenced)
  {
    hide Code, Pick, FromCode, Fits, FromFlag, AsFlag, FromInt, AsInt, FromLong, AsLong, FromText, AsText, Codes,
      FromOption, AsOption, FromSeq, AsSeq;
    Scalars(limit);
    AuthorityCodes();
    TableFor(limit, REASONS, 4);
    forall v | Fits(limit, FENCED, v)
      ensures FromFenced(AsFenced(v)) == v
    {
      RecFields(limit, FENCED_FIELDS, v);
    }
  }
}
