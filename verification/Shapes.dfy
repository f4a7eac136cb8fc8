/** Records of the program's types always have the shape of their layout; only detail records need to say so. */
module Shapes {
  import opened Wrappers
  import opened Evidence
  import opened Model
  import opened Ordering
  import opened Codec
  import opened Streams
  import opened Enumerators
  import opened Records
  import opened Layouts
  import opened StateCodec

  /** The detail record has the attributes of its kind. */
  predicate TypedDetails(d: MemberDetails) {
    Shaped(DETAILS, FromDetails(d))
  }

  predicate TypedMembers(s: seq<MemberRecord>) {
    forall i :: 0 <= i < |s| ==> TypedDetails(s[i].details)
  }

  predicate TypedState(s: Core) {
    && (forall k :: k in s.members ==> TypedDetails(s.members[k].details))
    && forall g :: g in s.snapshots ==> TypedMembers(s.snapshots[g].members)
  }

  lemma {:induction false} CodeBound<T>(table: seq<T>, x: T)
    ensures Code(table, x) <= |table|
  {
    if table != [] && table[0] != x {
      CodeBound(table[1..], x);
    }
  }

  lemma ShapedCodes()
    ensures forall x, max {:trigger Shaped(Enum(max), FromCode(KINDS, x))} :: Shaped(Enum(max), FromCode(KINDS, x))
    ensures forall x, max {:trigger Shaped(Enum(max), FromCode(CLASSES, x))} :: Shaped(Enum(max), FromCode(CLASSES, x))
    ensures forall x, max {:trigger Shaped(Enum(max), FromCode(LIFECYCLES, x))} ::
              Shaped(Enum(max), FromCode(LIFECYCLES, x))
    ensures forall x, max {:trigger Shaped(Enum(max), FromCode(DOMAIN_KINDS, x))} ::
              Shaped(Enum(max), FromCode(DOMAIN_KINDS, x))
    ensures forall x, max {:trigger Shaped(Enum(max), FromCode(RACK_LIFECYCLES, x))} ::
              Shaped(Enum(max), FromCode(RACK_LIFECYCLES, x))
    ensures forall x, max {:trigger Shaped(Enum(max), FromCode(PUBLISHER_STATES, x))} ::
              Shaped(Enum(max), FromCode(PUBLISHER_STATES, x))
    ensures forall x, max {:trigger Shaped(Enum(max), FromCode(REASONS, x))} :: Shaped(Enum(max), FromCode(REASONS, x))
  {
    forall x { CodeBound(KINDS, x); }
    forall x { CodeBound(CLASSES, x); }
    forall x { CodeBound(LIFECYCLES, x); }
    forall x { CodeBound(DOMAIN_KINDS, x); }
    forall x { CodeBound(RACK_LIFECYCLES, x); }
    forall x { CodeBound(PUBLISHER_STATES, x); }
    forall x { CodeBound(REASONS, x); }
  }

  lemma ShapedEvidenceCodes()
    ensures forall x, max {:trigger Shaped(Enum(max), FromCode(PROVENANCES, x))} ::
              Shaped(Enum(max), FromCode(PROVENANCES, x))
    ensures forall x, max {:trigger Shaped(Enum(max), FromCode(DURABILITIES, x))} ::
              Shaped(Enum(max), FromCode(DURABILITIES, x))
    ensures forall x, max {:trigger Shaped(Enum(max), FromCode(UNITS, x))} :: Shaped(Enum(max), FromCode(UNITS, x))
    ensures forall x, max {:trigger Shaped(Enum(max), FromCode(HEALTH_STATES, x))} ::
              Shaped(Enum(max), FromCode(HEALTH_STATES, x))
    ensures forall x, max {:trigger Shaped(Enum(max), FromCode(READINESS_STATES, x))} ::
              Shaped(Enum(max), FromCode(READINESS_STATES, x))
    ensures forall x, max {:trigger Shaped(Enum(max), FromCode(REACHABILITY_STATES, x))} ::
              Shaped(Enum(max), FromCode(REACHABILITY_STATES, x))
    ensures forall x, max {:trigger Shaped(Enum(max), FromCode(THROTTLE_STATES, x))} ::
              Shaped(Enum(max), FromCode(THROTTLE_STATES, x))
  {
    forall x { CodeBound(PROVENANCES, x); }
    forall x { CodeBound(DURABILITIES, x); }
    forall x { CodeBound(UNITS, x); }
    forall x { CodeBound(HEALTH_STATES, x); }
    forall x { CodeBound(READINESS_STATES, x); }
    forall x { CodeBound(REACHABILITY_STATES, x); }
    forall x { CodeBound(THROTTLE_STATES, x); }
  }

  lemma ShapedScalars()
    ensures forall b {:trigger FromFlag(b)} :: Shaped(Flag, FromFlag(b))
    ensures forall n {:trigger FromLong(n)} :: Shaped(Long, FromLong(n))
    ensures forall i {:trigger FromInt(i)} :: Shaped(Signed, FromInt(i)) && Shaped(Ttl, FromInt(i))
    ensures forall t {:trigger FromText(t)} :: Shaped(Str, FromText(t)) && Shaped(Id, FromText(t))
    ensures forall o {:trigger FromOption(o, FromLong)} :: Shaped(Opt(Long), FromOption(o, FromLong))
    ensures forall o {:trigger FromOption(o, FromText)} ::
              Shaped(Opt(Str), FromOption(o, FromText)) && Shaped(Opt(Id), FromOption(o, FromText))
  {
  }

  lemma ShapedRecord(fields: seq<Schema>, vs: seq<Value>)
    requires |fields| == |vs| && forall i :: 0 <= i < |fields| ==> Shaped(fields[i], vs[i])
    ensures Shaped(Rec(fields), Tuple(vs))
  {
  }

  lemma ShapedList<T(!new)>(max: nat, s: Schema, xs: seq<T>, to: T -> Value)
    requires forall i {:trigger to(xs[i])} :: 0 <= i < |xs| ==> Shaped(s, to(xs[i]))
    ensures Shaped(List(max, s), FromSeq(xs, to))
  {
  }

  lemma ShapedOption<T(!new)>(s: Schema, x: Option<T>, to: T -> Value)
    requires x.Some? ==> Shaped(s, to(x.value))
    ensures Shaped(Opt(s), FromOption(x, to)) && Shaped(Lenient(s), FromOption(x, to))
  {
  }

  lemma StampShaped(x: Stamp)
    ensures Shaped(STAMP, FromStamp(x))
  {
    hide Shaped, FromFlag, FromInt, FromCode;
    ShapedScalars();
    ShapedEvidenceCodes();
    ShapedRecord(STAMP_FIELDS, FromStamp(x).vs);
  }

  lemma QuantityShaped(x: Quantity)
    ensures Shaped(QUANTITY, FromQuantity(x))
  {
    hide Shaped, FromFlag, FromInt, FromCode, FromLong, FromOption;
    ShapedScalars();
    ShapedEvidenceCodes();
    ShapedRecord(QUANTITY_FIELDS, FromQuantity(x).vs);
  }

  lemma QuantitiesShaped()
    ensures forall o {:trigger FromOption(o, FromQuantity)} :: Shaped(Opt(QUANTITY), FromOption(o, FromQuantity))
  {
    hide Shaped, FromQuantity, FromOption;
    forall o
      ensures Shaped(Opt(QUANTITY), FromOption(o, FromQuantity))
    {
      if o.Some? {
        QuantityShaped(o.value);
      }
      ShapedOption(QUANTITY, o, FromQuantity);
    }
  }

  lemma KeyShaped(x: MemberKey)
    ensures Shaped(KEY, FromKey(x))
  {
    hide Shaped, FromCode, FromText;
    ShapedScalars();
    ShapedCodes();
    ShapedRecord(KEY_FIELDS, FromKey(x).vs);
  }

  lemma EvidenceShaped(h: Health, r: Readiness, q: Reachability)
    ensures Shaped(HEALTH, FromHealth(h)) && Shaped(READINESS, FromReadiness(r)) && Shaped(REACHABILITY, FromReachability(q))
  {
    hide Shaped, FromCode, FromStamp;
    ShapedEvidenceCodes();
    StampShaped(h.stamp);
    StampShaped(r.stamp);
    StampShaped(q.stamp);
    ShapedRecord(HEALTH_FIELDS, FromHealth(h).vs);
    ShapedRecord(READINESS_FIELDS, FromReadiness(r).vs);
    ShapedRecord(REACHABILITY_FIELDS, FromReachability(q).vs);
  }

  lemma CapabilityShaped(x: CapabilityRef)
    ensures Shaped(CAPABILITY, FromCapability(x))
  {
    hide Shaped, FromText, FromStamp, FromOption;
    ShapedScalars();
    StampShaped(x.stamp);
    ShapedRecord(CAPABILITY_FIELDS, FromCapability(x).vs);
  }

  lemma TextsShaped(max: nat, xs: seq<Text>)
    ensures Shaped(List(max, Id), FromSeq(xs, FromText))
  {
    ShapedScalars();
    hide Shaped, FromText, FromSeq;
    ShapedList(max, Id, xs, FromText);
  }

  lemma MemberShaped(items: nat, x: MemberRecord)
    requires TypedDetails(x.details)
    ensures Shaped(MemberLayout(items), FromMember(x))
  {
    hide Shaped, FromCode, FromText, FromStamp, FromOption, FromLong, FromKey, FromSeq, FromHealth, FromReadiness,
      FromReachability, FromCapability, FromDetails, DETAILS;
    ShapedScalars();
    ShapedCodes();
    KeyShaped(x.key);
    StampShaped(x.stamp);
    if x.parent.Some? {
      KeyShaped(x.parent.value);
    }
    ShapedOption(KEY, x.parent, FromKey);
    TextsShaped(items, x.failureDomains);
    EvidenceShaped(x.health, x.readiness, x.reachability);
    forall i | 0 <= i < |x.capabilities|
      ensures Shaped(CAPABILITY, FromCapability(x.capabilities[i]))
    {
      CapabilityShaped(x.capabilities[i]);
    }
    ShapedList(items, CAPABILITY, x.capabilities, FromCapability);
    ShapedRecord(MemberFields(items), FromMember(x).vs);
  }

  lemma MembersShaped(max: nat, items: nat, xs: seq<MemberRecord>)
    requires TypedMembers(xs)
    ensures Shaped(List(max, MemberLayout(items)), FromSeq(xs, FromMember))
  {
    hide Shaped, FromMember, FromSeq, MemberLayout, TypedDetails;
    forall i | 0 <= i < |xs|
      ensures Shaped(MemberLayout(items), FromMember(xs[i]))
    {
      MemberShaped(items, xs[i]);
    }
    ShapedList(max, MemberLayout(items), xs, FromMember);
  }

  lemma RelationshipShaped(x: RelationshipRecord)
    ensures Shaped(RELATIONSHIP, FromRelationship(x))
  {
    hide Shaped, FromCode, FromText, FromStamp, FromOption, FromLong, FromKey, FromQuantity;
    ShapedScalars();
    ShapedCodes();
    KeyShaped(x.key.from);
    KeyShaped(x.key.to);
    StampShaped(x.stamp);
    QuantitiesShaped();
    ShapedRecord(RELATIONSHIP_FIELDS, FromRelationship(x).vs);
  }

  lemma RelationshipsShaped(max: nat, xs: seq<RelationshipRecord>)
    ensures Shaped(List(max, RELATIONSHIP), FromSeq(xs, FromRelationship))
  {
    hide Shaped, FromRelationship, FromSeq;
    forall i | 0 <= i < |xs|
      ensures Shaped(RELATIONSHIP, FromRelationship(xs[i]))
    {
      RelationshipShaped(xs[i]);
    }
    ShapedList(max, RELATIONSHIP, xs, FromRelationship);
  }

  lemma FailureDomainShaped(items: nat, x: FailureDomainRecord)
    ensures Shaped(FailureDomainLayout(items), FromFailureDomain(x))
  {
    hide Shaped, FromCode, FromText, FromStamp, FromOption, FromLong, FromSeq;
    ShapedScalars();
    ShapedCodes();
    StampShaped(x.stamp);
    TextsShaped(items, x.parents);
    ShapedRecord(FailureDomainFields(items), FromFailureDomain(x).vs);
  }

  lemma FailureDomainsShaped(max: nat, items: nat, xs: seq<FailureDomainRecord>)
    ensures Shaped(List(max, FailureDomainLayout(items)), FromSeq(xs, FromFailureDomain))
  {
    hide Shaped, FromFailureDomain, FromSeq, FailureDomainLayout;
    forall i | 0 <= i < |xs|
      ensures Shaped(FailureDomainLayout(items), FromFailureDomain(xs[i]))
    {
      FailureDomainShaped(items, xs[i]);
    }
    ShapedList(max, FailureDomainLayout(items), xs, FromFailureDomain);
  }

  lemma BudgetShaped(x: PowerDomainBudget)
    ensures Shaped(BUDGET, FromBudget(x))
  {
    hide Shaped, FromText, FromOption, FromQuantity;
    ShapedScalars();
    QuantitiesShaped();
    ShapedRecord(BUDGET_FIELDS, FromBudget(x).vs);
  }

  lemma PowerShaped(items: nat, x: Option<PowerEnvelope>)
    ensures Shaped(Opt(PowerLayout(items)), FromOption(x, FromPower))
  {
    hide Shaped, FromText, FromOption, FromQuantity, FromStamp, FromSeq, FromBudget, FromLong;
    if x.Some? {
      var p := x.value;
      ShapedScalars();
      QuantitiesShaped();
      StampShaped(p.stamp);
      forall i | 0 <= i < |p.domainBudgets|
        ensures Shaped(BUDGET, FromBudget(p.domainBudgets[i]))
      {
        BudgetShaped(p.domainBudgets[i]);
      }
      ShapedList(items, BUDGET, p.domainBudgets, FromBudget);
      ShapedRecord(PowerFields(items), FromPower(p).vs);
    }
    ShapedOption(PowerLayout(items), x, FromPower);
  }

  lemma ZoneShaped(x: CoolingZone)
    ensures Shaped(ZONE, FromZone(x))
  {
    hide Shaped, FromText, FromOption, FromQuantity, FromCode, FromStamp;
    ShapedScalars();
    QuantitiesShaped();
    ShapedEvidenceCodes();
    if x.throttling.Some? {
      StampShaped(x.throttling.value.stamp);
      ShapedRecord(THROTTLING_FIELDS, FromThrottling(x.throttling.value).vs);
    }
    ShapedOption(THROTTLING, x.throttling, FromThrottling);
    ShapedRecord(ZONE_FIELDS, FromZone(x).vs);
  }

  lemma CoolingShaped(items: nat, x: Option<CoolingEnvelope>)
    ensures Shaped(Opt(CoolingLayout(items)), FromOption(x, FromCooling))
  {
    hide Shaped, FromText, FromOption, FromStamp, FromSeq, FromZone, FromLong;
    if x.Some? {
      var c := x.value;
      ShapedScalars();
      StampShaped(c.stamp);
      forall i | 0 <= i < |c.zones|
        ensures Shaped(ZONE, FromZone(c.zones[i]))
      {
        ZoneShaped(c.zones[i]);
      }
      ShapedList(items, ZONE, c.zones, FromZone);
      ShapedRecord(CoolingFields(items), FromCooling(c).vs);
    }
    ShapedOption(CoolingLayout(items), x, FromCooling);
  }

  lemma GenerationsShaped(x: GenerationSet)
    ensures Shaped(GENERATIONS, FromGenerations(x))
  {
    hide Shaped, FromLong;
    ShapedScalars();
    ShapedRecord(GENERATIONS_FIELDS, FromGenerations(x).vs);
  }

  lemma TwoNamesShaped(a: Text, b: Text)
    ensures Shaped(Checked(TWO_NAMES), Tuple([FromText(a), FromText(b)]))
  {
  }

  lemma RackShaped(x: Option<RackRecord>)
    ensures Shaped(Lenient(RACK_RECORD), FromOption(x, FromRackRecord))
  {
    hide Shaped, FromText, FromOption, FromLong, FromFlag, FromInt;
    if x.Some? {
      ShapedScalars();
      TwoNamesShaped(x.value.id, x.value.epoch);
      ShapedRecord(RACK_RECORD_FIELDS, FromRackRecord(x.value).vs);
    }
    ShapedOption(RACK_RECORD, x, FromRackRecord);
  }

  lemma PublishersShaped(max: nat, xs: seq<PublisherRecord>)
    ensures Shaped(List(max, PUBLISHER), FromSeq(xs, FromPublisher))
  {
    hide Shaped, FromText, FromOption, FromLong, FromInt, FromCode, FromSeq;
    ShapedScalars();
    ShapedCodes();
    forall i | 0 <= i < |xs|
      ensures Shaped(PUBLISHER, FromPublisher(xs[i]))
    {
      TwoNamesShaped(xs[i].worker, xs[i].boot);
      ShapedRecord(PUBLISHER_FIELDS, FromPublisher(xs[i]).vs);
    }
    ShapedList(max, PUBLISHER, xs, FromPublisher);
  }

  lemma FencedShaped(max: nat, xs: seq<FencedBootRecord>)
    ensures Shaped(List(max, FENCED), FromSeq(xs, FromFenced))
  {
    hide Shaped, FromText, FromOption, FromLong, FromInt, FromCode, FromSeq;
    ShapedScalars();
    ShapedCodes();
    forall i | 0 <= i < |xs|
      ensures Shaped(FENCED, FromFenced(xs[i]))
    {
      ShapedRecord(FENCED_FIELDS, FromFenced(xs[i]).vs);
    }
    ShapedList(max, FENCED, xs, FromFenced);
  }

  lemma HeaderShaped(x: RackSnapshot)
    ensures Shaped(Checked(SNAPSHOT_HEADER), At(FromSnapshot(x), 0))
  {
  }

  lemma SnapshotShaped(l: Limits, x: RackSnapshot)
    requires TypedMembers(x.members)
    ensures Shaped(SnapshotLayout(l), FromSnapshot(x))
  {
    hide Shaped, FromText, FromOption, FromLong, FromInt, FromCode, FromSeq, FromGenerations, FromMember,
      FromRelationship, FromFailureDomain, FromPower, FromCooling, MemberLayout, FailureDomainLayout, PowerLayout,
      CoolingLayout, TypedMembers;
    HeaderShaped(x);
    ShapedCodes();
    GenerationsShaped(x.generations);
    MembersShaped(l.maxMembers, l.maxCollectionItems, x.members);
    RelationshipsShaped(l.maxRelationships, x.relationships);
    FailureDomainsShaped(l.maxFailureDomains, l.maxCollectionItems, x.failureDomains);
    PowerShaped(l.maxCollectionItems, x.power);
    CoolingShaped(l.maxCollectionItems, x.cooling);
    ShapedRecord(SnapshotFields(l), FromSnapshot(x).vs);
  }

  lemma TypedInOrder(s: Core)
    requires TypedState(s) && StrictTotal(MemberLess) && StrictTotal(GenerationLess)
    ensures TypedMembers(InOrder(s.members, MemberLess))
    ensures var xs := InOrder(s.snapshots, GenerationLess); forall i :: 0 <= i < |xs| ==> TypedMembers(xs[i].members)
  {
    hide StrictTotal, Ascends, TypedDetails;
    var keys, generations := Ascending(s.members.Keys, MemberLess), Ascending(s.snapshots.Keys, GenerationLess);
    forall i | 0 <= i < |keys|
      ensures TypedDetails(InOrder(s.members, MemberLess)[i].details)
    {
      assert keys[i] in keys;
    }
    forall i | 0 <= i < |generations|
      ensures TypedMembers(InOrder(s.snapshots, GenerationLess)[i].members)
    {
      assert generations[i] in generations;
    }
  }

  /** Every typed state can be handed to a writer. */
  lemma StateIsShaped(l: Limits, maxPublishers: nat, s: Core)
    requires TypedState(s)
    ensures Shaped(StateLayout(l, maxPublishers), FromState(s))
  {
    hide Shaped, FromOption, FromLong, FromSeq, FromGenerations, FromMember, FromRelationship, FromFailureDomain,
      FromPower, FromCooling, FromRackRecord, FromPublisher, FromFenced, FromSnapshot, MemberLayout,
      FailureDomainLayout, PowerLayout, CoolingLayout, SnapshotLayout, StrictTotal, InOrder, TypedMembers, TypedState;
    TextOrder();
    MemberOrder();
    RelationshipOrder();
    SnapshotOrder();
    ShapedScalars();
    TypedInOrder(s);
    RackShaped(s.rack);
    GenerationsShaped(s.generations);
    MembersShaped(l.maxMembers, l.maxCollectionItems, InOrder(s.members, MemberLess));
    RelationshipsShaped(l.maxRelationships, InOrder(s.relationships, RelationshipLess));
    FailureDomainsShaped(l.maxFailureDomains, l.maxCollectionItems, InOrder(s.failureDomains, TextLess));
    PowerShaped(l.maxCollectionItems, s.power);
    CoolingShaped(l.maxCollectionItems, s.cooling);
    PublishersShaped(maxPublishers, InOrder(s.publishers, TextLess));
    FencedShaped(l.maxFencedBoots, InOrder(s.fencedBoots, TextLess));
    SnapshotsShaped(l, InOrder(s.snapshots, GenerationLess));
    ShapedRecord(StateFields(l, maxPublishers), FromState(s).vs);
  }

  lemma SnapshotsShaped(l: Limits, xs: seq<RackSnapshot>)
    requires forall i :: 0 <= i < |xs| ==> TypedMembers(xs[i].members)
    ensures Shaped(List(l.maxRetainedSnapshots, SnapshotLayout(l)), FromSeq(xs, FromSnapshot))
  {
    hide Shaped, FromSnapshot, FromSeq, SnapshotLayout, TypedMembers;
    forall i | 0 <= i < |xs|
      ensures Shaped(SnapshotLayout(l), FromSnapshot(xs[i]))
    {
      SnapshotShaped(l, xs[i]);
    }
    ShapedList(l.maxRetainedSnapshots, SnapshotLayout(l), xs, FromSnapshot);
  }
}
