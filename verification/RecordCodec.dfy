/** The record codecs are exact: two-sided inverses on well-formed records and accepted bytes. */
module RecordCodec {
  import opened Bytes
  import opened Machine
  import opened Codec
  import opened Streams
  import opened Records
  import opened Layouts

  // ----- Record codecs -----

  function Decode<T>(limit: nat, s: Schema, from: Value -> T, bs: bytes): Parse<T> {
    match Get(limit, s, bs)
    case Ok(v, rest) => Ok(from(v), rest)
    case Fail(e) => Fail(e)
  }

  /**
   * Decoding an encoded record followed by any bytes returns the record and those bytes; and whatever bytes decode
   * are the encoding of the record they decode to, followed by what is left.
   */
  ghost predicate Exact<T(!new)>(limit: nat, s: Schema, to: T -> Value, from: Value -> T) {
    && (forall r: T, tail: bytes {:trigger Enc(s, to(r)) + tail} ::
          Fits(limit, s, to(r)) ==> Decode(limit, s, from, Enc(s, to(r)) + tail) == Ok(r, tail))
    && forall bs: bytes {:trigger Decode(limit, s, from, bs)} ::
         var p := Decode(limit, s, from, bs);
         p.Ok? ==> Fits(limit, s, to(p.value)) && bs == Enc(s, to(p.value)) + p.rest
  }

  lemma CorrespondingIsExact<T(!new)>(limit: nat, s: Schema, to: T -> Value, from: Value -> T)
    requires Corresponds(limit, s, to, from) && Solid(s) && Strict(s)
    ensures Exact(limit, s, to, from)
  {
    hide Fits, Enc, Get, Solid, Strict;
    forall r: T, tail: bytes | Fits(limit, s, to(r))
      ensures Decode(limit, s, from, Enc(s, to(r)) + tail) == Ok(r, tail)
    {
      RoundTrip(limit, s, to(r), tail);
    }
    forall bs: bytes | Decode(limit, s, from, bs).Ok?
      ensures var p := Decode(limit, s, from, bs); Fits(limit, s, to(p.value)) && bs == Enc(s, to(p.value)) + p.rest
    {
      var q := Get(limit, s, bs);
      Codec.Canonical(limit, s, bs, q.value, q.rest);
    }
  }

  /** The layout decodes in one way only, and its lists hold no empty elements. */
  predicate Good(s: Schema) { Solid(s) && Strict(s) }

  lemma GoodParts()
    ensures forall s {:trigger Good(s)} :: IsScalar(s) ==> Good(s)
    ensures forall s {:trigger Good(Opt(s))} :: Good(s) ==> Good(Opt(s))
    ensures forall max, s {:trigger Good(List(max, s))} :: Good(s) && Wide(s) ==> Good(List(max, s))
    ensures Wide(Id)
  {
  }

  lemma GoodRecord(fields: seq<Schema>)
    requires forall i :: 0 <= i < |fields| ==> Good(fields[i])
    ensures Good(Rec(fields))
  {
  }

  lemma WideRecord(fields: seq<Schema>)
    requires fields != [] && Wide(fields[0])
    ensures Wide(Rec(fields))
  {
  }

  lemma SmallLayouts()
    ensures Good(STAMP) && Good(KEY) && Good(QUANTITY) && Wide(KEY)
  {
    hide Good, Wide;
    GoodParts();
    GoodRecord(STAMP_FIELDS);
    GoodRecord(KEY_FIELDS);
    GoodRecord(QUANTITY_FIELDS);
    assert Wide(Enum(9)) by {
      WideEnum(9);
    }
    WideRecord(KEY_FIELDS);
  }

  lemma WideEnum(max: nat)
    ensures Wide(Enum(max)) && Wide(Long)
  {
  }

  lemma EvidenceLayouts()
    ensures Good(HEALTH) && Good(READINESS) && Good(REACHABILITY) && Good(THROTTLING)
    ensures Good(CAPABILITY) && Wide(CAPABILITY)
  {
    hide Good, Wide;
    GoodParts();
    SmallLayouts();
    GoodRecord(HEALTH_FIELDS);
    GoodRecord(READINESS_FIELDS);
    GoodRecord(REACHABILITY_FIELDS);
    GoodRecord(THROTTLING_FIELDS);
    GoodRecord(CAPABILITY_FIELDS);
    WideRecord(CAPABILITY_FIELDS);
  }

  lemma AttributesAreGood(kind: nat)
    ensures Good(Rec(DetailFields(kind)))
  {
    hide Good, DetailFields;
    GoodParts();
    SmallLayouts();
    DetailsAreAttributes(kind);
    GoodRecord(DetailFields(kind));
  }

  lemma DetailsAreGood()
    ensures Good(DETAILS)
  {
    forall i | 0 <= i < |ALTERNATIVES|
      ensures Good(ALTERNATIVES[i])
    {
      assert ALTERNATIVES[i] == Alternative(i);
      if i > 0 {
        AttributesAreGood(i - 1);
      }
    }
  }

  lemma MemberLayoutIsGood(items: nat)
    ensures Good(MemberLayout(items)) && Wide(MemberLayout(items))
  {
    hide Good, Wide;
    GoodParts();
    SmallLayouts();
    EvidenceLayouts();
    DetailsAreGood();
    GoodRecord(MemberFields(items));
    WideRecord(MemberFields(items));
  }

  lemma MemberCodecIsExact(limit: nat, items: nat)
    ensures Exact(limit, MemberLayout(items), FromMember, AsMember)
  {
    hide Exact, Corresponds, FromMember, AsMember, MemberLayout;
    MemberLayoutIsGood(items);
    MemberCorresponds(limit, items);
    CorrespondingIsExact(limit, MemberLayout(items), FromMember, AsMember);
  }

  lemma RelationshipLayoutIsGood()
    ensures Good(RELATIONSHIP) && Wide(RELATIONSHIP)
  {
    hide Good, Wide;
    GoodParts();
    SmallLayouts();
    WideEnum(12);
    GoodRecord(RELATIONSHIP_FIELDS);
    WideRecord(RELATIONSHIP_FIELDS);
  }

  lemma RelationshipCodecIsExact(limit: nat)
    ensures Exact(limit, RELATIONSHIP, FromRelationship, AsRelationship)
  {
    hide Exact, Corresponds, FromRelationship, AsRelationship;
    RelationshipLayoutIsGood();
    RelationshipCorresponds(limit);
    CorrespondingIsExact(limit, RELATIONSHIP, FromRelationship, AsRelationship);
  }

  lemma FailureDomainLayoutIsGood(items: nat)
    ensures Good(FailureDomainLayout(items)) && Wide(FailureDomainLayout(items))
  {
    hide Good, Wide;
    GoodParts();
    SmallLayouts();
    GoodRecord(FailureDomainFields(items));
    WideRecord(FailureDomainFields(items));
  }

  lemma FailureDomainCodecIsExact(limit: nat, items: nat)
    ensures Exact(limit, FailureDomainLayout(items), FromFailureDomain, AsFailureDomain)
  {
    hide Exact, Corresponds, FromFailureDomain, AsFailureDomain, FailureDomainLayout;
    FailureDomainLayoutIsGood(items);
    FailureDomainCorresponds(limit, items);
    CorrespondingIsExact(limit, FailureDomainLayout(items), FromFailureDomain, AsFailureDomain);
  }

  lemma EnvelopeLayoutsAreGood(items: nat)
    ensures Good(PowerLayout(items)) && Good(CoolingLayout(items))
  {
    hide Good, Wide;
    GoodParts();
    SmallLayouts();
    EvidenceLayouts();
    GoodRecord(BUDGET_FIELDS);
    WideRecord(BUDGET_FIELDS);
    GoodRecord(PowerFields(items));
    GoodRecord(ZONE_FIELDS);
    WideRecord(ZONE_FIELDS);
    GoodRecord(CoolingFields(items));
  }

  lemma PowerCodecIsExact(limit: nat, items: nat)
    ensures Exact(limit, PowerLayout(items), FromPower, AsPower)
  {
    hide Exact, Corresponds, FromPower, AsPower, PowerLayout;
    EnvelopeLayoutsAreGood(items);
    PowerCorresponds(limit, items);
    CorrespondingIsExact(limit, PowerLayout(items), FromPower, AsPower);
  }

  lemma CoolingCodecIsExact(limit: nat, items: nat)
    ensures Exact(limit, CoolingLayout(items), FromCooling, AsCooling)
  {
    hide Exact, Corresponds, FromCooling, AsCooling, CoolingLayout;
    EnvelopeLayoutsAreGood(items);
    CoolingCorresponds(limit, items);
    CorrespondingIsExact(limit, CoolingLayout(items), FromCooling, AsCooling);
  }
}
