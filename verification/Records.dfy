/** The layouts of the records, and the values they are laid out as. */
module Records {
  import opened Wrappers
  import opened Evidence
  import opened Model
  import opened Codec
  import opened Enumerators

  // ----- Reading values, with a default for what a layout never yields -----

  function At(v: Value, i: nat): Value { if v.Tuple? && i < |v.vs| then v.vs[i] else Missing }

  function AsLong(v: Value): u64 { if v.Num? && v.n <= U64_MAX then v.n else 0 }

  function FromLong(n: u64): Value { Num(n) }

  function AsInt(v: Value): i64 { if v.Int? then v.i else 0 }

  function FromInt(i: i64): Value { Int(i) }

  function AsText(v: Value): Text { if v.Txt? then v.text else [] }

  function FromText(t: Text): Value { Txt(t) }

  function AsFlag(v: Value): bool { v.Num? && v.n == 1 }

  function FromFlag(b: bool): Value { Num(if b then 1 else 0) }

  function FromCode<T(==)>(table: seq<T>, x: T): Value { Num(Code(table, x)) }

  function FromOption<T>(o: Option<T>, f: T -> Value): Value {
    if o.Some? then Given(f(o.value)) else Missing
  }

  function AsOption<T>(v: Value, f: Value -> T): Option<T> {
    if v.Given? then Some(f(v.value)) else None
  }

  function FromSeq<T>(s: seq<T>, f: T -> Value): Value {
    Tuple(seq(|s|, i requires 0 <= i < |s| => f(s[i])))
  }

  function AsSeq<T>(v: Value, f: Value -> T): seq<T> {
    if v.Tuple? then seq(|v.vs|, i requires 0 <= i < |v.vs| => f(v.vs[i])) else []
  }

  /** `to` and `from` are inverse on all records, and on all values that fit the layout. */
  ghost predicate Corresponds<T(!new)>(limit: nat, s: Schema, to: T -> Value, from: Value -> T) {
    && (forall r: T {:trigger to(r)} :: from(to(r)) == r)
    && forall v: Value {:trigger from(v)} :: Fits(limit, s, v) ==> to(from(v)) == v
  }

  ghost predicate OptionsCorrespond<T(!new)>(limit: nat, s: Schema, to: T -> Value, from: Value -> T) {
    && (forall o: Option<T> {:trigger FromOption(o, to)} :: AsOption(FromOption(o, to), from) == o)
    && forall v: Value {:trigger AsOption(v, from)} :: Fits(limit, Opt(s), v) ==> FromOption(AsOption(v, from), to) == v
  }

  ghost predicate ListsCorrespond<T(!new)>(limit: nat, max: nat, s: Schema, to: T -> Value, from: Value -> T) {
    && (forall x: seq<T> {:trigger FromSeq(x, to)} :: AsSeq(FromSeq(x, to), from) == x)
    && forall v: Value {:trigger AsSeq(v, from)} :: Fits(limit, List(max, s), v) ==> FromSeq(AsSeq(v, from), to) == v
  }

  lemma OptionCorresponds<T(!new)>(limit: nat, s: Schema, to: T -> Value, from: Value -> T)
    requires Corresponds(limit, s, to, from)
    ensures OptionsCorrespond(limit, s, to, from)
  {
  }

  lemma ListCorresponds<T(!new)>(limit: nat, max: nat, s: Schema, to: T -> Value, from: Value -> T)
    requires Corresponds(limit, s, to, from)
    ensures ListsCorrespond(limit, max, s, to, from)
  {
    forall x: seq<T>
      ensures AsSeq(FromSeq(x, to), from) == x
    {
      forall i | 0 <= i < |x|
        ensures from(to(x[i])) == x[i]
      {
      }
    }
    forall v: Value | Fits(limit, List(max, s), v)
      ensures FromSeq(AsSeq(v, from), to) == v
    {
      forall i | 0 <= i < |v.vs|
        ensures to(from(v.vs[i])) == v.vs[i]
      {
      }
      assert FromSeq(AsSeq(v, from), to).vs == v.vs;
    }
  }

  lemma Scalars(limit: nat)
    ensures forall v {:trigger Fits(limit, Flag, v)} :: Fits(limit, Flag, v) ==> FromFlag(AsFlag(v)) == v
    ensures forall v {:trigger Fits(limit, Long, v)} :: Fits(limit, Long, v) ==> FromLong(AsLong(v)) == v
    ensures forall v {:trigger Fits(limit, Signed, v)} :: Fits(limit, Signed, v) ==> FromInt(AsInt(v)) == v
    ensures forall v {:trigger Fits(limit, Ttl, v)} :: Fits(limit, Ttl, v) ==> FromInt(AsInt(v)) == v
    ensures forall v {:trigger Fits(limit, Str, v)} :: Fits(limit, Str, v) ==> FromText(AsText(v)) == v
    ensures forall v {:trigger Fits(limit, Id, v)} :: Fits(limit, Id, v) ==> FromText(AsText(v)) == v
    ensures forall b: bool {:trigger FromFlag(b)} :: AsFlag(FromFlag(b)) == b
    ensures forall n: u64 {:trigger FromLong(n)} :: AsLong(FromLong(n)) == n
    ensures forall i: i64 {:trigger FromInt(i)} :: AsInt(FromInt(i)) == i
    ensures forall t: Text {:trigger FromText(t)} :: AsText(FromText(t)) == t
    ensures Corresponds(limit, Long, FromLong, AsLong)
    ensures Corresponds(limit, Str, FromText, AsText) && Corresponds(limit, Id, FromText, AsText)
    ensures OptionsCorrespond(limit, Long, FromLong, AsLong)
    ensures OptionsCorrespond(limit, Str, FromText, AsText) && OptionsCorrespond(limit, Id, FromText, AsText)
  {
    OptionCorresponds(limit, Long, FromLong, AsLong);
    OptionCorresponds(limit, Str, FromText, AsText);
    OptionCorresponds(limit, Id, FromText, AsText);
  }

  ghost predicate CodesFor<T(!new)>(limit: nat, table: seq<T>, max: nat) {
    && table != []
    && (forall x: T {:trigger FromCode(table, x)} :: Pick(table, FromCode(table, x)) == x)
    && forall v: Value {:trigger Pick(table, v)} :: Fits(limit, Enum(max), v) ==> FromCode(table, Pick(table, v)) == v
  }

  lemma TableFor<T(!new)>(limit: nat, table: seq<T>, max: nat)
    requires Codes(table) && |table| == max + 1
    ensures CodesFor(limit, table, max)
  {
  }

  lemma RecFields(limit: nat, fields: seq<Schema>, v: Value)
    requires Fits(limit, Rec(fields), v)
    ensures v.Tuple? && |v.vs| == |fields|
    ensures forall i :: 0 <= i < |fields| ==> Fits(limit, fields[i], v.vs[i])
  {
  }

  // ----- Stamps, evidence, quantities, keys -----

  const STAMP_FIELDS := [Enum(6), Signed, Ttl, Enum(1), Flag]
  const STAMP := Rec(STAMP_FIELDS)

  function FromStamp(x: Stamp): Value {
    Tuple([FromCode(PROVENANCES, x.provenance), FromInt(x.observedAt), FromInt(x.ttl),
           FromCode(DURABILITIES, x.durability), FromFlag(x.revalidationRequired)])
  }

  function AsStamp(v: Value): Stamp {
    Stamp(Pick(PROVENANCES, At(v, 0)), AsInt(At(v, 1)), AsInt(At(v, 2)), Pick(DURABILITIES, At(v, 3)), AsFlag(At(v, 4)))
  }

  lemma StampCorresponds(limit: nat)
    ensures Corresponds(limit, STAMP, FromStamp, AsStamp)
  {
    hide Code, Pick, FromCode, Fits, FromFlag, AsFlag, FromInt, AsInt, Codes;
    Scalars(limit);
    StampCodes();
    TableFor(limit, PROVENANCES, 6);
    TableFor(limit, DURABILITIES, 1);
    forall v | Fits(limit, STAMP, v)
      ensures FromStamp(AsStamp(v)) == v
    {
      RecFields(limit, STAMP_FIELDS, v);
    }
  }
  const QUANTITY_FIELDS := [Long, Enum(9), Enum(6), Opt(Long), Signed, Ttl, Enum(1), Flag]
  const QUANTITY := Rec(QUANTITY_FIELDS)

  function FromQuantity(x: Quantity): Value {
    Tuple([FromLong(x.value), FromCode(UNITS, x.unit), FromCode(PROVENANCES, x.stamp.provenance),
           FromOption(x.uncertainty, FromLong), FromInt(x.stamp.observedAt), FromInt(x.stamp.ttl),
           FromCode(DURABILITIES, x.stamp.durability), FromFlag(x.stamp.revalidationRequired)])
  }

  function AsQuantity(v: Value): Quantity {
    Quantity(AsLong(At(v, 0)), Pick(UNITS, At(v, 1)), AsOption(At(v, 3), AsLong),
             Stamp(Pick(PROVENANCES, At(v, 2)), AsInt(At(v, 4)), AsInt(At(v, 5)), Pick(DURABILITIES, At(v, 6)),
                   AsFlag(At(v, 7))))
  }

  lemma QuantityCorresponds(limit: nat)
    ensures Corresponds(limit, QUANTITY, FromQuantity, AsQuantity)
  {
    hide Code, Pick, FromCode, Fits, FromFlag, AsFlag, FromInt, AsInt, FromLong, AsLong, FromText, AsText, Codes,
      FromOption, AsOption, FromSeq, AsSeq;
    Scalars(limit);
    AllCodes();
    TableFor(limit, UNITS, 9);
    TableFor(limit, PROVENANCES, 6);
    TableFor(limit, DURABILITIES, 1);
    forall v | Fits(limit, QUANTITY, v)
      ensures FromQuantity(AsQuantity(v)) == v
    {
      RecFields(limit, QUANTITY_FIELDS, v);
    }
  }

  const KEY_FIELDS := [Enum(9), Id]
  const KEY := Rec(KEY_FIELDS)

  function FromKey(x: MemberKey): Value {
    Tuple([FromCode(KINDS, x.kind), FromText(x.id)])
  }

  function AsKey(v: Value): MemberKey {
    MemberKey(Pick(KINDS, At(v, 0)), AsText(At(v, 1)))
  }

  lemma KeyCorresponds(limit: nat)
    ensures Corresponds(limit, KEY, FromKey, AsKey)
  {
    hide Code, Pick, FromCode, Fits, FromFlag, AsFlag, FromInt, AsInt, FromLong, AsLong, FromText, AsText, Codes,
      FromOption, AsOption, FromSeq, AsSeq;
    Scalars(limit);
    AllCodes();
    TableFor(limit, KINDS, 9);
    forall v | Fits(limit, KEY, v)
      ensures FromKey(AsKey(v)) == v
    {
      RecFields(limit, KEY_FIELDS, v);
    }
  }

  const HEALTH_FIELDS := [Enum(4), STAMP]
  const HEALTH := Rec(HEALTH_FIELDS)

  function FromHealth(x: Health): Value {
    Tuple([FromCode(HEALTH_STATES, x.value), FromStamp(x.stamp)])
  }

  function AsHealth(v: Value): Health {
    EvidenceValue(Pick(HEALTH_STATES, At(v, 0)), AsStamp(At(v, 1)))
  }

  lemma HealthCorresponds(limit: nat)
    ensures Corresponds(limit, HEALTH, FromHealth, AsHealth)
  {
    hide Code, Pick, FromCode, Fits, FromFlag, AsFlag, FromInt, AsInt, FromLong, AsLong, FromText, AsText, Codes,
      FromOption, AsOption, FromSeq, AsSeq, FromStamp, AsStamp;
    Scalars(limit);
    AllCodes();
    TableFor(limit, HEALTH_STATES, 4);
    StampCorresponds(limit);
    forall v | Fits(limit, HEALTH, v)
      ensures FromHealth(AsHealth(v)) == v
    {
      RecFields(limit, HEALTH_FIELDS, v);
    }
  }

  const READINESS_FIELDS := [Enum(2), STAMP]
  const READINESS := Rec(READINESS_FIELDS)

  function FromReadiness(x: Readiness): Value {
    Tuple([FromCode(READINESS_STATES, x.value), FromStamp(x.stamp)])
  }

  function AsReadiness(v: Value): Readiness {
    EvidenceValue(Pick(READINESS_STATES, At(v, 0)), AsStamp(At(v, 1)))
  }

  lemma ReadinessCorresponds(limit: nat)
    ensures Corresponds(limit, READINESS, FromReadiness, AsReadiness)
  {
    hide Code, Pick, FromCode, Fits, FromFlag, AsFlag, FromInt, AsInt, FromLong, AsLong, FromText, AsText, Codes,
      FromOption, AsOption, FromSeq, AsSeq, FromStamp, AsStamp;
    Scalars(limit);
    AllCodes();
    TableFor(limit, READINESS_STATES, 2);
    StampCorresponds(limit);
    forall v | Fits(limit, READINESS, v)
      ensures FromReadiness(AsReadiness(v)) == v
    {
      RecFields(limit, READINESS_FIELDS, v);
    }
  }

  const REACHABILITY_FIELDS := [Enum(2), STAMP]
  const REACHABILITY := Rec(REACHABILITY_FIELDS)

  function FromReachability(x: Reachability): Value {
    Tuple([FromCode(REACHABILITY_STATES, x.value), FromStamp(x.stamp)])
  }

  function AsReachability(v: Value): Reachability {
    EvidenceValue(Pick(REACHABILITY_STATES, At(v, 0)), AsStamp(At(v, 1)))
  }

  lemma ReachabilityCorresponds(limit: nat)
    ensures Corresponds(limit, REACHABILITY, FromReachability, AsReachability)
  {
    hide Code, Pick, FromCode, Fits, FromFlag, AsFlag, FromInt, AsInt, FromLong, AsLong, FromText, AsText, Codes,
      FromOption, AsOption, FromSeq, AsSeq, FromStamp, AsStamp;
    Scalars(limit);
    AllCodes();
    TableFor(limit, REACHABILITY_STATES, 2);
    StampCorresponds(limit);
    forall v | Fits(limit, REACHABILITY, v)
      ensures FromReachability(AsReachability(v)) == v
    {
      RecFields(limit, REACHABILITY_FIELDS, v);
    }
  }

  const THROTTLING_FIELDS := [Enum(3), STAMP]
  const THROTTLING := Rec(THROTTLING_FIELDS)

  function FromThrottling(x: Throttling): Value {
    Tuple([FromCode(THROTTLE_STATES, x.value), FromStamp(x.stamp)])
  }

  function AsThrottling(v: Value): Throttling {
    EvidenceValue(Pick(THROTTLE_STATES, At(v, 0)), AsStamp(At(v, 1)))
  }

  lemma ThrottlingCorresponds(limit: nat)
    ensures Corresponds(limit, THROTTLING, FromThrottling, AsThrottling)
  {
    hide Code, Pick, FromCode, Fits, FromFlag, AsFlag, FromInt, AsInt, FromLong, AsLong, FromText, AsText, Codes,
      FromOption, AsOption, FromSeq, AsSeq, FromStamp, AsStamp;
    Scalars(limit);
    AllCodes();
    TableFor(limit, THROTTLE_STATES, 3);
    StampCorresponds(limit);
    forall v | Fits(limit, THROTTLING, v)
      ensures FromThrottling(AsThrottling(v)) == v
    {
      RecFields(limit, THROTTLING_FIELDS, v);
    }
  }

  const CAPABILITY_FIELDS := [Id, STAMP, Opt(Str)]
  const CAPABILITY := Rec(CAPABILITY_FIELDS)

  function FromCapability(x: CapabilityRef): Value {
    Tuple([FromText(x.id), FromStamp(x.stamp), FromOption(x.value, FromText)])
  }

  function AsCapability(v: Value): CapabilityRef {
    CapabilityRef(AsText(At(v, 0)), AsStamp(At(v, 1)), AsOption(At(v, 2), AsText))
  }

  lemma CapabilityCorresponds(limit: nat)
    ensures Corresponds(limit, CAPABILITY, FromCapability, AsCapability)
  {
    hide Code, Pick, FromCode, Fits, FromFlag, AsFlag, FromInt, AsInt, FromLong, AsLong, FromText, AsText, Codes,
      FromOption, AsOption, FromSeq, AsSeq, FromStamp, AsStamp;
    Scalars(limit);
    AllCodes();
    StampCorresponds(limit);
    forall v | Fits(limit, CAPABILITY, v)
      ensures FromCapability(AsCapability(v)) == v
    {
      RecFields(limit, CAPABILITY_FIELDS, v);
    }
  }

  // ----- Details: one tagged alternative per kind of member -----

  /** The attributes of the details of each kind, in the declared order of the kinds. */
  function DetailFields(kind: nat): seq<Schema> {
    var text, number, long, quantity := Opt(Str), Opt(Word(U32_MAX)), Opt(Long), Opt(QUANTITY);
    if kind == 0 then
      [text, Opt(Word(4)), Opt(Word(4)), text, long, number, number, number, number, number, Opt(Id), Opt(Id)]
    else if kind == 1 then [text, text, text, text, text, text, long, number, number, number, number, text]
    else if kind == 2 then [text, text, number, number, number, number, number]
    else if kind == 3 then [Opt(Word(4)), long, number, quantity]
    else if kind == 4 then [text, text, text, number, quantity, text]
    else if kind == 5 then [text, text, text, text, number]
    else if kind == 6 then [text, text, number, number, quantity]
    else if kind == 7 then [Opt(Word(5)), text, text, long]
    else [Opt(Word(6)), text]
  }

  function Alternative(tag: nat): Schema {
    if tag == 0 then Rec([]) else Rec(DetailFields(tag - 1))
  }

  const ALTERNATIVES := [
    Alternative(0), Alternative(1), Alternative(2), Alternative(3), Alternative(4), Alternative(5), Alternative(6),
    Alternative(7), Alternative(8), Alternative(9), Alternative(10)]
  const DETAILS := Choice(ALTERNATIVES)

  function FromField(f: Field): Value {
    match f
    case Absent => Missing
    case TextField(t) => Given(Txt(t))
    case NumberField(n) => Given(Num(n))
    case QuantityField(q) => Given(FromQuantity(q))
  }

  function AsField(v: Value): Field {
    if !v.Given? then Absent
    else match v.value
      case Txt(t) => TextField(t)
      case Num(n) => NumberField(if n <= U64_MAX then n else 0)
      case _ => QuantityField(AsQuantity(v.value))
  }

  function FromDetails(d: MemberDetails): Value {
    if d.NoDetails? then Chosen(0, Tuple([])) else Chosen(Code(KINDS, d.kind) + 1, FromSeq(d.fields, FromField))
  }

  function AsDetails(v: Value): MemberDetails {
    if v.Chosen? && v.tag > 0 then Details(Pick(KINDS, Num(v.tag - 1)), AsSeq(v.choice, AsField)) else NoDetails
  }

  predicate IsAttribute(s: Schema) {
    s == Opt(Str) || s == Opt(Id) || s == Opt(Long) || s == Opt(QUANTITY) || (s.Opt? && s.item.Word?)
  }

  lemma FieldCorresponds(limit: nat, s: Schema)
    requires IsAttribute(s)
    ensures Corresponds(limit, s, FromField, AsField)
  {
    QuantityCorresponds(limit);
    hide FromQuantity, AsQuantity;
    forall q
      ensures FromQuantity(q).Tuple?
    {
      QuantityIsTuple(q);
    }
    forall v | Fits(limit, s, v)
      ensures FromField(AsField(v)) == v
    {
      if v.Given? {
        assert Fits(limit, s.item, v.value);
        if s.item == QUANTITY {
          RecFields(limit, QUANTITY_FIELDS, v.value);
          assert FromQuantity(AsQuantity(v.value)) == v.value;
        }
      }
    }
  }

  lemma QuantityIsTuple(q: Quantity)
    ensures FromQuantity(q).Tuple?
  {
  }

  lemma DetailsAreAttributes(kind: nat)
    ensures forall i :: 0 <= i < |DetailFields(kind)| ==> IsAttribute(DetailFields(kind)[i])
  {
  }

  lemma DetailsReturn(d: MemberDetails)
    ensures AsDetails(FromDetails(d)) == d
  {
    hide Code, FromField, AsField;
    KindCodes();
    FieldCorresponds(0, Opt(Str));
    if d.Details? {
      assert AsSeq(FromSeq(d.fields, FromField), AsField) == d.fields;
    }
  }

  lemma DetailsValueReturns(limit: nat, v: Value)
    requires Fits(limit, DETAILS, v)
    ensures FromDetails(AsDetails(v)) == v
  {
    hide Code, Pick, FromField, AsField, DetailFields;
    KindCodes();
    assert Fits(limit, Alternative(v.tag), v.choice);
    if v.tag > 0 {
      AttributesReturn(limit, v.tag - 1, v.choice);
    } else {
      assert v.choice.vs == [];
    }
  }

  lemma DetailsCorrespond(limit: nat)
    ensures Corresponds(limit, DETAILS, FromDetails, AsDetails)
  {
    hide FromDetails, AsDetails, Fits;
    forall d {
      DetailsReturn(d);
    }
    forall v | Fits(limit, DETAILS, v) {
      DetailsValueReturns(limit, v);
    }
  }

  lemma AttributesReturn(limit: nat, kind: nat, v: Value)
    requires Fits(limit, Rec(DetailFields(kind)), v)
    ensures FromSeq(AsSeq(v, AsField), FromField) == v
  {
    hide DetailFields, FromField, AsField, IsAttribute;
    RecFields(limit, DetailFields(kind), v);
    DetailsAreAttributes(kind);
    hide Fits;
    forall i | 0 <= i < |v.vs|
      ensures FromField(AsField(v.vs[i])) == v.vs[i]
    {
      FieldCorresponds(limit, DetailFields(kind)[i]);
    }
    assert FromSeq(AsSeq(v, AsField), FromField).vs == v.vs;
  }
}
