/** Which payloads are the one encoding of the state they are read as. */
module Canonicity {
  import opened Bytes
  import opened Wrappers
  import opened Model
  import opened Ordering
  import opened Codec
  import opened Streams
  import opened Enumerators
  import opened Records
  import opened Layouts
  import opened RecordCodec
  import opened StateCodec
  import StateStreams

  // ----- Lists and the maps they are gathered into -----

  ghost predicate AscendsBy<K(!new), V>(xs: seq<V>, key: V -> K, less: (K, K) -> bool) {
    forall i, j :: 0 <= i < j < |xs| ==> less(key(xs[i]), key(xs[j]))
  }

  lemma {:induction false} AscendingIsUnique<T(!new)>(s: set<T>, less: (T, T) -> bool, xs: seq<T>)
    requires StrictTotal(less) && Ascends(xs, less) && forall x :: x in xs <==> x in s
    ensures xs == Ascending(s, less)
    decreases |xs|
  {
    if xs == [] {
      assert s == {};
    } else {
      assert xs[0] in xs;
      forall x | x in s && x != xs[0]
        ensures less(xs[0], x)
      {
        var i :| 0 <= i < |xs| && xs[i] == x;
      }
      AscendingFrom(s, less, xs[0]);
      var rest := xs[1..];
      forall x
        ensures x in rest <==> x in s - {xs[0]}
      {
        if x in rest {
          var i :| 0 <= i < |rest| && rest[i] == x;
          assert xs[i + 1] == x && less(xs[0], xs[i + 1]);
        }
        if x in s && x != xs[0] {
          var i :| 0 <= i < |xs| && xs[i] == x;
          assert rest[i - 1] == x;
        }
      }
      AscendingIsUnique(s - {xs[0]}, less, rest);
    }
  }

  /** A list in the order of its keys is what its map is listed as. */
  lemma AscendingListReturns<K(!new), V>(xs: seq<V>, key: V -> K, less: (K, K) -> bool)
    requires StrictTotal(less) && AscendsBy(xs, key, less)
    ensures InOrder(Gather(xs, key), less) == xs
  {
    hide Gather, Ascending, StrictTotal;
    var m := Gather(xs, key);
    var keys := seq(|xs|, i requires 0 <= i < |xs| => key(xs[i]));
    assert UniqueKeys(xs, key) by {
      LessIsDifferent(xs, key, less);
    }
    GatherHolds(xs, key);
    forall k
      ensures k in keys <==> k in m.Keys
    {
      if k in keys {
        var i :| 0 <= i < |keys| && keys[i] == k;
        assert key(xs[i]) == k;
      }
      if k in m {
        var i :| 0 <= i < |xs| && key(xs[i]) == k;
        assert keys[i] == k;
      }
    }
    AscendingIsUnique(m.Keys, less, keys);
    forall i | 0 <= i < |xs|
      ensures InOrder(m, less)[i] == xs[i]
    {
      InOrderAt(m, less, i);
    }
  }

  lemma LessIsDifferent<K(!new), V>(xs: seq<V>, key: V -> K, less: (K, K) -> bool)
    requires StrictTotal(less) && AscendsBy(xs, key, less)
    ensures UniqueKeys(xs, key)
  {
    forall i, j | 0 <= i < j < |xs|
      ensures key(xs[i]) != key(xs[j])
    {
      assert less(key(xs[i]), key(xs[j]));
    }
  }

  lemma {:induction false} GatherIsSmaller<K, V>(vs: seq<V>, key: V -> K)
    ensures |Gather(vs, key)| <= |vs|
    ensures forall k :: k in Gather(vs, key) ==> Gather(vs, key)[k] in vs && key(Gather(vs, key)[k]) == k
    decreases |vs|
  {
    if vs != [] {
      var before, last := vs[..|vs| - 1], vs[|vs| - 1];
      GatherIsSmaller(before, key);
      assert last in vs && forall v :: v in before ==> v in vs;
    }
  }

  /**
   * The field of a payload that lists `xs`: whatever order they are in, their map is listed as something that fits, and
   * as the same field exactly when they ascend by their keys.
   */
  lemma RelistedIff<K(!new), V(!new)>(
    limit: nat, max: nat, s: Schema, field: Value, xs: seq<V>, to: V -> Value, key: V -> K, less: (K, K) -> bool)
    requires StrictTotal(less) && Fits(limit, List(max, s), field) && |xs| == |field.vs|
    requires forall i :: 0 <= i < |xs| ==> to(xs[i]) == field.vs[i]
    requires forall a: V, b: V {:trigger to(a), to(b)} :: to(a) == to(b) ==> key(a) == key(b)
    ensures Fits(limit, List(max, s), FromSeq(InOrder(Gather(xs, key), less), to))
    ensures FromSeq(InOrder(Gather(xs, key), less), to) == field <==> AscendsBy(xs, key, less)
  {
    hide StrictTotal, Ascending, Gather, InOrder, Fits, AscendsBy, FromSeq;
    RelistedFits(limit, max, s, field, xs, to, key, less);
    if AscendsBy(xs, key, less) {
      AscendingListReturns(xs, key, less);
      ListedIsField(field, xs, to) by {
        FieldIsTuple(limit, max, s, field);
      }
    }
    if FromSeq(InOrder(Gather(xs, key), less), to) == field {
      FieldIsTuple(limit, max, s, field);
      SameFieldAscends(field, xs, to, key, less);
    }
  }

  lemma FieldIsTuple(limit: nat, max: nat, s: Schema, field: Value)
    requires Fits(limit, List(max, s), field)
    ensures field.Tuple?
  {
  }

  lemma ListedIsField<V>(field: Value, xs: seq<V>, to: V -> Value)
    requires field.Tuple? && |xs| == |field.vs| && forall i :: 0 <= i < |xs| ==> to(xs[i]) == field.vs[i]
    ensures FromSeq(xs, to) == field
  {
    assert FromSeq(xs, to).vs == field.vs;
  }

  lemma RelistedFits<K(!new), V(!new)>(
    limit: nat, max: nat, s: Schema, field: Value, xs: seq<V>, to: V -> Value, key: V -> K, less: (K, K) -> bool)
    requires StrictTotal(less) && Fits(limit, List(max, s), field) && |xs| == |field.vs|
    requires forall i :: 0 <= i < |xs| ==> to(xs[i]) == field.vs[i]
    ensures Fits(limit, List(max, s), FromSeq(InOrder(Gather(xs, key), less), to))
  {
    hide StrictTotal, Ascending, Gather, InOrder;
    var m := Gather(xs, key);
    var ys := InOrder(m, less);
    GatherIsSmaller(xs, key);
    forall i | 0 <= i < |ys|
      ensures Fits(limit, s, to(ys[i]))
    {
      InOrderAt(m, less, i);
      assert ys[i] in xs;
    }
  }

  lemma SameFieldAscends<K(!new), V(!new)>(
    field: Value, xs: seq<V>, to: V -> Value, key: V -> K, less: (K, K) -> bool)
    requires StrictTotal(less) && field.Tuple? && |xs| == |field.vs|
    requires forall i :: 0 <= i < |xs| ==> to(xs[i]) == field.vs[i]
    requires forall a: V, b: V {:trigger to(a), to(b)} :: to(a) == to(b) ==> key(a) == key(b)
    requires FromSeq(InOrder(Gather(xs, key), less), to) == field
    ensures AscendsBy(xs, key, less)
  {
    hide StrictTotal, Ascending, Gather, InOrder, FromSeq;
    var m := Gather(xs, key);
    GatherIsSmaller(xs, key);
    SameFieldSameKeys(field, xs, InOrder(m, less), to, key);
    forall i, j | 0 <= i < j < |xs|
      ensures less(key(xs[i]), key(xs[j]))
    {
      InOrderAt(m, less, i);
      InOrderAt(m, less, j);
    }
  }

  lemma SameFieldSameKeys<K(!new), V(!new)>(field: Value, xs: seq<V>, ys: seq<V>, to: V -> Value, key: V -> K)
    requires field.Tuple? && |xs| == |field.vs| && FromSeq(ys, to) == field
    requires forall i :: 0 <= i < |xs| ==> to(xs[i]) == field.vs[i]
    requires forall a: V, b: V {:trigger to(a), to(b)} :: to(a) == to(b) ==> key(a) == key(b)
    ensures |ys| == |xs| && forall i :: 0 <= i < |xs| ==> key(ys[i]) == key(xs[i])
  {
    assert |FromSeq(ys, to).vs| == |ys|;
    forall i | 0 <= i < |xs|
      ensures key(ys[i]) == key(xs[i])
    {
      assert FromSeq(ys, to).vs[i] == to(ys[i]);
    }
  }

  /** The same for records whose layout corresponds to them. */
  lemma RecordsRelistedIff<K(!new), V(!new)>(
    limit: nat, max: nat, s: Schema, field: Value, to: V -> Value, from: Value -> V, key: V -> K, less: (K, K) -> bool)
    requires StrictTotal(less) && Fits(limit, List(max, s), field) && Corresponds(limit, s, to, from)
    ensures var xs := AsSeq(field, from);
            && Fits(limit, List(max, s), FromSeq(InOrder(Gather(xs, key), less), to))
            && (FromSeq(InOrder(Gather(xs, key), less), to) == field <==> AscendsBy(xs, key, less))
  {
    hide StrictTotal, InOrder, Gather, AscendsBy;
    var xs := AsSeq(field, from);
    forall i | 0 <= i < |xs|
      ensures to(xs[i]) == field.vs[i]
    {
      assert Fits(limit, s, field.vs[i]);
    }
    forall a: V, b: V | to(a) == to(b)
      ensures key(a) == key(b)
    {
      assert from(to(a)) == a && from(to(b)) == b;
    }
    RelistedIff(limit, max, s, field, xs, to, key, less);
  }

  // ----- Snapshots -----

  lemma SnapshotValueReturns(limit: nat, l: Limits, v: Value)
    requires Fits(limit, SnapshotLayout(l), v)
    ensures FromSnapshot(AsSnapshot(v)) == v
  {
    hide Fits, FromMember, AsMember, FromRelationship, AsRelationship, FromFailureDomain, AsFailureDomain, FromPower,
      AsPower, FromCooling, AsCooling, FromGenerations, AsGenerations, FromSeq, AsSeq, FromOption, AsOption, FromText,
      AsText, FromLong, AsLong, FromInt, AsInt, FromCode, Pick, MemberLayout, RELATIONSHIP, FailureDomainLayout,
      PowerLayout, CoolingLayout, GENERATIONS;
    RecFields(limit, SnapshotFields(l), v);
    HeaderValueReturns(limit, v.vs[0]);
    SnapshotListsReturn(limit, l, v);
    assert v.vs == [v.vs[0], v.vs[1], v.vs[2], v.vs[3], v.vs[4], v.vs[5], v.vs[6], v.vs[7]];
  }

  lemma HeaderValueReturns(limit: nat, v: Value)
    requires Fits(limit, Checked(SNAPSHOT_HEADER), v)
    ensures v == Tuple([FromText(AsText(At(v, 0))), FromLong(AsLong(At(v, 1))), FromLong(AsLong(At(v, 2))),
                        FromInt(AsInt(At(v, 3))), FromText(AsText(At(v, 4))), FromText(AsText(At(v, 5)))])
  {
    hide Fits, FromText, AsText, FromLong, AsLong, FromInt, AsInt;
    Scalars(limit);
    CheckedFields(limit, SNAPSHOT_HEADER, v);
  }

  lemma SnapshotListsReturn(limit: nat, l: Limits, v: Value)
    requires Fits(limit, SnapshotLayout(l), v)
    ensures v.Tuple? && |v.vs| == 8
    ensures FromGenerations(AsGenerations(v.vs[1])) == v.vs[1]
    ensures FromCode(RACK_LIFECYCLES, Pick(RACK_LIFECYCLES, v.vs[2])) == v.vs[2]
    ensures FromSeq(AsSeq(v.vs[3], AsMember), FromMember) == v.vs[3]
    ensures FromSeq(AsSeq(v.vs[4], AsRelationship), FromRelationship) == v.vs[4]
    ensures FromSeq(AsSeq(v.vs[5], AsFailureDomain), FromFailureDomain) == v.vs[5]
    ensures FromOption(AsOption(v.vs[6], AsPower), FromPower) == v.vs[6]
    ensures FromOption(AsOption(v.vs[7], AsCooling), FromCooling) == v.vs[7]
  {
    hide Fits, FromMember, AsMember, FromRelationship, AsRelationship, FromFailureDomain, AsFailureDomain, FromPower,
      AsPower, FromCooling, AsCooling, FromGenerations, AsGenerations, FromSeq, AsSeq, FromOption, AsOption, Codes,
      FromCode, Pick, MemberLayout, RELATIONSHIP, FailureDomainLayout, PowerLayout, CoolingLayout, GENERATIONS;
    var items := l.maxCollectionItems;
    RecFields(limit, SnapshotFields(l), v);
    assert forall i :: 0 <= i < 8 ==> Fits(limit, SnapshotFields(l)[i], v.vs[i]);
    AllRecordsCorrespond(limit, items);
    AuthorityCodes();
    TableFor(limit, RACK_LIFECYCLES, 7);
    ListCorresponds(limit, l.maxMembers, MemberLayout(items), FromMember, AsMember);
    ListCorresponds(limit, l.maxRelationships, RELATIONSHIP, FromRelationship, AsRelationship);
    ListCorresponds(limit, l.maxFailureDomains, FailureDomainLayout(items), FromFailureDomain, AsFailureDomain);
    OptionCorresponds(limit, PowerLayout(items), FromPower, AsPower);
    OptionCorresponds(limit, CoolingLayout(items), FromCooling, AsCooling);
  }

  lemma SnapshotKeyIsRead(a: RackSnapshot, b: RackSnapshot)
    requires FromSnapshot(a) == FromSnapshot(b)
    ensures KeyOfSnapshot(a) == KeyOfSnapshot(b)
  {
    SnapshotReturns(a);
    SnapshotReturns(b);
    hide FromSnapshot, AsSnapshot;
  }

  lemma SnapshotsRelistedIff(limit: nat, l: Limits, digest: RackSnapshot -> string, field: Value)
    requires StrictTotal(GenerationLess)
    requires Fits(limit, List(l.maxRetainedSnapshots, SnapshotLayout(l)), field)
    ensures var xs := SealAll(digest, AsSeq(field, AsSnapshot));
            var listed := FromSeq(InOrder(Gather(xs, KeyOfSnapshot), GenerationLess), FromSnapshot);
            && Fits(limit, List(l.maxRetainedSnapshots, SnapshotLayout(l)), listed)
            && (listed == field <==> AscendsBy(AsSeq(field, AsSnapshot), KeyOfSnapshot, GenerationLess))
  {
    hide StrictTotal, InOrder, Gather, FromSnapshot, AsSnapshot, SnapshotLayout;
    var read := AsSeq(field, AsSnapshot);
    var xs := SealAll(digest, read);
    forall i | 0 <= i < |xs|
      ensures FromSnapshot(xs[i]) == field.vs[i] && KeyOfSnapshot(xs[i]) == KeyOfSnapshot(read[i])
    {
      SnapshotValueReturns(limit, l, field.vs[i]);
      SealIsNotWritten(digest, read[i]);
    }
    forall a: RackSnapshot, b: RackSnapshot | FromSnapshot(a) == FromSnapshot(b)
      ensures KeyOfSnapshot(a) == KeyOfSnapshot(b)
    {
      SnapshotKeyIsRead(a, b);
    }
    hide KeyOfSnapshot, SealAll;
    RelistedIff(limit, l.maxRetainedSnapshots, SnapshotLayout(l), field, xs, FromSnapshot, KeyOfSnapshot, GenerationLess);
    assert AscendsBy(xs, KeyOfSnapshot, GenerationLess) <==> AscendsBy(read, KeyOfSnapshot, GenerationLess);
  }

  lemma SealIsNotWritten(digest: RackSnapshot -> string, x: RackSnapshot)
    ensures FromSnapshot(Sealed(digest, x)) == FromSnapshot(x)
  {
    hide FromMember, FromRelationship, FromFailureDomain, FromPower, FromCooling, FromGenerations, FromSeq, FromOption;
  }

  // ----- The whole payload -----

  /** Every keyed list of the state strictly ascends by its keys. */
  ghost predicate KeysAscend(v: Value) {
    && AscendsBy(AsSeq(At(v, 4), AsMember), KeyOfMember, MemberLess)
    && AscendsBy(AsSeq(At(v, 5), AsRelationship), KeyOfRelationship, RelationshipLess)
    && AscendsBy(AsSeq(At(v, 6), AsFailureDomain), KeyOfDomain, TextLess)
    && AscendsBy(AsSeq(At(v, 9), AsPublisher), KeyOfPublisher, TextLess)
    && AscendsBy(AsSeq(At(v, 10), AsFenced), KeyOfFenced, TextLess)
    && AscendsBy(AsSeq(At(v, 11), AsSnapshot), KeyOfSnapshot, GenerationLess)
  }

  lemma ListFieldsRelist(limit: nat, l: Limits, n: nat, digest: RackSnapshot -> string, v: Value, s: Core)
    requires Fits(limit, StateLayout(l, n), v) && AsState(digest, v) == Some(s)
    ensures v.Tuple? && |v.vs| == 12 && FromState(s).Tuple? && |FromState(s).vs| == 12
    ensures var w := FromState(s).vs;
            && Fits(limit, StateFields(l, n)[4], w[4]) && Fits(limit, StateFields(l, n)[5], w[5])
            && Fits(limit, StateFields(l, n)[6], w[6]) && Fits(limit, StateFields(l, n)[9], w[9])
            && Fits(limit, StateFields(l, n)[10], w[10]) && Fits(limit, StateFields(l, n)[11], w[11])
    ensures var w := FromState(s).vs;
            (w[4] == v.vs[4] && w[5] == v.vs[5] && w[6] == v.vs[6] && w[9] == v.vs[9] && w[10] == v.vs[10]
             && w[11] == v.vs[11]) <==> KeysAscend(v)
  {
    hide StrictTotal, Fits, FromMember, AsMember, FromRelationship, AsRelationship, FromFailureDomain, AsFailureDomain,
      FromPower, AsPower, FromCooling, AsCooling, FromGenerations, AsGenerations, FromSeq, AsSeq, FromOption, AsOption,
      FromRackRecord, AsRackRecord, FromPublisher, AsPublisher, FromFenced, AsFenced, FromSnapshot, AsSnapshot, InOrder,
      Gather, UniqueKeys, SealAll, AscendsBy, Corresponds, MemberLayout, RELATIONSHIP, FailureDomainLayout, PowerLayout,
      CoolingLayout, RACK_RECORD, PUBLISHER, FENCED, GENERATIONS, SnapshotLayout;
    TextOrder();
    MemberOrder();
    RelationshipOrder();
    SnapshotOrder();
    AllRecordsCorrespond(limit, l.maxCollectionItems);
    RecFields(limit, StateFields(l, n), v);
    assert forall i :: 0 <= i < 12 ==> Fits(limit, StateFields(l, n)[i], v.vs[i]);
    RecordsRelistedIff(limit, l.maxMembers, MemberLayout(l.maxCollectionItems), v.vs[4], FromMember, AsMember,
                       KeyOfMember, MemberLess);
    RecordsRelistedIff(limit, l.maxRelationships, RELATIONSHIP, v.vs[5], FromRelationship, AsRelationship,
                       KeyOfRelationship, RelationshipLess);
    RecordsRelistedIff(limit, l.maxFailureDomains, FailureDomainLayout(l.maxCollectionItems), v.vs[6],
                       FromFailureDomain, AsFailureDomain, KeyOfDomain, TextLess);
    RecordsRelistedIff(limit, n, PUBLISHER, v.vs[9], FromPublisher, AsPublisher, KeyOfPublisher, TextLess);
    RecordsRelistedIff(limit, l.maxFencedBoots, FENCED, v.vs[10], FromFenced, AsFenced, KeyOfFenced, TextLess);
    SnapshotsRelistedIff(limit, l, digest, v.vs[11]);
  }

  lemma OtherFieldsReturn(limit: nat, l: Limits, n: nat, digest: RackSnapshot -> string, v: Value, s: Core)
    requires Fits(limit, StateLayout(l, n), v) && AsState(digest, v) == Some(s)
    ensures v.Tuple? && |v.vs| == 12 && FromState(s).Tuple? && |FromState(s).vs| == 12
    ensures forall i :: 0 <= i < 4 || 7 <= i < 9 ==> FromState(s).vs[i] == v.vs[i]
  {
    hide StrictTotal, Fits, FromMember, AsMember, FromRelationship, AsRelationship, FromFailureDomain, AsFailureDomain,
      FromPower, AsPower, FromCooling, AsCooling, FromGenerations, AsGenerations, FromSeq, AsSeq, FromOption, AsOption,
      FromRackRecord, AsRackRecord, FromPublisher, AsPublisher, FromFenced, AsFenced, FromSnapshot, AsSnapshot, InOrder,
      Gather, UniqueKeys, SealAll, AscendsBy, MemberLayout, RELATIONSHIP, FailureDomainLayout, PowerLayout,
      CoolingLayout, RACK_RECORD, PUBLISHER, FENCED, GENERATIONS, SnapshotLayout, FromLong, AsLong;
    TextOrder();
    MemberOrder();
    RelationshipOrder();
    SnapshotOrder();
    AllRecordsCorrespond(limit, l.maxCollectionItems);
    OptionCorresponds(limit, PowerLayout(l.maxCollectionItems), FromPower, AsPower);
    OptionCorresponds(limit, CoolingLayout(l.maxCollectionItems), FromCooling, AsCooling);
    LenientReturns(limit, RACK_RECORD, FromRackRecord, AsRackRecord);
    Scalars(limit);
    RecFields(limit, StateFields(l, n), v);
    assert forall i :: 0 <= i < 12 ==> Fits(limit, StateFields(l, n)[i], v.vs[i]);
  }

  lemma LenientReturns<T(!new)>(limit: nat, s: Schema, to: T -> Value, from: Value -> T)
    requires Corresponds(limit, s, to, from)
    ensures forall v {:trigger AsOption(v, from)} :: Fits(limit, Lenient(s), v) ==> FromOption(AsOption(v, from), to) == v
  {
  }

  lemma StateRelistedIff(limit: nat, l: Limits, n: nat, digest: RackSnapshot -> string, v: Value, s: Core)
    requires Fits(limit, StateLayout(l, n), v) && AsState(digest, v) == Some(s)
    ensures Fits(limit, StateLayout(l, n), FromState(s))
    ensures FromState(s) == v <==> KeysAscend(v)
  {
    hide AsState, FromState, KeysAscend, Fits;
    RecFields(limit, StateFields(l, n), v);
    assert |StateFields(l, n)| == 12;
    ListFieldsRelist(limit, l, n, digest, v, s);
    OtherFieldsReturn(limit, l, n, digest, v, s);
    var w := FromState(s);
    assert forall i :: 0 <= i < 12 ==> Fits(limit, StateFields(l, n)[i], w.vs[i]);
    FieldsMakeRecord(limit, StateFields(l, n), w);
    if KeysAscend(v) {
      assert w.vs == v.vs;
    }
  }

  lemma FieldsMakeRecord(limit: nat, fields: seq<Schema>, v: Value)
    requires v.Tuple? && |v.vs| == |fields| && forall i :: 0 <= i < |fields| ==> Fits(limit, fields[i], v.vs[i])
    ensures Fits(limit, Rec(fields), v)
  {
  }

  // ----- The lenient first flag -----

  /** The layout of a state with a strict flag in front of the rack. */
  function StrictFields(l: Limits, n: nat): seq<Schema> { StateFields(l, n)[0 := Opt(RACK_RECORD)] }

  lemma StrictFieldsAreStrict(l: Limits, n: nat)
    ensures Strict(Rec(StrictFields(l, n)))
  {
    var items := l.maxCollectionItems;
    MemberLayoutIsGood(items);
    RelationshipLayoutIsGood();
    FailureDomainLayoutIsGood(items);
    EnvelopeLayoutsAreGood(items);
    hide MemberLayout, RELATIONSHIP, FailureDomainLayout, PowerLayout, CoolingLayout;
    StrictParts();
    StrictAuthority();
    hide RACK_RECORD, PUBLISHER, FENCED, GENERATIONS;
    StrictSnapshot(l);
    hide Strict, SnapshotLayout;
    StrictRecord(StrictFields(l, n));
  }

  lemma StrictParts()
    ensures forall s {:trigger Strict(s)} :: IsScalar(s) ==> Strict(s)
    ensures forall s {:trigger Strict(Opt(s))} :: Strict(s) ==> Strict(Opt(s))
    ensures forall max, s {:trigger Strict(List(max, s))} :: Strict(s) ==> Strict(List(max, s))
    ensures Strict(Checked(SNAPSHOT_HEADER)) && Strict(Checked(TWO_NAMES))
  {
  }

  lemma StrictRecord(fields: seq<Schema>)
    requires forall i :: 0 <= i < |fields| ==> Strict(fields[i])
    ensures Strict(Rec(fields))
  {
  }

  lemma StrictAuthority()
    ensures Strict(GENERATIONS) && Strict(RACK_RECORD) && Strict(PUBLISHER) && Strict(FENCED)
  {
    StrictParts();
    hide Strict;
    StrictRecord(GENERATIONS_FIELDS);
    StrictRecord(RACK_RECORD_FIELDS);
    StrictRecord(PUBLISHER_FIELDS);
    StrictRecord(FENCED_FIELDS);
  }

  lemma StrictSnapshot(l: Limits)
    ensures Strict(SnapshotLayout(l))
  {
    var items := l.maxCollectionItems;
    MemberLayoutIsGood(items);
    RelationshipLayoutIsGood();
    FailureDomainLayoutIsGood(items);
    EnvelopeLayoutsAreGood(items);
    hide MemberLayout, RELATIONSHIP, FailureDomainLayout, PowerLayout, CoolingLayout;
    StrictAuthority();
    hide GENERATIONS;
    StrictParts();
    hide Strict;
    StrictRecord(SnapshotFields(l));
  }

  /** Read with a strict flag or a lenient one, a payload that starts with 0 or 1 is the same. */
  lemma FlagReadsAlike(limit: nat, item: Schema, bs: bytes)
    requires bs != [] && bs[0] <= 1
    ensures Get(limit, Lenient(item), bs) == Get(limit, Opt(item), bs)
  {
    FlagRoundTrip(bs[0] as nat, bs[1..]);
    assert [bs[0]] + bs[1..] == bs;
  }

  lemma FirstFieldReadsAlike(limit: nat, a: seq<Schema>, b: seq<Schema>, bs: bytes)
    requires a != [] && |a| == |b| && a[1..] == b[1..] && Get(limit, a[0], bs) == Get(limit, b[0], bs)
    ensures Get(limit, Rec(a), bs) == Get(limit, Rec(b), bs)
  {
    var first := Get(limit, a[0], bs);
    if first.Ok? {
      LaterFieldsReadAlike(limit, a, b, 1, first.rest);
    }
  }

  lemma {:induction false} LaterFieldsReadAlike(limit: nat, a: seq<Schema>, b: seq<Schema>, i: nat, bs: bytes)
    requires 0 < |a| == |b| && 1 <= i && a[1..] == b[1..]
    ensures GetFields(limit, a, Rec(a), i, bs) == GetFields(limit, b, Rec(b), i, bs)
    decreases |a| - i
  {
    hide Get;
    if i < |a| {
      assert a[i] == a[1..][i - 1] == b[i];
      var first := Get(limit, a[i], bs);
      if first.Ok? {
        LaterFieldsReadAlike(limit, a, b, i + 1, first.rest);
      }
    }
  }

  lemma {:induction false} LaterFieldsWriteAlike(a: seq<Schema>, b: seq<Schema>, vs: seq<Value>, i: nat)
    requires 0 < |a| == |b| && 1 <= i && a[1..] == b[1..]
    ensures EncFields(a, Rec(a), vs, i) == EncFields(b, Rec(b), vs, i)
    decreases |a| - i
  {
    hide Enc;
    if i < |a| && i < |vs| {
      assert a[i] == a[1..][i - 1] == b[i];
      LaterFieldsWriteAlike(a, b, vs, i + 1);
    }
  }

  lemma FirstFieldWritesAlike(a: seq<Schema>, b: seq<Schema>, v: Value)
    requires a != [] && |a| == |b| && a[1..] == b[1..] && v.Tuple? && v.vs != []
    requires Enc(a[0], v.vs[0]) == Enc(b[0], v.vs[0])
    ensures Enc(Rec(a), v) == Enc(Rec(b), v)
  {
    LaterFieldsWriteAlike(a, b, v.vs, 1);
  }

  lemma StartsWithFlag(fields: seq<Schema>, item: Schema, v: Value)
    requires fields != [] && fields[0] == Lenient(item) && v.Tuple? && v.vs != []
    ensures Enc(Rec(fields), v) != [] && Enc(Rec(fields), v)[0] <= 1
  {
    var first := Enc(Lenient(item), v.vs[0]);
    assert first != [] && first[0] <= 1;
    assert Enc(Rec(fields), v) == first + EncFields(fields, Rec(fields), v.vs, 1);
  }

  lemma FlagsFitAlike(limit: nat, l: Limits, n: nat, v: Value)
    requires Fits(limit, Rec(StrictFields(l, n)), v)
    ensures Fits(limit, StateLayout(l, n), v)
  {
    RecFields(limit, StrictFields(l, n), v);
    hide Fits;
    assert Fits(limit, StateFields(l, n)[0], v.vs[0]) by {
      assert Fits(limit, StrictFields(l, n)[0], v.vs[0]);
      OptionFitsAlike(limit, RACK_RECORD, v.vs[0]);
    }
    FieldsMakeRecord(limit, StateFields(l, n), v);
  }

  lemma OptionFitsAlike(limit: nat, item: Schema, v: Value)
    ensures Fits(limit, Lenient(item), v) <==> Fits(limit, Opt(item), v)
  {
  }

  lemma OptionWritesAlike(item: Schema, v: Value)
    ensures Enc(Lenient(item), v) == Enc(Opt(item), v)
  {
  }

  /** A payload that starts with 0 or 1 is the encoding of the value it is read as. */
  lemma FlaggedIsEncoding(limit: nat, l: Limits, n: nat, payload: bytes, v: Value)
    requires Get(limit, StateLayout(l, n), payload) == Ok(v, []) && payload != [] && payload[0] <= 1
    ensures Fits(limit, StateLayout(l, n), v) && payload == Enc(StateLayout(l, n), v)
  {
    var a, b := StateFields(l, n), StrictFields(l, n);
    assert a[1..] == b[1..];
    assert a[0] == Lenient(RACK_RECORD) && b[0] == Opt(RACK_RECORD);
    hide StateFields, StrictFields, RACK_RECORD, Get, Enc, Fits, Strict;
    FlagReadsAlike(limit, RACK_RECORD, payload);
    FirstFieldReadsAlike(limit, a, b, payload);
    StrictFieldsAreStrict(l, n);
    Codec.Canonical(limit, Rec(b), payload, v, []);
    FlagsFitAlike(limit, l, n, v);
    RecFields(limit, b, v);
    OptionWritesAlike(RACK_RECORD, v.vs[0]);
    FirstFieldWritesAlike(a, b, v);
    assert Enc(Rec(b), v) + [] == Enc(Rec(b), v);
  }

  /**
   * An accepted payload is the encoding of the very state it is read as exactly when it starts with 0 or 1 and each of
   * its keyed lists strictly ascends.
   */
  lemma PayloadIsCanonicalIff(l: Limits, digest: RackSnapshot -> string, payload: bytes, s: Core)
    requires DecodeState(l, digest, payload) == Some(s)
    ensures payload != []
    ensures payload == StatePayload(l, s) <==> payload[0] <= 1 && KeysAscend(ValueOf(l, payload))
  {
    hide Get, Enc, Fits, FromState, AsState, KeysAscend, StateFields, EncFields, RACK_RECORD, Solid;
    var limit, n := l.maxStringBytes, ReadablePublishers(l);
    var v, w := ValueOf(l, payload), FromState(s);
    assert Get(limit, StateLayout(l, n), payload) == Ok(v, []);
    PayloadIsNotEmpty(limit, l, n, payload, v);
    StateHasFields(s);
    FirstStateField(l, n);
    StateLayoutIsSolid(l, n);
    CountLimitsLeaveNoTrace(l, l.maxMembers, n, w, 0);
    EncodesFields(l, n, w);
    EncodesFields(l, l.maxMembers, w);
    StartsWithFlag(StateFields(l, n), RACK_RECORD, w);
    if payload[0] <= 1 {
      FlaggedIsEncoding(limit, l, n, payload, v);
      StateRelistedIff(limit, l, n, digest, v, s);
      if payload == StatePayload(l, s) {
        EncodingIsPrefixFree(limit, StateLayout(l, n), v, w, [], []);
      }
    }
  }

  /** Payloads that are not canonical are accepted: with another first byte, every payload without a rack. */
  lemma OtherFlagsAreAccepted(l: Limits, digest: RackSnapshot -> string, flag: byte, rest: bytes, s: Core)
    requires DecodeState(l, digest, [0] + rest) == Some(s) && flag > 1
    ensures DecodeState(l, digest, [flag] + rest) == Some(s) && [flag] + rest != StatePayload(l, s)
  {
    hide DecodeState, StatePayload, KeysAscend;
    StateStreams.RackFlagIsAmbiguous(l, digest, flag, rest);
    PayloadIsCanonicalIff(l, digest, [flag] + rest, s);
  }

  /** The value a payload is read as. */
  function ValueOf(l: Limits, payload: bytes): Value {
    var p := Get(l.maxStringBytes, StateLayout(l, ReadablePublishers(l)), payload);
    if p.Ok? then p.value else Missing
  }

  lemma EncodesFields(l: Limits, n: nat, v: Value)
    requires v.Tuple?
    ensures Enc(StateLayout(l, n), v) == EncFields(StateFields(l, n), StateLayout(l, n), v.vs, 0)
  {
    hide StateFields, EncFields;
  }

  lemma StateHasFields(s: Core)
    ensures FromState(s).Tuple? && FromState(s).vs != []
  {
    hide InOrder, FromMember, FromRelationship, FromFailureDomain, FromPublisher, FromFenced, FromSnapshot;
  }

  lemma FirstStateField(l: Limits, n: nat)
    ensures StateFields(l, n) != [] && StateFields(l, n)[0] == Lenient(RACK_RECORD)
  {
  }

  lemma PayloadIsNotEmpty(limit: nat, l: Limits, n: nat, payload: bytes, v: Value)
    requires Get(limit, StateLayout(l, n), payload) == Ok(v, [])
    ensures payload != []
  {
    hide StateFields, RACK_RECORD;
    FirstStateField(l, n);
    assert Get(limit, StateFields(l, n)[0], payload).Ok?;
  }
}
