/** The codec of a whole state: ordered maps become counted lists, and lists become maps again. */
module StateCodec {
  import opened Bytes
  import opened Wrappers
  import opened Evidence
  import opened Model
  import opened Ordering
  import opened Codec
  import opened Streams
  import opened Enumerators
  import opened Records
  import opened Layouts
  import opened RecordCodec

  // ----- Maps and lists -----

  /** Emplaces the values one by one: a key that is taken keeps its first value. */
  function Gather<K, V>(vs: seq<V>, key: V -> K): map<K, V> {
    if vs == [] then map[]
    else
      var m := Gather(vs[..|vs| - 1], key);
      var v := vs[|vs| - 1];
      if key(v) in m then m else m[key(v) := v]
  }

  predicate UniqueKeys<K(==), V>(vs: seq<V>, key: V -> K) {
    forall i, j :: 0 <= i < j < |vs| ==> key(vs[i]) != key(vs[j])
  }

  lemma {:induction false} GatherKeys<K, V>(vs: seq<V>, key: V -> K, k: K)
    ensures k in Gather(vs, key) <==> exists i :: 0 <= i < |vs| && key(vs[i]) == k
  {
    if vs != [] {
      var n := |vs| - 1;
      var before := vs[..n];
      GatherKeys(before, key, k);
      if i :| 0 <= i < n && key(before[i]) == k {
        assert key(vs[i]) == k;
      }
      if i :| 0 <= i < n && key(vs[i]) == k {
        assert key(before[i]) == k;
      }
    }
  }

  lemma {:induction false} GatherValue<K, V>(vs: seq<V>, key: V -> K, i: nat)
    requires UniqueKeys(vs, key) && i < |vs|
    ensures key(vs[i]) in Gather(vs, key) && Gather(vs, key)[key(vs[i])] == vs[i]
    decreases |vs|
  {
    var n := |vs| - 1;
    var before := vs[..n];
    forall a, b | 0 <= a < b < n
      ensures key(before[a]) != key(before[b])
    {
      assert before[a] == vs[a] && before[b] == vs[b];
    }
    if i < n {
      assert before[i] == vs[i];
      GatherValue(before, key, i);
      assert key(vs[i]) != key(vs[n]);
    } else {
      GatherKeys(before, key, key(vs[n]));
      assert forall a :: 0 <= a < n ==> key(before[a]) == key(vs[a]) != key(vs[n]);
    }
  }

  lemma GatherHolds<K(!new), V>(vs: seq<V>, key: V -> K)
    ensures forall k :: k in Gather(vs, key) <==> exists i :: 0 <= i < |vs| && key(vs[i]) == k
    ensures UniqueKeys(vs, key) ==> forall i :: 0 <= i < |vs| ==>
              key(vs[i]) in Gather(vs, key) && Gather(vs, key)[key(vs[i])] == vs[i]
  {
    hide Gather;
    forall k {
      GatherKeys(vs, key, k);
    }
    if UniqueKeys(vs, key) {
      forall i | 0 <= i < |vs| {
        GatherValue(vs, key, i);
      }
    }
  }

  lemma InOrderUnique<K(!new), V>(m: map<K, V>, less: (K, K) -> bool, key: V -> K)
    requires StrictTotal(less) && forall k :: k in m ==> key(m[k]) == k
    ensures UniqueKeys(InOrder(m, less), key)
    ensures var keys, vs := Ascending(m.Keys, less), InOrder(m, less);
            forall i :: 0 <= i < |vs| ==> keys[i] in m && vs[i] == m[keys[i]] && key(vs[i]) == keys[i]
  {
    var keys := Ascending(m.Keys, less);
    var vs := InOrder(m, less);
    forall i | 0 <= i < |vs|
      ensures keys[i] in m && vs[i] == m[keys[i]] && key(vs[i]) == keys[i]
    {
      assert keys[i] in keys;
    }
    forall i, j | 0 <= i < j < |vs|
      ensures key(vs[i]) != key(vs[j])
    {
      assert less(keys[i], keys[j]);
    }
  }

  /** Listing a map and emplacing the list yields the map. */
  lemma InOrderGathers<K(!new), V>(m: map<K, V>, less: (K, K) -> bool, key: V -> K)
    requires StrictTotal(less) && forall k :: k in m ==> key(m[k]) == k
    ensures UniqueKeys(InOrder(m, less), key) && Gather(InOrder(m, less), key) == m
  {
    hide StrictTotal, Ascends, Ascending, InOrder, Gather, UniqueKeys;
    var keys := Ascending(m.Keys, less);
    var vs := InOrder(m, less);
    InOrderUnique(m, less, key);
    GatherHolds(vs, key);
    var g := Gather(vs, key);
    forall k
      ensures k in g <==> k in m
      ensures k in m ==> k in g && g[k] == m[k]
    {
      if k in m {
        assert k in keys;
        var i :| 0 <= i < |keys| && keys[i] == k;
        assert key(vs[i]) == k;
      }
      if k in g {
        var i :| 0 <= i < |vs| && key(vs[i]) == k;
      }
    }
  }

  method GatherAll<K(==, !new), V(==)>(vs: seq<V>, key: V -> K) returns (m: map<K, V>, unique: bool)
    ensures m == Gather(vs, key) && (unique <==> UniqueKeys(vs, key))
  {
    m, unique := map[], true;
    for i := 0 to |vs|
      invariant m == Gather(vs[..i], key) && (unique <==> UniqueKeys(vs[..i], key))
    {
      assert vs[..i + 1][..i] == vs[..i] && vs[..i + 1][i] == vs[i];
      GatherHolds(vs[..i], key);
      ExtendUnique(vs, key, i);
      if key(vs[i]) in m {
        unique := false;
      } else {
        m := m[key(vs[i]) := vs[i]];
      }
    }
    assert vs[..|vs|] == vs;
  }

  lemma ExtendUnique<K, V>(vs: seq<V>, key: V -> K, i: nat)
    requires i < |vs|
    ensures UniqueKeys(vs[..i + 1], key) <==>
              UniqueKeys(vs[..i], key) && forall j :: 0 <= j < i ==> key(vs[..i][j]) != key(vs[i])
  {
    var more, less := vs[..i + 1], vs[..i];
    forall j | 0 <= j < i
      ensures more[j] == less[j]
    {
    }
    assert more[i] == vs[i];
    if UniqueKeys(more, key) {
      forall a, b | 0 <= a < b < i
        ensures key(less[a]) != key(less[b])
      {
        assert key(more[a]) != key(more[b]);
      }
    }
  }

  // ----- Snapshots -----

  const SNAPSHOT_HEADER := [Str, Long, Long, Signed, Str, Str]

  function SnapshotFields(l: Limits): seq<Schema> {
    [Checked(SNAPSHOT_HEADER), GENERATIONS, Enum(7), List(l.maxMembers, MemberLayout(l.maxCollectionItems)),
     List(l.maxRelationships, RELATIONSHIP), List(l.maxFailureDomains, FailureDomainLayout(l.maxCollectionItems)),
     Opt(PowerLayout(l.maxCollectionItems)), Opt(CoolingLayout(l.maxCollectionItems))]
  }

  function SnapshotLayout(l: Limits): Schema { Rec(SnapshotFields(l)) }

  /** The digest is not stored. */
  function FromSnapshot(x: RackSnapshot): Value {
    Tuple([Tuple([FromText(x.id), FromLong(x.generation), FromLong(x.publicationGeneration), FromInt(x.createdAt),
                  FromText(x.rack), FromText(x.rackEpoch)]),
           FromGenerations(x.generations), FromCode(RACK_LIFECYCLES, x.lifecycle), FromSeq(x.members, FromMember),
           FromSeq(x.relationships, FromRelationship), FromSeq(x.failureDomains, FromFailureDomain),
           FromOption(x.power, FromPower), FromOption(x.cooling, FromCooling)])
  }

  function AsSnapshot(v: Value): RackSnapshot {
    var header := At(v, 0);
    RackSnapshot(
      AsText(At(header, 0)), AsLong(At(header, 1)), AsLong(At(header, 2)), AsInt(At(header, 3)), AsText(At(header, 4)),
      AsText(At(header, 5)), AsGenerations(At(v, 1)), Pick(RACK_LIFECYCLES, At(v, 2)), AsSeq(At(v, 3), AsMember),
      AsSeq(At(v, 4), AsRelationship), AsSeq(At(v, 5), AsFailureDomain), AsOption(At(v, 6), AsPower),
      AsOption(At(v, 7), AsCooling), "")
  }

  lemma AllRecordsCorrespond(limit: nat, items: nat)
    ensures Corresponds(limit, MemberLayout(items), FromMember, AsMember)
    ensures Corresponds(limit, RELATIONSHIP, FromRelationship, AsRelationship)
    ensures Corresponds(limit, FailureDomainLayout(items), FromFailureDomain, AsFailureDomain)
    ensures Corresponds(limit, PowerLayout(items), FromPower, AsPower)
    ensures Corresponds(limit, CoolingLayout(items), FromCooling, AsCooling)
    ensures Corresponds(limit, GENERATIONS, FromGenerations, AsGenerations)
    ensures Corresponds(limit, RACK_RECORD, FromRackRecord, AsRackRecord)
    ensures Corresponds(limit, PUBLISHER, FromPublisher, AsPublisher)
    ensures Corresponds(limit, FENCED, FromFenced, AsFenced)
  {
    hide Corresponds;
    MemberCorresponds(limit, items);
    RelationshipCorresponds(limit);
    FailureDomainCorresponds(limit, items);
    PowerCorresponds(limit, items);
    CoolingCorresponds(limit, items);
    GenerationsCorresponds(limit);
    RackRecordCorresponds(limit);
    PublisherCorresponds(limit);
    FencedCorresponds(limit);
  }

  lemma ListReturns<T(!new)>(xs: seq<T>, to: T -> Value, from: Value -> T)
    requires forall r: T {:trigger to(r)} :: from(to(r)) == r
    ensures AsSeq(FromSeq(xs, to), from) == xs
  {
    forall i | 0 <= i < |xs|
      ensures from(to(xs[i])) == xs[i]
    {
    }
  }

  lemma OptionReturns<T(!new)>(x: Option<T>, to: T -> Value, from: Value -> T)
    requires forall r: T {:trigger to(r)} :: from(to(r)) == r
    ensures AsOption(FromOption(x, to), from) == x
  {
  }

  lemma SnapshotReturns(x: RackSnapshot)
    ensures AsSnapshot(FromSnapshot(x)) == WithoutDigest(x)
  {
    hide FromCode, Pick, FromMember, AsMember, FromRelationship, AsRelationship, FromFailureDomain,
      AsFailureDomain, FromPower, AsPower, FromCooling, AsCooling, FromGenerations, AsGenerations, FromSeq, AsSeq,
      FromOption, AsOption, FromText, AsText, FromLong, AsLong, FromInt, AsInt;
    HeaderReturns(x);
    SnapshotPartsReturn(x);
  }

  lemma HeaderReturns(x: RackSnapshot)
    ensures AsText(FromText(x.id)) == x.id && AsText(FromText(x.rack)) == x.rack
    ensures AsText(FromText(x.rackEpoch)) == x.rackEpoch && AsInt(FromInt(x.createdAt)) == x.createdAt
    ensures AsLong(FromLong(x.generation)) == x.generation
    ensures AsLong(FromLong(x.publicationGeneration)) == x.publicationGeneration
    ensures Pick(RACK_LIFECYCLES, FromCode(RACK_LIFECYCLES, x.lifecycle)) == x.lifecycle
    ensures AsGenerations(FromGenerations(x.generations)) == x.generations
  {
    hide Codes, CodesFor, Corresponds, OptionsCorrespond, Code, Pick;
    GenerationsReturn(x.generations);
    AuthorityCodes();
    CodeReturns(RACK_LIFECYCLES, x.lifecycle);
  }

  lemma CodeReturns<T(!new)>(table: seq<T>, x: T)
    requires Codes(table)
    ensures table != [] && Pick(table, FromCode(table, x)) == x
  {
  }

  lemma SnapshotPartsReturn(x: RackSnapshot)
    ensures AsSeq(FromSeq(x.members, FromMember), AsMember) == x.members
    ensures AsSeq(FromSeq(x.relationships, FromRelationship), AsRelationship) == x.relationships
    ensures AsSeq(FromSeq(x.failureDomains, FromFailureDomain), AsFailureDomain) == x.failureDomains
    ensures AsOption(FromOption(x.power, FromPower), AsPower) == x.power
    ensures AsOption(FromOption(x.cooling, FromCooling), AsCooling) == x.cooling
  {
    hide FromMember, AsMember, FromRelationship, AsRelationship, FromFailureDomain, AsFailureDomain,
      FromPower, AsPower, FromCooling, AsCooling, FromSeq, AsSeq, FromOption, AsOption;
    AllRecordsCorrespond(0, 0);
    ListReturns(x.members, FromMember, AsMember);
    ListReturns(x.relationships, FromRelationship, AsRelationship);
    ListReturns(x.failureDomains, FromFailureDomain, AsFailureDomain);
    OptionReturns(x.power, FromPower, AsPower);
    OptionReturns(x.cooling, FromCooling, AsCooling);
  }

  lemma GenerationsReturn(x: GenerationSet)
    ensures AsGenerations(FromGenerations(x)) == x
  {
  }

  // ----- The whole state -----

  function StateFields(l: Limits, maxPublishers: nat): seq<Schema> {
    [Lenient(RACK_RECORD), GENERATIONS, Long, Long, List(l.maxMembers, MemberLayout(l.maxCollectionItems)),
     List(l.maxRelationships, RELATIONSHIP), List(l.maxFailureDomains, FailureDomainLayout(l.maxCollectionItems)),
     Opt(PowerLayout(l.maxCollectionItems)), Opt(CoolingLayout(l.maxCollectionItems)), List(maxPublishers, PUBLISHER),
     List(l.maxFencedBoots, FENCED), List(l.maxRetainedSnapshots, SnapshotLayout(l))]
  }

  function StateLayout(l: Limits, maxPublishers: nat): Schema { Rec(StateFields(l, maxPublishers)) }

  /** A reader takes fewer publishers than a writer may write. */
  function ReadablePublishers(l: Limits): nat {
    if 16 * l.maxConnections < l.maxMembers then 16 * l.maxConnections else l.maxMembers
  }

  predicate GenerationLess(a: u64, b: u64) { a < b }

  lemma SnapshotOrder()
    ensures StrictTotal(GenerationLess)
  {
  }

  ghost function FromState(s: Core): Value {
    TextOrder();
    MemberOrder();
    RelationshipOrder();
    SnapshotOrder();
    Tuple([FromOption(s.rack, FromRackRecord), FromGenerations(s.generations), FromLong(s.snapshotGeneration),
           FromLong(s.operatorPublication), FromSeq(InOrder(s.members, MemberLess), FromMember),
           FromSeq(InOrder(s.relationships, RelationshipLess), FromRelationship),
           FromSeq(InOrder(s.failureDomains, TextLess), FromFailureDomain), FromOption(s.power, FromPower),
           FromOption(s.cooling, FromCooling), FromSeq(InOrder(s.publishers, TextLess), FromPublisher),
           FromSeq(InOrder(s.fencedBoots, TextLess), FromFenced),
           FromSeq(InOrder(s.snapshots, GenerationLess), FromSnapshot)])
  }

  function KeyOfMember(r: MemberRecord): MemberKey { r.key }
  function KeyOfRelationship(r: RelationshipRecord): RelationshipKey { r.key }
  function KeyOfDomain(r: FailureDomainRecord): Text { r.id }
  function KeyOfPublisher(r: PublisherRecord): Text { r.boot }
  function KeyOfFenced(r: FencedBootRecord): Text { r.boot }
  function KeyOfSnapshot(r: RackSnapshot): u64 { r.generation }

  /** A recovered snapshot proves its own content: its digest is computed, never read. */
  function Sealed(digest: RackSnapshot -> string, x: RackSnapshot): RackSnapshot {
    x.(digest := digest(WithoutDigest(x)))
  }

  function SealAll(digest: RackSnapshot -> string, xs: seq<RackSnapshot>): seq<RackSnapshot> {
    seq(|xs|, i requires 0 <= i < |xs| => Sealed(digest, xs[i]))
  }

  /** Duplicate members, relationships, domains or snapshots are refused; duplicate boots keep their first record. */
  function AsState(digest: RackSnapshot -> string, v: Value): Option<Core> {
    var members := AsSeq(At(v, 4), AsMember);
    var relationships := AsSeq(At(v, 5), AsRelationship);
    var domains := AsSeq(At(v, 6), AsFailureDomain);
    var snapshots := SealAll(digest, AsSeq(At(v, 11), AsSnapshot));
    if UniqueKeys(members, KeyOfMember) && UniqueKeys(relationships, KeyOfRelationship)
       && UniqueKeys(domains, KeyOfDomain) && UniqueKeys(snapshots, KeyOfSnapshot)
    then
      Some(Core(
        AsOption(At(v, 0), AsRackRecord), Gather(members, KeyOfMember), Gather(relationships, KeyOfRelationship),
        Gather(domains, KeyOfDomain), AsOption(At(v, 7), AsPower), AsOption(At(v, 8), AsCooling),
        Gather(AsSeq(At(v, 9), AsPublisher), KeyOfPublisher), Gather(AsSeq(At(v, 10), AsFenced), KeyOfFenced),
        Gather(snapshots, KeyOfSnapshot), AsGenerations(At(v, 1)), AsLong(At(v, 2)), AsLong(At(v, 3))))
    else None
  }

  /** Every record sits under its own key. */
  ghost predicate Keyed(s: Core) {
    && (forall k :: k in s.members ==> s.members[k].key == k)
    && (forall k :: k in s.relationships ==> s.relationships[k].key == k)
    && (forall d :: d in s.failureDomains ==> s.failureDomains[d].id == d)
    && (forall b :: b in s.publishers ==> s.publishers[b].boot == b)
    && (forall b :: b in s.fencedBoots ==> s.fencedBoots[b].boot == b)
    && (forall g :: g in s.snapshots ==> s.snapshots[g].generation == g)
  }

  ghost predicate SnapshotsSealed(digest: RackSnapshot -> string, s: Core) {
    forall g :: g in s.snapshots ==> Sealed(digest, s.snapshots[g]) == s.snapshots[g]
  }

  lemma RecordListsReturn(s: Core)
    requires StrictTotal(TextLess) && StrictTotal(MemberLess) && StrictTotal(RelationshipLess)
    ensures AsSeq(FromSeq(InOrder(s.members, MemberLess), FromMember), AsMember) == InOrder(s.members, MemberLess)
    ensures AsSeq(FromSeq(InOrder(s.relationships, RelationshipLess), FromRelationship), AsRelationship)
         == InOrder(s.relationships, RelationshipLess)
    ensures AsSeq(FromSeq(InOrder(s.failureDomains, TextLess), FromFailureDomain), AsFailureDomain)
         == InOrder(s.failureDomains, TextLess)
    ensures AsSeq(FromSeq(InOrder(s.publishers, TextLess), FromPublisher), AsPublisher) == InOrder(s.publishers, TextLess)
    ensures AsSeq(FromSeq(InOrder(s.fencedBoots, TextLess), FromFenced), AsFenced) == InOrder(s.fencedBoots, TextLess)
  {
    hide StrictTotal, FromMember, AsMember, FromRelationship, AsRelationship, FromFailureDomain, AsFailureDomain,
      FromPublisher, AsPublisher, FromFenced, AsFenced, FromSeq, AsSeq, InOrder;
    AllRecordsCorrespond(0, 0);
    ListReturns(InOrder(s.members, MemberLess), FromMember, AsMember);
    ListReturns(InOrder(s.relationships, RelationshipLess), FromRelationship, AsRelationship);
    ListReturns(InOrder(s.failureDomains, TextLess), FromFailureDomain, AsFailureDomain);
    ListReturns(InOrder(s.publishers, TextLess), FromPublisher, AsPublisher);
    ListReturns(InOrder(s.fencedBoots, TextLess), FromFenced, AsFenced);
  }

  lemma OptionalRecordsReturn(s: Core)
    ensures AsOption(FromOption(s.rack, FromRackRecord), AsRackRecord) == s.rack
    ensures AsOption(FromOption(s.power, FromPower), AsPower) == s.power
    ensures AsOption(FromOption(s.cooling, FromCooling), AsCooling) == s.cooling
    ensures AsGenerations(FromGenerations(s.generations)) == s.generations
  {
    hide FromRackRecord, AsRackRecord, FromPower, AsPower, FromCooling, AsCooling, FromOption, AsOption;
    AllRecordsCorrespond(0, 0);
    OptionReturns(s.rack, FromRackRecord, AsRackRecord);
    OptionReturns(s.power, FromPower, AsPower);
    OptionReturns(s.cooling, FromCooling, AsCooling);
  }

  lemma SnapshotsReturn(digest: RackSnapshot -> string, xs: seq<RackSnapshot>)
    requires forall i :: 0 <= i < |xs| ==> Sealed(digest, xs[i]) == xs[i]
    ensures SealAll(digest, AsSeq(FromSeq(xs, FromSnapshot), AsSnapshot)) == xs
  {
    hide FromSnapshot, AsSnapshot;
    var read := AsSeq(FromSeq(xs, FromSnapshot), AsSnapshot);
    forall i | 0 <= i < |xs|
      ensures Sealed(digest, read[i]) == xs[i]
    {
      SnapshotReturns(xs[i]);
      assert read[i] == WithoutDigest(xs[i]);
    }
  }

  lemma ListedSnapshots(digest: RackSnapshot -> string, s: Core)
    requires StrictTotal(GenerationLess) && SnapshotsSealed(digest, s)
    ensures var xs := InOrder(s.snapshots, GenerationLess);
            SealAll(digest, AsSeq(FromSeq(xs, FromSnapshot), AsSnapshot)) == xs
  {
    hide Sealed, StrictTotal, FromSnapshot, AsSnapshot, SealAll;
    var keys := Ascending(s.snapshots.Keys, GenerationLess);
    var xs := InOrder(s.snapshots, GenerationLess);
    forall i | 0 <= i < |xs|
      ensures Sealed(digest, xs[i]) == xs[i]
    {
      assert keys[i] in keys;
    }
    SnapshotsReturn(digest, xs);
  }

  lemma MapsReturn(s: Core)
    requires Keyed(s) && StrictTotal(TextLess) && StrictTotal(MemberLess) && StrictTotal(RelationshipLess)
    requires StrictTotal(GenerationLess)
    ensures var xs := InOrder(s.members, MemberLess); UniqueKeys(xs, KeyOfMember) && Gather(xs, KeyOfMember) == s.members
    ensures var xs := InOrder(s.relationships, RelationshipLess);
            UniqueKeys(xs, KeyOfRelationship) && Gather(xs, KeyOfRelationship) == s.relationships
    ensures var xs := InOrder(s.failureDomains, TextLess);
            UniqueKeys(xs, KeyOfDomain) && Gather(xs, KeyOfDomain) == s.failureDomains
    ensures Gather(InOrder(s.publishers, TextLess), KeyOfPublisher) == s.publishers
    ensures Gather(InOrder(s.fencedBoots, TextLess), KeyOfFenced) == s.fencedBoots
    ensures var xs := InOrder(s.snapshots, GenerationLess);
            UniqueKeys(xs, KeyOfSnapshot) && Gather(xs, KeyOfSnapshot) == s.snapshots
  {
    hide StrictTotal, InOrder, Gather, UniqueKeys;
    InOrderGathers(s.members, MemberLess, KeyOfMember);
    InOrderGathers(s.relationships, RelationshipLess, KeyOfRelationship);
    InOrderGathers(s.failureDomains, TextLess, KeyOfDomain);
    InOrderGathers(s.publishers, TextLess, KeyOfPublisher);
    InOrderGathers(s.fencedBoots, TextLess, KeyOfFenced);
    InOrderGathers(s.snapshots, GenerationLess, KeyOfSnapshot);
  }

  /** The value of a state determines the state. */
  lemma StateReturns(digest: RackSnapshot -> string, s: Core)
    requires Keyed(s) && SnapshotsSealed(digest, s)
    ensures AsState(digest, FromState(s)) == Some(s)
  {
    hide StrictTotal, FromMember, AsMember, FromRelationship, AsRelationship, FromFailureDomain,
      AsFailureDomain, FromPower, AsPower, FromCooling, AsCooling, FromGenerations, AsGenerations, FromSeq, AsSeq,
      FromOption, AsOption, FromRackRecord, AsRackRecord, FromPublisher, AsPublisher, FromFenced,
      AsFenced, FromSnapshot, AsSnapshot, InOrder, Gather, UniqueKeys, SealAll, Keyed, SnapshotsSealed;
    TextOrder();
    MemberOrder();
    RelationshipOrder();
    SnapshotOrder();
    MapsReturn(s);
    RecordListsReturn(s);
    OptionalRecordsReturn(s);
    ListedSnapshots(digest, s);
  }

  // ----- Encoding and decoding -----

  lemma StateLayoutIsSolid(l: Limits, maxPublishers: nat)
    ensures Solid(StateLayout(l, maxPublishers))
  {
    var items := l.maxCollectionItems;
    MemberLayoutIsGood(items);
    RelationshipLayoutIsGood();
    FailureDomainLayoutIsGood(items);
    EnvelopeLayoutsAreGood(items);
    AuthorityLayoutsAreSolid();
    hide MemberLayout, RELATIONSHIP, FailureDomainLayout, PowerLayout, CoolingLayout, RACK_RECORD, PUBLISHER, FENCED,
      GENERATIONS;
    SolidParts();
    hide Solid, Wide;
    SolidRecord(SnapshotFields(l));
    WideSnapshot(l);
    SolidRecord(StateFields(l, maxPublishers));
  }

  lemma SolidParts()
    ensures forall s {:trigger Solid(s)} :: IsScalar(s) ==> Solid(s)
    ensures forall s {:trigger Solid(Opt(s))} :: Solid(s) ==> Solid(Opt(s))
    ensures forall s {:trigger Solid(Lenient(s))} :: Solid(s) ==> Solid(Lenient(s))
    ensures forall max, s {:trigger Solid(List(max, s))} :: Solid(s) && Wide(s) ==> Solid(List(max, s))
    ensures Solid(Checked(SNAPSHOT_HEADER)) && Solid(Checked(TWO_NAMES))
  {
  }

  lemma SolidRecord(fields: seq<Schema>)
    requires forall i :: 0 <= i < |fields| ==> Solid(fields[i])
    ensures Solid(Rec(fields))
  {
  }

  lemma WideSnapshot(l: Limits)
    ensures Wide(SnapshotLayout(l))
  {
    assert Wide(SNAPSHOT_HEADER[0]);
    assert Wide(Checked(SNAPSHOT_HEADER));
  }

  lemma AuthorityLayoutsAreSolid()
    ensures Solid(GENERATIONS) && Solid(RACK_RECORD) && Solid(PUBLISHER) && Wide(PUBLISHER) && Solid(FENCED) && Wide(FENCED)
  {
    SolidParts();
    hide Solid;
    SolidRecord(GENERATIONS_FIELDS);
    SolidRecord(RACK_RECORD_FIELDS);
    SolidRecord(PUBLISHER_FIELDS);
    SolidRecord(FENCED_FIELDS);
    assert Wide(TWO_NAMES[0]) && Wide(Checked(TWO_NAMES));
  }

  /** The bytes a state is saved as; limits on counts leave no trace in them. */
  ghost function StatePayload(l: Limits, s: Core): bytes {
    Enc(StateLayout(l, l.maxMembers), FromState(s))
  }

  lemma {:induction false} CountLimitsLeaveNoTrace(l: Limits, m: nat, n: nat, v: Value, i: nat)
    requires v.Tuple?
    ensures EncFields(StateFields(l, m), StateLayout(l, m), v.vs, i)
         == EncFields(StateFields(l, n), StateLayout(l, n), v.vs, i)
    decreases 12 - i
  {
    hide MemberLayout, RELATIONSHIP, FailureDomainLayout, PowerLayout, CoolingLayout, RACK_RECORD, PUBLISHER, FENCED,
      GENERATIONS, SnapshotLayout;
    if i < 12 && i < |v.vs| {
      CountLimitsLeaveNoTrace(l, m, n, v, i + 1);
      if i == 9 {
        SameList(PUBLISHER, m, n, v.vs[i]);
      }
      hide Enc;
      assert i != 9 ==> StateFields(l, m)[i] == StateFields(l, n)[i];
    }
  }

  lemma SameList(s: Schema, m: nat, n: nat, v: Value)
    ensures Enc(List(m, s), v) == Enc(List(n, s), v)
  {
  }

  function DecodeState(l: Limits, digest: RackSnapshot -> string, payload: bytes): Option<Core> {
    match Get(l.maxStringBytes, StateLayout(l, ReadablePublishers(l)), payload)
    case Fail(_) => None
    case Ok(v, rest) => if rest == [] then AsState(digest, v) else None
  }

  /** The state can be read back: it is typed, within the limits of a reader, and its identities and lifetimes are sane. */
  ghost predicate Readable(l: Limits, s: Core) {
    Fits(l.maxStringBytes, StateLayout(l, ReadablePublishers(l)), FromState(s))
  }

  /** Decoding inverts encoding: every map, publisher, fenced boot and snapshot comes back. */
  lemma StateRoundTrip(l: Limits, digest: RackSnapshot -> string, s: Core)
    requires Keyed(s) && SnapshotsSealed(digest, s) && Readable(l, s)
    ensures DecodeState(l, digest, StatePayload(l, s)) == Some(s)
  {
    hide FromState, AsState, Keyed, SnapshotsSealed, Fits, Get, StateFields, EncFields;
    var v, n := FromState(s), ReadablePublishers(l);
    StateIsTuple(s);
    StateReturns(digest, s);
    StateLayoutIsSolid(l, n);
    CountLimitsLeaveNoTrace(l, l.maxMembers, n, v, 0);
    assert Enc(StateLayout(l, n), v) == StatePayload(l, s);
    RoundTrip(l.maxStringBytes, StateLayout(l, n), v, []);
    assert StatePayload(l, s) + [] == StatePayload(l, s);
  }

  lemma StateIsTuple(s: Core)
    ensures FromState(s).Tuple?
  {
  }
}
