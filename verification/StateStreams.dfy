/** Saving a state to bytes and reading it back, with the program's bounded writer and reader. */
module StateStreams {
  import opened Bytes
  import opened Wrappers
  import opened Model
  import opened Ordering
  import opened Codec
  import opened Streams
  import opened Records
  import opened Layouts
  import opened StateCodec
  import opened Shapes

  /** Iterates over a map in key order. */
  method ListValues<K(!new, ==), V>(m: map<K, V>, less: (K, K) -> bool, to: V -> Value) returns (v: Value)
    requires StrictTotal(less)
    ensures v == FromSeq(InOrder(m, less), to)
  {
    hide StrictTotal, InOrder;
    var listed := ListInOrder(m, less);
    v := FromSeq(listed, to);
  }

  method StateValue(s: Core) returns (v: Value)
    ensures v == FromState(s)
  {
    hide StrictTotal, FromSeq, InOrder, FromMember, FromRelationship, FromFailureDomain, FromPublisher, FromFenced,
      FromSnapshot, FromOption, FromGenerations;
    TextOrder();
    MemberOrder();
    RelationshipOrder();
    SnapshotOrder();
    var members := ListValues(s.members, MemberLess, FromMember);
    var relationships := ListValues(s.relationships, RelationshipLess, FromRelationship);
    var domains := ListValues(s.failureDomains, TextLess, FromFailureDomain);
    var publishers := ListValues(s.publishers, TextLess, FromPublisher);
    var fenced := ListValues(s.fencedBoots, TextLess, FromFenced);
    var snapshots := ListValues(s.snapshots, GenerationLess, FromSnapshot);
    v := Tuple([FromOption(s.rack, FromRackRecord), FromGenerations(s.generations), FromLong(s.snapshotGeneration),
                FromLong(s.operatorPublication), members, relationships, domains, FromOption(s.power, FromPower),
                FromOption(s.cooling, FromCooling), publishers, fenced, snapshots]);
  }

  /** Everything a writer checks about a state. */
  ghost predicate Savable(l: Limits, s: Core)
    requires TypedState(s)
  {
    StateIsShaped(l, l.maxMembers, s);
    Storable(l.maxStringBytes, StateLayout(l, l.maxMembers), FromState(s))
  }

  /** Up to here the writer checks the bytes of the state against its capacity; flags behind it are not checked. */
  ghost function CheckedBytes(l: Limits, s: Core): nat
    requires TypedState(s)
  {
    StateIsShaped(l, l.maxMembers, s);
    CheckedEnd(StateLayout(l, l.maxMembers), FromState(s))
  }

  /** Yields the payload of a state, or nothing: a string or count is over its limit, or the checked bytes are. */
  method EncodeState(l: Limits, s: Core) returns (payload: Option<bytes>)
    requires l.maxStringBytes <= U32_MAX && TypedState(s)
    ensures payload == if Savable(l, s) && HasRoom(0, CheckedBytes(l, s), l.maxPersistedBytes)
                       then Some(StatePayload(l, s)) else None
  {
    hide FromState, Enc, Storable, Shaped, TypedState, CheckedEnd, HasRoom;
    StateIsShaped(l, l.maxMembers, s);
    var v := StateValue(s);
    var writer := new ByteWriter(l.maxStringBytes, l.maxPersistedBytes);
    writer.Write(StateLayout(l, l.maxMembers), v);
    if !writer.ok {
      return None;
    }
    assert writer.buffer == StatePayload(l, s);
    payload := Some(writer.buffer);
  }

  lemma CheckedBytesWithin(l: Limits, s: Core)
    requires TypedState(s)
    ensures CheckedBytes(l, s) <= |StatePayload(l, s)|
  {
    hide FromState, Enc, Shaped, TypedState, CheckedEnd;
    StateIsShaped(l, l.maxMembers, s);
    CheckedWithin(StateLayout(l, l.maxMembers), FromState(s));
  }

  /** Emplaces the listed records one by one. */
  method Assemble(digest: RackSnapshot -> string, v: Value) returns (s: Option<Core>)
    ensures s == AsState(digest, v)
  {
    hide AsSnapshot, AsMember, AsRelationship, AsFailureDomain, AsPublisher, AsFenced, AsPower, AsCooling, AsRackRecord,
      AsGenerations, UniqueKeys, Gather, AsSeq, AsOption, SealAll, AsLong, At;
    var members, uniqueMembers := GatherAll(AsSeq(At(v, 4), AsMember), KeyOfMember);
    var relationships, uniqueRelationships := GatherAll(AsSeq(At(v, 5), AsRelationship), KeyOfRelationship);
    var domains, uniqueDomains := GatherAll(AsSeq(At(v, 6), AsFailureDomain), KeyOfDomain);
    var publishers, _ := GatherAll(AsSeq(At(v, 9), AsPublisher), KeyOfPublisher);
    var fenced, _ := GatherAll(AsSeq(At(v, 10), AsFenced), KeyOfFenced);
    var snapshots, uniqueSnapshots := GatherAll(SealAll(digest, AsSeq(At(v, 11), AsSnapshot)), KeyOfSnapshot);
    if !uniqueMembers || !uniqueRelationships || !uniqueDomains || !uniqueSnapshots {
      return None;
    }
    s := Some(Core(
      AsOption(At(v, 0), AsRackRecord), members, relationships, domains, AsOption(At(v, 7), AsPower),
      AsOption(At(v, 8), AsCooling), publishers, fenced, snapshots, AsGenerations(At(v, 1)), AsLong(At(v, 2)),
      AsLong(At(v, 3))));
  }

  /** Reads a whole payload. */
  method DecodePayload(l: Limits, digest: RackSnapshot -> string, payload: bytes) returns (s: Option<Core>)
    ensures s == DecodeState(l, digest, payload)
  {
    hide Get, StateLayout, AsState;
    var reader := new ByteReader(payload, l.maxStringBytes);
    var v := reader.Read(StateLayout(l, ReadablePublishers(l)));
    if !reader.ok || reader.offset != |payload| {
      return None;
    }
    s := Assemble(digest, v);
  }

  /** Its identities are valid and its lifetimes in range, which a writer does not check. */
  ghost predicate SaneState(l: Limits, s: Core) {
    Sane(StateLayout(l, l.maxMembers), FromState(s))
  }

  /** What a writer accepted fits a reader exactly when it is sane and the publishers fit the smaller limit of readers. */
  lemma SavedIsReadable(l: Limits, s: Core)
    requires l.maxStringBytes <= U32_MAX && TypedState(s) && Savable(l, s)
    ensures Readable(l, s) <==> SaneState(l, s) && |s.publishers| <= ReadablePublishers(l)
  {
    hide FromState, Storable, Shaped, Sane, TypedState, Fits;
    var limit, v, m := l.maxStringBytes, FromState(s), l.maxMembers;
    var n := ReadablePublishers(l);
    StateIsShaped(l, m, s);
    FitsIff(limit, StateLayout(l, m), v);
    PublishersAreField9(s);
    FieldsFit(limit, l, m, v);
    FieldsFit(limit, l, n, v);
    ListFits(limit, m, n, PUBLISHER, v.vs[9]);
    assert forall i :: 0 <= i < 12 && i != 9 ==> StateFields(l, n)[i] == StateFields(l, m)[i];
  }

  lemma PublishersAreField9(s: Core)
    ensures FromState(s).Tuple? && |FromState(s).vs| == 12
    ensures FromState(s).vs[9].Tuple? && |FromState(s).vs[9].vs| == |s.publishers|
  {
    hide InOrder, FromMember, FromRelationship, FromFailureDomain, FromPublisher, FromFenced, FromSnapshot;
    TextOrder();
    assert |InOrder(s.publishers, TextLess)| == |s.publishers|;
  }

  lemma SavablePublishers(l: Limits, s: Core)
    requires TypedState(s) && Savable(l, s)
    ensures |s.publishers| <= l.maxMembers
  {
    hide FromState, TypedState;
    StateIsShaped(l, l.maxMembers, s);
    PublishersAreField9(s);
    var fields := StateFields(l, l.maxMembers);
    assert Storable(l.maxStringBytes, fields[9], FromState(s).vs[9]);
  }

  lemma FieldsFit(limit: nat, l: Limits, m: nat, v: Value)
    requires v.Tuple? && |v.vs| == 12
    ensures Fits(limit, StateLayout(l, m), v) <==> forall i :: 0 <= i < 12 ==> Fits(limit, StateFields(l, m)[i], v.vs[i])
  {
    assert |StateFields(l, m)| == 12;
  }

  lemma ListFits(limit: nat, m: nat, n: nat, s: Schema, v: Value)
    requires v.Tuple? && n <= m
    ensures Fits(limit, List(n, s), v) <==> Fits(limit, List(m, s), v) && |v.vs| <= n
  {
  }

  lemma SavableIsSized(l: Limits, n: nat, s: Core)
    requires l.maxStringBytes <= U32_MAX && TypedState(s) && Savable(l, s)
    ensures Shaped(StateLayout(l, n), FromState(s)) && Sized(StateLayout(l, n), FromState(s))
  {
    hide FromState, Storable, Shaped, Sized, TypedState;
    var v, m := FromState(s), l.maxMembers;
    StateIsShaped(l, m, s);
    StateIsShaped(l, n, s);
    StorableIsSized(l.maxStringBytes, StateLayout(l, m), v);
    PublishersAreField9(s);
    FieldsSized(l, m, v);
    FieldsSized(l, n, v);
    ListSized(m, n, PUBLISHER, v.vs[9]);
    assert forall i :: 0 <= i < 12 && i != 9 ==> StateFields(l, n)[i] == StateFields(l, m)[i];
  }

  lemma FieldsSized(l: Limits, m: nat, v: Value)
    requires Shaped(StateLayout(l, m), v)
    ensures v.Tuple? && |v.vs| == 12
    ensures forall i :: 0 <= i < 12 ==> Shaped(StateFields(l, m)[i], v.vs[i])
    ensures Sized(StateLayout(l, m), v) <==> forall i :: 0 <= i < 12 ==> Sized(StateFields(l, m)[i], v.vs[i])
  {
    assert |StateFields(l, m)| == 12;
  }

  lemma ListSized(m: nat, n: nat, s: Schema, v: Value)
    requires Shaped(List(m, s), v)
    ensures Shaped(List(n, s), v) && (Sized(List(n, s), v) <==> Sized(List(m, s), v))
  {
  }

  /**
   * A payload that an encoder yields is decoded to the very state it came from, if that is sane and its publishers fit
   * the limit of readers; otherwise it is refused.
   */
  lemma SavedStateReturns(l: Limits, digest: RackSnapshot -> string, s: Core)
    requires l.maxStringBytes <= U32_MAX && TypedState(s) && Keyed(s) && SnapshotsSealed(digest, s) && Savable(l, s)
    ensures DecodeState(l, digest, StatePayload(l, s))
         == if SaneState(l, s) && |s.publishers| <= ReadablePublishers(l) then Some(s) else None
  {
    hide Keyed, SnapshotsSealed, TypedState, Savable, SaneState, Readable, DecodeState, StatePayload,
      ReadablePublishers;
    SavedIsReadable(l, s);
    if Readable(l, s) {
      StateRoundTrip(l, digest, s);
    } else {
      UnreadableIsRefused(l, digest, s);
    }
  }

  lemma UnreadableIsRefused(l: Limits, digest: RackSnapshot -> string, s: Core)
    requires l.maxStringBytes <= U32_MAX && TypedState(s) && Savable(l, s) && !Readable(l, s)
    ensures DecodeState(l, digest, StatePayload(l, s)).None?
  {
    hide TypedState, Savable, FromState, AsState, Fits, Get, StateFields, EncFields, Shaped, Sized;
    var v, n := FromState(s), ReadablePublishers(l);
    SavableIsSized(l, n, s);
    StateIsTuple(s);
    StateLayoutIsSolid(l, n);
    CountLimitsLeaveNoTrace(l, l.maxMembers, n, v, 0);
    assert Enc(StateLayout(l, n), v) == StatePayload(l, s);
    ReadsWhatFits(l.maxStringBytes, StateLayout(l, n), v, []);
    assert StatePayload(l, s) + [] == StatePayload(l, s);
  }

  /** The state encoding is not canonical: any first byte other than 1 says that no rack is declared. */
  lemma RackFlagIsAmbiguous(l: Limits, digest: RackSnapshot -> string, flag: byte, rest: bytes)
    requires flag != 1
    ensures DecodeState(l, digest, [flag] + rest) == DecodeState(l, digest, [0] + rest)
  {
    hide AsState, RACK_RECORD;
    var limit, n := l.maxStringBytes, ReadablePublishers(l);
    LenientFlagIsAmbiguous(limit, RACK_RECORD, flag, rest);
    LenientFlagIsAmbiguous(limit, RACK_RECORD, 0, rest);
    FirstField(limit, StateFields(l, n), [flag] + rest, [0] + rest);
  }

  lemma FirstField(limit: nat, fields: seq<Schema>, a: bytes, b: bytes)
    requires fields != [] && Get(limit, fields[0], a) == Get(limit, fields[0], b)
    ensures Get(limit, Rec(fields), a) == Get(limit, Rec(fields), b)
  {
  }
}
