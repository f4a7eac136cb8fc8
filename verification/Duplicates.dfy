/** What reading a saved state does with two records under one key: it refuses the payload, or keeps the first. */
module Duplicates {
  import opened Bytes
  import opened Wrappers
  import opened Model
  import opened Codec
  import opened Records
  import opened Layouts
  import opened RecordCodec
  import opened StateCodec

  /** The keys of a list, in its order. */
  function KeysOf<K, V>(vs: seq<V>, key: V -> K): (keys: seq<K>)
    ensures |keys| == |vs| && forall i :: 0 <= i < |vs| ==> keys[i] == key(vs[i])
  {
    seq(|vs|, i requires 0 <= i < |vs| => key(vs[i]))
  }

  /** The map holds exactly the keys of the list, and under each key the first value that carries it. */
  ghost predicate KeepsFirst<K(!new), V>(m: map<K, V>, vs: seq<V>, key: V -> K) {
    && (forall k :: k in m <==> k in KeysOf(vs, key))
    && forall i :: 0 <= i < |vs| && key(vs[i]) !in KeysOf(vs, key)[..i] ==> key(vs[i]) in m && m[key(vs[i])] == vs[i]
  }

  /** The map holds every value of the list under its key, and nothing else. */
  ghost predicate HoldsAll<K(!new), V>(m: map<K, V>, vs: seq<V>, key: V -> K) {
    && |m| == |vs|
    && (forall i :: 0 <= i < |vs| ==> key(vs[i]) in m && m[key(vs[i])] == vs[i])
    && forall k :: k in m ==> k in KeysOf(vs, key)
  }

  lemma {:induction false} GatherKeepsFirst<K(!new), V>(vs: seq<V>, key: V -> K)
    ensures KeepsFirst(Gather(vs, key), vs, key)
  {
    if vs != [] {
      var n := |vs| - 1;
      var before, v := vs[..n], vs[n];
      GatherKeepsFirst(before, key);
      assert KeysOf(vs, key) == KeysOf(before, key) + [key(v)];
      forall i | 0 <= i < |vs| && key(vs[i]) !in KeysOf(vs, key)[..i]
        ensures key(vs[i]) in Gather(vs, key) && Gather(vs, key)[key(vs[i])] == vs[i]
      {
        if i < n {
          assert KeysOf(vs, key)[..i] == KeysOf(before, key)[..i] && before[i] == vs[i];
          assert key(before[i]) == KeysOf(before, key)[i];
        } else {
          assert KeysOf(vs, key)[..n] == KeysOf(before, key);
        }
      }
    }
  }

  lemma ExtendOnce<K>(keys: seq<K>, k: K)
    ensures NoRepeats(keys + [k]) <==> NoRepeats(keys) && k !in keys
  {
    var more := keys + [k];
    assert more[|keys|] == k && forall i :: 0 <= i < |keys| ==> more[i] == keys[i];
    if NoRepeats(more) {
      assert forall i, j :: 0 <= i < j < |keys| ==> keys[i] == more[i] != more[j] == keys[j];
    }
  }

  /** One value more: a new key is added, and a taken one changes nothing. */
  lemma GatherStep<K(!new), V>(vs: seq<V>, key: V -> K)
    requires vs != []
    ensures var before, v := vs[..|vs| - 1], vs[|vs| - 1];
            && KeysOf(vs, key) == KeysOf(before, key) + [key(v)]
            && |Gather(vs, key)| == |Gather(before, key)| + if key(v) in KeysOf(before, key) then 0 else 1
  {
    GatherKeepsFirst(vs[..|vs| - 1], key);
  }

  /** As many keys as values: that is what it means that none occurs twice. */
  lemma {:induction false} CountedIffOnce<K(!new), V>(vs: seq<V>, key: V -> K)
    ensures |Gather(vs, key)| <= |vs|
    ensures |Gather(vs, key)| == |vs| <==> NoRepeats(KeysOf(vs, key))
  {
    if vs == [] {
      assert KeysOf(vs, key) == [];
    } else {
      hide Gather, NoRepeats, KeysOf;
      var before := vs[..|vs| - 1];
      CountedIffOnce(before, key);
      GatherStep(vs, key);
      ExtendOnce(KeysOf(before, key), key(vs[|vs| - 1]));
    }
  }

  lemma GatherHoldsAll<K(!new), V>(vs: seq<V>, key: V -> K)
    requires NoRepeats(KeysOf(vs, key))
    ensures HoldsAll(Gather(vs, key), vs, key)
  {
    hide Gather;
    CountedIffOnce(vs, key);
    GatherKeepsFirst(vs, key);
    var keys := KeysOf(vs, key);
    forall i | 0 <= i < |vs|
      ensures key(vs[i]) in Gather(vs, key) && Gather(vs, key)[key(vs[i])] == vs[i]
    {
      assert keys[i] == key(vs[i]) && keys[i] !in keys[..i];
    }
  }

  lemma UniqueIsOnce<K, V>(vs: seq<V>, key: V -> K)
    ensures UniqueKeys(vs, key) <==> NoRepeats(KeysOf(vs, key))
  {
    var keys := KeysOf(vs, key);
    if NoRepeats(keys) {
      forall i, j | 0 <= i < j < |vs|
        ensures key(vs[i]) != key(vs[j])
      {
        assert keys[i] != keys[j];
      }
    }
  }

  // ----- The whole state -----

  function ReadMembers(v: Value): seq<MemberRecord> { AsSeq(At(v, 4), AsMember) }
  function ReadRelationships(v: Value): seq<RelationshipRecord> { AsSeq(At(v, 5), AsRelationship) }
  function ReadDomains(v: Value): seq<FailureDomainRecord> { AsSeq(At(v, 6), AsFailureDomain) }
  function ReadSnapshots(v: Value): seq<RackSnapshot> { AsSeq(At(v, 11), AsSnapshot) }

  /** No member, relationship, failure domain or snapshot generation is listed twice. */
  predicate NothingTwice(v: Value) {
    && NoRepeats(KeysOf(ReadMembers(v), KeyOfMember))
    && NoRepeats(KeysOf(ReadRelationships(v), KeyOfRelationship))
    && NoRepeats(KeysOf(ReadDomains(v), KeyOfDomain))
    && NoRepeats(KeysOf(ReadSnapshots(v), KeyOfSnapshot))
  }

  lemma SealingKeepsKeys(digest: RackSnapshot -> string, xs: seq<RackSnapshot>)
    ensures KeysOf(SealAll(digest, xs), KeyOfSnapshot) == KeysOf(xs, KeyOfSnapshot)
  {
    var sealed := SealAll(digest, xs);
    forall i | 0 <= i < |xs|
      ensures KeysOf(sealed, KeyOfSnapshot)[i] == KeysOf(xs, KeyOfSnapshot)[i]
    {
      assert sealed[i] == Sealed(digest, xs[i]);
    }
  }

  lemma NothingTwiceIffUnique(digest: RackSnapshot -> string, v: Value)
    ensures NothingTwice(v) <==>
              && UniqueKeys(ReadMembers(v), KeyOfMember)
              && UniqueKeys(ReadRelationships(v), KeyOfRelationship)
              && UniqueKeys(ReadDomains(v), KeyOfDomain)
              && UniqueKeys(SealAll(digest, ReadSnapshots(v)), KeyOfSnapshot)
  {
    hide UniqueKeys, NoRepeats, AsSeq, AsMember, AsRelationship, AsFailureDomain, AsSnapshot;
    var xs := ReadSnapshots(v);
    UniqueIsOnce(ReadMembers(v), KeyOfMember);
    UniqueIsOnce(ReadRelationships(v), KeyOfRelationship);
    UniqueIsOnce(ReadDomains(v), KeyOfDomain);
    UniqueIsOnce(SealAll(digest, xs), KeyOfSnapshot);
    SealingKeepsKeys(digest, xs);
  }

  /** The snapshots as they are kept: each with the digest of what was read. */
  function Resealed(digest: RackSnapshot -> string, xs: seq<RackSnapshot>): seq<RackSnapshot> {
    seq(|xs|, i requires 0 <= i < |xs| => xs[i].(digest := digest(xs[i].(digest := ""))))
  }

  /**
    A payload is accepted exactly when it parses to its last byte and lists nothing twice. All it lists is then in
    the state, and nothing else; of several publishers or fenced boots under one boot the first is kept.
    */
  lemma AcceptedIff(l: Limits, digest: RackSnapshot -> string, payload: bytes)
    ensures var got := Get(l.maxStringBytes, StateLayout(l, ReadablePublishers(l)), payload);
            DecodeState(l, digest, payload).Some? <==> got.Ok? && got.rest == [] && NothingTwice(got.value)
    ensures match DecodeState(l, digest, payload)
            case None => true
            case Some(s) =>
              var v := Get(l.maxStringBytes, StateLayout(l, ReadablePublishers(l)), payload).value;
              && HoldsAll(s.members, ReadMembers(v), KeyOfMember)
              && HoldsAll(s.relationships, ReadRelationships(v), KeyOfRelationship)
              && HoldsAll(s.failureDomains, ReadDomains(v), KeyOfDomain)
              && HoldsAll(s.snapshots, Resealed(digest, ReadSnapshots(v)), KeyOfSnapshot)
              && KeepsFirst(s.publishers, AsSeq(At(v, 9), AsPublisher), KeyOfPublisher)
              && KeepsFirst(s.fencedBoots, AsSeq(At(v, 10), AsFenced), KeyOfFenced)
  {
    hide Get, StateLayout, Gather, UniqueKeys, AsSeq, AsMember, AsRelationship, AsFailureDomain, AsSnapshot,
      AsPublisher, AsFenced, AsOption, AsGenerations, HoldsAll, KeepsFirst, NothingTwice, NoRepeats, KeysOf;
    match Get(l.maxStringBytes, StateLayout(l, ReadablePublishers(l)), payload)
    case Fail(_) =>
    case Ok(v, rest) =>
      NothingTwiceIffUnique(digest, v);
      if rest == [] && NothingTwice(v) {
        EverythingIsKept(digest, v);
      }
  }

  lemma EverythingIsKept(digest: RackSnapshot -> string, v: Value)
    requires AsState(digest, v).Some?
    ensures var s := AsState(digest, v).value;
            && HoldsAll(s.members, ReadMembers(v), KeyOfMember)
            && HoldsAll(s.relationships, ReadRelationships(v), KeyOfRelationship)
            && HoldsAll(s.failureDomains, ReadDomains(v), KeyOfDomain)
            && HoldsAll(s.snapshots, Resealed(digest, ReadSnapshots(v)), KeyOfSnapshot)
            && KeepsFirst(s.publishers, AsSeq(At(v, 9), AsPublisher), KeyOfPublisher)
            && KeepsFirst(s.fencedBoots, AsSeq(At(v, 10), AsFenced), KeyOfFenced)
  {
    hide Gather, UniqueKeys, AsSeq, AsMember, AsRelationship, AsFailureDomain, AsSnapshot, AsPublisher, AsFenced,
      AsOption, AsGenerations, HoldsAll, KeepsFirst, NoRepeats, KeysOf;
    var sealed := SealAll(digest, ReadSnapshots(v));
    assert sealed == Resealed(digest, ReadSnapshots(v));
    UniqueIsOnce(ReadMembers(v), KeyOfMember);
    GatherHoldsAll(ReadMembers(v), KeyOfMember);
    UniqueIsOnce(ReadRelationships(v), KeyOfRelationship);
    GatherHoldsAll(ReadRelationships(v), KeyOfRelationship);
    UniqueIsOnce(ReadDomains(v), KeyOfDomain);
    GatherHoldsAll(ReadDomains(v), KeyOfDomain);
    UniqueIsOnce(sealed, KeyOfSnapshot);
    GatherHoldsAll(sealed, KeyOfSnapshot);
    GatherKeepsFirst(AsSeq(At(v, 9), AsPublisher), KeyOfPublisher);
    GatherKeepsFirst(AsSeq(At(v, 10), AsFenced), KeyOfFenced);
  }
}
