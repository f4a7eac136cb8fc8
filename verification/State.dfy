/** The authoritative records of one rack with their derived indexes, and the searches that read them. */
module State {
  import opened Wrappers
  import opened Evidence
  import opened Model
  import opened Ordering
  import opened Graph
  import opened Indexes
  import opened RackReadiness
  import opened Machine
  import opened Structure

  // ----- What the indexes are derived from -----

  function One<X>(o: Option<X>): set<X> {
    if o.Some? then {o.value} else {}
  }

  function ToSet<X>(s: seq<X>): set<X> {
    set x | x in s
  }

  lemma ToSetExtends<X>(s: seq<X>, i: nat)
    requires i < |s|
    ensures ToSet(s[..i + 1]) == ToSet(s[..i]) + {s[i]}
  {
    assert s[..i + 1] == s[..i] + [s[i]];
  }

  function KindRefs(m: map<MemberKey, MemberRecord>): map<MemberKey, set<MemberKind>> {
    map k | k in m :: {k.kind}
  }

  function PowerRefs(m: map<MemberKey, MemberRecord>): map<MemberKey, set<Text>> {
    map k | k in m :: One(m[k].powerDomain)
  }

  function CoolingRefs(m: map<MemberKey, MemberRecord>): map<MemberKey, set<Text>> {
    map k | k in m :: One(m[k].coolingDomain)
  }

  function OwnerRefs(m: map<MemberKey, MemberRecord>): map<MemberKey, set<Text>> {
    map k | k in m :: One(m[k].ownerBoot)
  }

  function ParentRefs(m: map<MemberKey, MemberRecord>): map<MemberKey, set<MemberKey>> {
    map k | k in m :: One(m[k].parent)
  }

  function DomainRefs(m: map<MemberKey, MemberRecord>): map<MemberKey, set<Text>> {
    map k | k in m :: ToSet(m[k].failureDomains)
  }

  function EndpointRefs(m: map<RelationshipKey, RelationshipRecord>): map<RelationshipKey, set<MemberKey>> {
    map k | k in m :: {k.from, k.to}
  }

  /** The ends of the relationships as the records say, whatever they are stored under. */
  function StoredRefs(m: map<RelationshipKey, RelationshipRecord>): map<RelationshipKey, set<MemberKey>> {
    map j | j in StoredKeys(m) :: {j.from, j.to}
  }

  function StoredKeys(m: map<RelationshipKey, RelationshipRecord>): set<RelationshipKey> {
    set k | k in m :: m[k].key
  }

  lemma StoredUnderTheirKeys(m: map<RelationshipKey, RelationshipRecord>)
    requires forall k :: k in m ==> m[k].key == k
    ensures StoredRefs(m) == EndpointRefs(m)
  {
    assert StoredKeys(m) == m.Keys;
  }

  lemma StoredExtends(m: map<RelationshipKey, RelationshipRecord>, k: RelationshipKey, r: RelationshipRecord)
    requires k !in m
    ensures StoredRefs(m[k := r]) == StoredRefs(m)[r.key := {r.key.from, r.key.to}]
  {
    var n := m[k := r];
    forall j
      ensures j in StoredKeys(n) <==> j in StoredKeys(m) + {r.key}
    {
      if i :| i in m && m[i].key == j {
        assert n[i].key == j;
      }
      if j == r.key {
        assert n[k].key == j;
      }
    }
  }

  function DomainParentRefs(m: map<Text, FailureDomainRecord>): map<Text, set<Text>> {
    map d | d in m :: ToSet(m[d].parents)
  }

  /** Every member the index lists under a domain names that domain. */
  ghost predicate DomainSound(index: map<Text, set<MemberKey>>, m: map<MemberKey, MemberRecord>) {
    forall d, k {:trigger Listed(index, d, k)} :: Listed(index, d, k) ==> Refers(DomainRefs(m), k, d)
  }

  /** Every member that names a domain is listed under it. */
  ghost predicate DomainComplete(index: map<Text, set<MemberKey>>, m: map<MemberKey, MemberRecord>) {
    forall d, k {:trigger Refers(DomainRefs(m), k, d)} :: Refers(DomainRefs(m), k, d) ==> Listed(index, d, k)
  }

  ghost predicate NoEmptyBucket(index: map<Text, set<MemberKey>>) {
    forall d :: d in index ==> index[d] != {}
  }

  /** What a rebuild yields: the buckets are exact, and only known or named domains have one. */
  ghost predicate ExactBuckets(
    index: map<Text, set<MemberKey>>, m: map<MemberKey, MemberRecord>, domains: map<Text, FailureDomainRecord>)
  {
    && DomainSound(index, m) && DomainComplete(index, m)
    && forall d :: d in index <==> d in domains || exists k :: Refers(DomainRefs(m), k, d)
  }

  /** Some member names the domain. */
  ghost predicate IsNamed(m: map<MemberKey, MemberRecord>, d: Text) { exists k :: Refers(DomainRefs(m), k, d) }

  /** Every known domain that the record in place of `r` names is still named by some member after `r` replaces it. */
  ghost predicate KeepsNames(
    m: map<MemberKey, MemberRecord>, r: MemberRecord, domains: map<Text, FailureDomainRecord>)
  {
    r.key in m ==>
      forall d :: d in m[r.key].failureDomains && d in domains ==> IsNamed(m[r.key := r], d)
  }

  lemma SameNamesKept(m: map<MemberKey, MemberRecord>, r: MemberRecord, domains: map<Text, FailureDomainRecord>)
    requires r.key in m && r.failureDomains == m[r.key].failureDomains
    ensures KeepsNames(m, r, domains)
  {
    forall d | d in m[r.key].failureDomains && d in domains
      ensures IsNamed(m[r.key := r], d)
    {
      assert Refers(DomainRefs(m[r.key := r]), r.key, d);
    }
  }

  /** Only the domains that a record names matter to its buckets. */
  lemma NamesDependOnDomains(
    m: map<MemberKey, MemberRecord>, r: MemberRecord, q: MemberRecord, domains: map<Text, FailureDomainRecord>)
    requires q.key == r.key && q.failureDomains == r.failureDomains
    ensures KeepsNames(m, q, domains) <==> KeepsNames(m, r, domains)
  {
    assert DomainRefs(m[r.key := r]) == DomainRefs(m[r.key := q]);
    hide DomainRefs;
  }

  /** The buckets left when a key is struck from those of some domains: the ones it emptied are gone. */
  function LeftBuckets(index: map<Text, set<MemberKey>>, domains: set<Text>, key: MemberKey): set<Text> {
    set d | d in index && (d in domains ==> index[d] - {key} != {})
  }

  /** Which buckets exist after a member is replaced: those of a rebuild exactly when no known domain lost its name. */
  lemma ReplacedBuckets(
    index: map<Text, set<MemberKey>>, between: map<Text, set<MemberKey>>, after: map<Text, set<MemberKey>>,
    m: map<MemberKey, MemberRecord>, r: MemberRecord, domains: map<Text, FailureDomainRecord>)
    requires ExactBuckets(index, m, domains)
    requires between.Keys == if r.key in m then LeftBuckets(index, ToSet(m[r.key].failureDomains), r.key) else index.Keys
    requires after.Keys == between.Keys + ToSet(r.failureDomains)
    requires DomainSound(after, m[r.key := r]) && DomainComplete(after, m[r.key := r])
    ensures ExactBuckets(after, m[r.key := r], domains) <==> KeepsNames(m, r, domains)
  {
    var n := m[r.key := r];
    forall d
      ensures r.key in m && d in m[r.key].failureDomains && d in domains ==>
                (d in after <==> IsNamed(n, d))
      ensures !(r.key in m && d in m[r.key].failureDomains && d in domains) ==>
                (d in after <==> d in domains || IsNamed(n, d))
    {
      BucketAfter(index, between, after, m, r, domains, d);
    }
    hide DomainRefs, DomainSound, DomainComplete, LeftBuckets;
  }

  /** Some other member names the domain. */
  ghost predicate NamedByOther(m: map<MemberKey, MemberRecord>, key: MemberKey, d: Text) {
    exists k :: k != key && Refers(DomainRefs(m), k, d)
  }

  lemma NamedAfter(m: map<MemberKey, MemberRecord>, r: MemberRecord, d: Text)
    ensures IsNamed(m[r.key := r], d) <==> d in r.failureDomains || NamedByOther(m, r.key, d)
    ensures IsNamed(m, d) <==>
              (r.key in m && d in m[r.key].failureDomains) || NamedByOther(m, r.key, d)
  {
    var n := m[r.key := r];
    if d in r.failureDomains {
      assert Refers(DomainRefs(n), r.key, d);
    }
    if r.key in m && d in m[r.key].failureDomains {
      assert Refers(DomainRefs(m), r.key, d);
    }
    if k :| k != r.key && Refers(DomainRefs(m), k, d) {
      assert Refers(DomainRefs(n), k, d);
    }
    if k :| k != r.key && Refers(DomainRefs(n), k, d) {
      assert Refers(DomainRefs(m), k, d);
    }
  }

  lemma BucketAfter(
    index: map<Text, set<MemberKey>>, between: map<Text, set<MemberKey>>, after: map<Text, set<MemberKey>>,
    m: map<MemberKey, MemberRecord>, r: MemberRecord, domains: map<Text, FailureDomainRecord>, d: Text)
    requires ExactBuckets(index, m, domains)
    requires between.Keys == if r.key in m then LeftBuckets(index, ToSet(m[r.key].failureDomains), r.key) else index.Keys
    requires after.Keys == between.Keys + ToSet(r.failureDomains)
    ensures d in after <==>
              IsNamed(m[r.key := r], d) || (d in domains && !(r.key in m && d in m[r.key].failureDomains))
  {
    NamedAfter(m, r, d);
    if d in index {
      OthersInBucket(index, m, r.key, d);
    }
    hide DomainRefs, DomainSound, DomainComplete, NamedByOther;
  }

  lemma OthersInBucket(index: map<Text, set<MemberKey>>, m: map<MemberKey, MemberRecord>, key: MemberKey, d: Text)
    requires DomainSound(index, m) && DomainComplete(index, m) && d in index
    ensures index[d] - {key} != {} <==> NamedByOther(m, key, d)
  {
    hide DomainRefs;
    if index[d] - {key} != {} {
      var k :| k in index[d] - {key};
      assert Listed(index, d, k);
    }
    if k :| k != key && Refers(DomainRefs(m), k, d) {
      assert Listed(index, d, k);
      assert k in index[d] - {key};
    }
  }

  /**
   * How the buckets follow a change of the members: the touched ones are listed under all they name now, the others where
   * they were, unless the bucket was dropped; a domain that nobody names keeps its bucket, or gets one by its publication,
   * and loses it with its last name.
   */
  ghost predicate Shifted(
    a: map<Text, set<MemberKey>>, m: map<MemberKey, MemberRecord>, b: map<Text, set<MemberKey>>,
    n: map<MemberKey, MemberRecord>, touched: set<MemberKey>, dropped: set<Text>, published: set<Text>)
  {
    && (forall d, k {:trigger Listed(b, d, k)} {:trigger Refers(DomainRefs(n), k, d)} ::
          Refers(DomainRefs(n), k, d) ==> (Listed(b, d, k) <==> k in touched || (Listed(a, d, k) && d !in dropped)))
    && (forall d :: !IsNamed(n, d) ==> (d in b <==> d in published || (d in a && !IsNamed(m, d))))
    && forall d, k {:trigger Refers(DomainRefs(n), k, d)} ::
         k !in touched ==> (Refers(DomainRefs(n), k, d) <==> Refers(DomainRefs(m), k, d))
  }

  lemma NothingShifts(a: map<Text, set<MemberKey>>, m: map<MemberKey, MemberRecord>, n: map<MemberKey, MemberRecord>)
    requires DomainRefs(m) == DomainRefs(n)
    ensures Shifted(a, m, a, n, {}, {}, {})
  {
    hide DomainRefs;
  }

  /** While no record changes what it names, touches add up. */
  lemma ShiftedTwice(
    a: map<Text, set<MemberKey>>, m: map<MemberKey, MemberRecord>, b: map<Text, set<MemberKey>>,
    n: map<MemberKey, MemberRecord>, c: map<Text, set<MemberKey>>, o: map<MemberKey, MemberRecord>,
    first: set<MemberKey>, second: set<MemberKey>)
    requires DomainRefs(m) == DomainRefs(n) == DomainRefs(o)
    requires Shifted(a, m, b, n, first, {}, {}) && Shifted(b, n, c, o, second, {}, {})
    ensures Shifted(a, m, c, o, first + second, {}, {})
  {
    hide DomainRefs;
    forall d, k | Refers(DomainRefs(o), k, d)
      ensures Listed(c, d, k) <==> k in first + second || Listed(a, d, k)
    {
      assert Refers(DomainRefs(n), k, d);
      assert Listed(b, d, k) <==> k in first || Listed(a, d, k);
    }
  }

  lemma SameNames(m: map<MemberKey, MemberRecord>, r: MemberRecord)
    requires r.key in m && r.failureDomains == m[r.key].failureDomains
    ensures DomainRefs(m[r.key := r]) == DomainRefs(m)
  {
  }

  /** Replacing a member with its entries touches it alone. */
  lemma PutShifts(
    a: map<Text, set<MemberKey>>, between: map<Text, set<MemberKey>>, b: map<Text, set<MemberKey>>,
    m: map<MemberKey, MemberRecord>, r: MemberRecord)
    requires DomainSound(a, m)
    requires if r.key in m
             then Relisted(a, between, r.key, {}, ToSet(m[r.key].failureDomains))
                  && between.Keys == LeftBuckets(a, ToSet(m[r.key].failureDomains), r.key)
             else between == a
    requires Relisted(between, b, r.key, ToSet(r.failureDomains), {}) && b.Keys == between.Keys + ToSet(r.failureDomains)
    ensures Shifted(a, m, b, m[r.key := r], {r.key}, {}, {})
  {
    var n := m[r.key := r];
    forall d, k
      ensures k != r.key ==> (Refers(DomainRefs(n), k, d) <==> Refers(DomainRefs(m), k, d))
      ensures k != r.key ==> (Listed(b, d, k) <==> Listed(a, d, k))
      ensures Refers(DomainRefs(n), r.key, d) ==> Listed(b, d, r.key)
    {
      assert Listed(b, d, k) <==> if k == r.key && d in ToSet(r.failureDomains) then true else Listed(between, d, k);
      assert Listed(b, d, r.key) <==> if d in ToSet(r.failureDomains) then true else Listed(between, d, r.key);
    }
    forall d | !IsNamed(n, d)
      ensures d in b <==> d in a && !IsNamed(m, d)
    {
      NamedAfter(m, r, d);
      if d in a && r.key in m && d in m[r.key].failureDomains {
        OnlyOneListed(a, m, r.key, d);
      }
    }
  }

  lemma OnlyOneListed(a: map<Text, set<MemberKey>>, m: map<MemberKey, MemberRecord>, key: MemberKey, d: Text)
    requires DomainSound(a, m) && d in a && !NamedByOther(m, key, d)
    ensures a[d] - {key} == {}
  {
    hide DomainRefs;
    forall k | k in a[d]
      ensures k == key
    {
      assert Listed(a, d, k);
    }
  }

  /** Publishing a domain touches nobody. */
  lemma PublicationShifts(
    a: map<Text, set<MemberKey>>, b: map<Text, set<MemberKey>>, m: map<MemberKey, MemberRecord>,
    domains: map<Text, FailureDomainRecord>, d: Text)
    requires var left := if d in domains then a - {d} else a;
             b == if d in left then left else left[d := {}]
    ensures Shifted(a, m, b, m, {}, if d in domains then {d} else {}, {d})
  {
    hide DomainRefs;
    forall x, k
      ensures Listed(b, x, k) <==> Listed(a, x, k) && (x != d || d !in domains)
    {
    }
  }

  /** Without a dropped bucket or a change of names, buckets stay as complete and as exact as they were. */
  lemma ShiftedKeeps(
    a: map<Text, set<MemberKey>>, m: map<MemberKey, MemberRecord>, b: map<Text, set<MemberKey>>,
    n: map<MemberKey, MemberRecord>, touched: set<MemberKey>, domains: map<Text, FailureDomainRecord>,
    after: map<Text, FailureDomainRecord>)
    requires Shifted(a, m, b, n, touched, {}, {}) && DomainRefs(m) == DomainRefs(n) && domains.Keys == after.Keys
    ensures DomainComplete(a, m) ==> DomainComplete(b, n)
    ensures ExactBuckets(a, m, domains) && DomainSound(b, n) ==> ExactBuckets(b, n, after)
  {
    hide DomainRefs;
    if DomainComplete(a, m) {
      forall d, k | Refers(DomainRefs(n), k, d)
        ensures Listed(b, d, k)
      {
        assert Listed(a, d, k);
      }
      forall d | IsNamed(n, d)
        ensures d in b
      {
        var k :| Refers(DomainRefs(n), k, d);
        assert Listed(b, d, k);
      }
    }
  }

  /** Publishing a domain that is known drops its bucket; a fresh one is empty. */
  lemma RepublishedBuckets(
    index: map<Text, set<MemberKey>>, after: map<Text, set<MemberKey>>, m: map<MemberKey, MemberRecord>,
    domains: map<Text, FailureDomainRecord>, d: FailureDomainRecord)
    requires var left := if d.id in domains then index - {d.id} else index;
             after == if d.id in left then left else left[d.id := {}]
    ensures DomainSound(index, m) ==> DomainSound(after, m)
    ensures DomainComplete(index, m) ==> (DomainComplete(after, m) <==> d.id !in domains || !IsNamed(m, d.id))
    ensures ExactBuckets(index, m, domains) ==>
              (ExactBuckets(after, m, domains[d.id := d]) <==> d.id !in domains || !IsNamed(m, d.id))
  {
    hide DomainRefs;
    forall x, k
      ensures Listed(after, x, k) <==> Listed(index, x, k) && (x != d.id || d.id !in domains)
    {
    }
    if DomainComplete(index, m) && d.id in domains && IsNamed(m, d.id) {
      var k :| Refers(DomainRefs(m), k, d.id);
      assert !Listed(after, d.id, k);
    }
    assert forall x :: x in after <==> x in index || x == d.id;
  }

  lemma ExactParts(
    index: map<Text, set<MemberKey>>, m: map<MemberKey, MemberRecord>, domains: map<Text, FailureDomainRecord>)
    requires ExactBuckets(index, m, domains)
    ensures DomainSound(index, m) && DomainComplete(index, m)
  {
    hide DomainSound, DomainComplete;
  }

  lemma BucketsAreUnique(
    a: map<Text, set<MemberKey>>, b: map<Text, set<MemberKey>>, m: map<MemberKey, MemberRecord>,
    domains: map<Text, FailureDomainRecord>)
    requires ExactBuckets(a, m, domains) && ExactBuckets(b, m, domains)
    ensures a == b
  {
    hide DomainRefs;
    assert a.Keys == b.Keys;
    forall d | d in a
      ensures a[d] == b[d]
    {
      forall k
        ensures k in a[d] <==> k in b[d]
      {
        assert Listed(a, d, k) <==> Refers(DomainRefs(m), k, d);
        assert Listed(b, d, k) <==> Refers(DomainRefs(m), k, d);
      }
    }
  }

  lemma BucketsExact(
    index: map<Text, set<MemberKey>>, before: map<Text, set<MemberKey>>, m: map<MemberKey, MemberRecord>,
    domains: map<Text, FailureDomainRecord>)
    requires DomainSound(before, m) && DomainComplete(before, m) && NoEmptyBucket(before)
    requires forall d, k {:trigger Listed(index, d, k)} :: Listed(index, d, k) <==> Listed(before, d, k)
    requires forall d :: d in index <==> d in before || d in domains
    ensures ExactBuckets(index, m, domains)
  {
    hide DomainRefs;
    forall d
      ensures d in before <==> exists k :: Refers(DomainRefs(m), k, d)
    {
      if d in before {
        var k :| k in before[d];
        assert Listed(before, d, k);
      }
      if k :| Refers(DomainRefs(m), k, d) {
        assert Listed(before, d, k);
      }
    }
    forall d, k | Refers(DomainRefs(m), k, d)
      ensures Listed(index, d, k)
    {
      assert Listed(before, d, k);
    }
  }

  lemma RefsExtend(m: map<MemberKey, MemberRecord>, k: MemberKey, r: MemberRecord)
    ensures KindRefs(m[k := r]) == KindRefs(m)[k := {k.kind}]
    ensures OwnerRefs(m[k := r]) == OwnerRefs(m)[k := One(r.ownerBoot)]
    ensures ParentRefs(m[k := r]) == ParentRefs(m)[k := One(r.parent)]
  {
  }

  lemma PlantRefsExtend(m: map<MemberKey, MemberRecord>, k: MemberKey, r: MemberRecord)
    ensures PowerRefs(m[k := r]) == PowerRefs(m)[k := One(r.powerDomain)]
    ensures CoolingRefs(m[k := r]) == CoolingRefs(m)[k := One(r.coolingDomain)]
  {
  }

  lemma RefsShrink(m: map<MemberKey, MemberRecord>, k: MemberKey)
    ensures KindRefs(m - {k}) == KindRefs(m) - {k}
    ensures PowerRefs(m - {k}) == PowerRefs(m) - {k}
    ensures CoolingRefs(m - {k}) == CoolingRefs(m) - {k}
    ensures OwnerRefs(m - {k}) == OwnerRefs(m) - {k}
    ensures ParentRefs(m - {k}) == ParentRefs(m) - {k}
  {
  }

  lemma RefsKeys(m: map<MemberKey, MemberRecord>)
    ensures KindRefs(m).Keys == PowerRefs(m).Keys == CoolingRefs(m).Keys == m.Keys
    ensures OwnerRefs(m).Keys == ParentRefs(m).Keys == m.Keys
  {
  }

  lemma RefsAt(m: map<MemberKey, MemberRecord>, k: MemberKey)
    requires k in m
    ensures k in KindRefs(m) && KindRefs(m)[k] == One(Some(k.kind))
    ensures k in PowerRefs(m) && PowerRefs(m)[k] == One(m[k].powerDomain)
    ensures k in CoolingRefs(m) && CoolingRefs(m)[k] == One(m[k].coolingDomain)
    ensures k in OwnerRefs(m) && OwnerRefs(m)[k] == One(m[k].ownerBoot)
    ensures k in ParentRefs(m) && ParentRefs(m)[k] == One(m[k].parent)
  {
  }

  /** The second index lists `key` also under the `added` domains, and no longer under the `removed` ones. */
  ghost predicate Relisted(
    before: map<Text, set<MemberKey>>, after: map<Text, set<MemberKey>>, key: MemberKey, added: set<Text>,
    removed: set<Text>)
  {
    forall d, k {:trigger Listed(after, d, k)} {:trigger Listed(before, d, k)} ::
      Listed(after, d, k) <==>
      if k == key && d in added then true else if k == key && d in removed then false else Listed(before, d, k)
  }

  // ----- Maintaining one entry -----

  function InsertOption<X, K>(index: map<X, set<K>>, x: Option<X>, k: K): map<X, set<K>> {
    if x.Some? then Insert(index, x.value, k) else index
  }

  function EraseOption<X, K>(index: map<X, set<K>>, x: Option<X>, k: K): map<X, set<K>> {
    if x.Some? then Erase(index, x.value, k) else index
  }

  lemma InsertOptionAgrees<X(!new), K(!new)>(index: map<X, set<K>>, refs: map<K, set<X>>, k: K, x: Option<X>)
    requires Agrees(index, refs) && k !in refs
    ensures Agrees(InsertOption(index, x, k), refs[k := One(x)])
  {
    if x.Some? {
      InsertOne(index, refs, k, x.value);
    } else {
      InsertNone(index, refs, k);
    }
  }

  lemma EraseOptionAgrees<X(!new), K(!new)>(index: map<X, set<K>>, refs: map<K, set<X>>, k: K, x: Option<X>)
    requires Agrees(index, refs) && k in refs && refs[k] == One(x)
    ensures Agrees(EraseOption(index, x, k), refs - {k})
  {
    if x.Some? {
      EraseMore(index, refs, k, x.value);
      var rest := refs[k := refs[k] - {x.value}];
      DropEmpty(EraseOption(index, x, k), rest, k);
      assert rest - {k} == refs - {k};
    } else {
      DropEmpty(index, refs, k);
    }
  }

  /** Striking a key from one more bucket. */
  lemma LeftAfterErase(
    before: map<Text, set<MemberKey>>, index: map<Text, set<MemberKey>>, struck: set<Text>, d: Text, key: MemberKey)
    requires Relisted(before, index, key, {}, struck) && index.Keys == LeftBuckets(before, struck, key)
    ensures Erase(index, d, key).Keys == LeftBuckets(before, struck + {d}, key)
  {
    if d in index {
      forall k
        ensures k in index[d] - {key} <==> k in before[d] - {key}
      {
        assert Listed(index, d, k) <==> (if k == key && d in struck then false else Listed(before, d, k));
      }
      assert index[d] - {key} == before[d] - {key};
    }
  }

  class RackState {
    // The authoritative records.
    var rack: Option<RackRecord>
    var members: map<MemberKey, MemberRecord>
    var relationships: map<RelationshipKey, RelationshipRecord>
    var failureDomains: map<Text, FailureDomainRecord>
    var power: Option<PowerEnvelope>
    var cooling: Option<CoolingEnvelope>
    var publishers: map<Text, PublisherRecord>
    var fencedBoots: map<Text, FencedBootRecord>
    var snapshots: map<u64, RackSnapshot>
    var generations: GenerationSet
    var snapshotGeneration: u64
    var operatorPublication: u64

    // The derived indexes.
    var relationshipsByMember: map<MemberKey, set<RelationshipKey>>
    var membersByKind: map<MemberKind, set<MemberKey>>
    var membersByFailureDomain: map<Text, set<MemberKey>>
    var membersByPowerDomain: map<Text, set<MemberKey>>
    var membersByCoolingDomain: map<Text, set<MemberKey>>
    var membersByOwnerBoot: map<Text, set<MemberKey>>
    var childrenByParent: map<MemberKey, set<MemberKey>>
    var childrenByDomain: map<Text, set<Text>>

    function Value(): Core
      reads this
    {
      Core(rack, members, relationships, failureDomains, power, cooling, publishers, fencedBoots, snapshots,
                generations, snapshotGeneration, operatorPublication)
    }

    /** The five plain member indexes describe exactly these members. */
    ghost predicate MembersIndexed(m: map<MemberKey, MemberRecord>)
      reads `membersByKind, `membersByPowerDomain, `membersByCoolingDomain, `membersByOwnerBoot, `childrenByParent
    {
      && Agrees(membersByKind, KindRefs(m))
      && Agrees(membersByPowerDomain, PowerRefs(m))
      && Agrees(membersByCoolingDomain, CoolingRefs(m))
      && Agrees(membersByOwnerBoot, OwnerRefs(m))
      && Agrees(childrenByParent, ParentRefs(m))
    }

    /** Seven indexes equal what the records say; the eighth lists no member under a domain it does not name. */
    ghost predicate Indexed()
      reads this
    {
      && MembersIndexed(members)
      && Agrees(relationshipsByMember, EndpointRefs(relationships))
      && Agrees(childrenByDomain, DomainParentRefs(failureDomains))
      && DomainSound(membersByFailureDomain, members)
    }

    /** The eighth index misses no member either. */
    ghost predicate DomainIndexComplete()
      reads this
    {
      DomainComplete(membersByFailureDomain, members)
    }

    /** Exactly the known and the named domains have a bucket in it, as after a rebuild. */
    ghost predicate HasExactBuckets()
      reads this
    {
      ExactBuckets(membersByFailureDomain, members, failureDomains)
    }

    /** No record changed what it names, and these members were listed anew. */
    twostate predicate Moved(touched: set<MemberKey>)
      reads this
    {
      && Shifted(old(membersByFailureDomain), old(members), membersByFailureDomain, members, touched, {}, {})
      && DomainRefs(members) == DomainRefs(old(members)) && failureDomains.Keys == old(failureDomains).Keys
    }

    ghost predicate Valid()
      reads this
    {
      Indexed() && Structured(Value())
    }

    constructor ()
      ensures Valid() && DomainIndexComplete() && HasExactBuckets() && Value() == INITIAL
    {
      rack := None;
      members := map[];
      relationships := map[];
      failureDomains := map[];
      power := None;
      cooling := None;
      publishers := map[];
      fencedBoots := map[];
      snapshots := map[];
      generations := NO_GENERATIONS.(coordinatorEpoch := 1);
      snapshotGeneration := 0;
      operatorPublication := 0;
      relationshipsByMember := map[];
      membersByKind := map[];
      membersByFailureDomain := map[];
      membersByPowerDomain := map[];
      membersByCoolingDomain := map[];
      membersByOwnerBoot := map[];
      childrenByParent := map[];
      childrenByDomain := map[];
      InitialIsStructured();
    }

    // ----- Index maintenance -----

    /** Indexes a record that is not among the indexed members `m` yet. */
    method IndexAddMember(record: MemberRecord, ghost m: map<MemberKey, MemberRecord>)
      requires MembersIndexed(m) && record.key !in m
      modifies `membersByKind, `membersByFailureDomain, `membersByPowerDomain, `membersByCoolingDomain,
               `membersByOwnerBoot, `childrenByParent
      ensures MembersIndexed(m[record.key := record])
      ensures Relisted(old(membersByFailureDomain), membersByFailureDomain, record.key, ToSet(record.failureDomains), {})
      ensures membersByFailureDomain.Keys == old(membersByFailureDomain).Keys + ToSet(record.failureDomains)
      ensures old(NoEmptyBucket(membersByFailureDomain)) ==> NoEmptyBucket(membersByFailureDomain)
    {
      hide Agrees, KindRefs, PowerRefs, CoolingRefs, OwnerRefs, ParentRefs, Relisted, InsertOption, Insert;
      var key := record.key;
      RefsExtend(m, key, record);
      PlantRefsExtend(m, key, record);
      RefsKeys(m);
      InsertOne(membersByKind, KindRefs(m), key, key.kind);
      InsertOptionAgrees(membersByPowerDomain, PowerRefs(m), key, record.powerDomain);
      InsertOptionAgrees(membersByCoolingDomain, CoolingRefs(m), key, record.coolingDomain);
      InsertOptionAgrees(membersByOwnerBoot, OwnerRefs(m), key, record.ownerBoot);
      InsertOptionAgrees(childrenByParent, ParentRefs(m), key, record.parent);
      membersByKind := Insert(membersByKind, key.kind, key);
      ListUnderDomains(key, record.failureDomains);
      membersByPowerDomain := InsertOption(membersByPowerDomain, record.powerDomain, key);
      membersByCoolingDomain := InsertOption(membersByCoolingDomain, record.coolingDomain, key);
      membersByOwnerBoot := InsertOption(membersByOwnerBoot, record.ownerBoot, key);
      childrenByParent := InsertOption(childrenByParent, record.parent, key);
    }

    method ListUnderDomains(key: MemberKey, domains: seq<Text>)
      modifies `membersByFailureDomain
      ensures Relisted(old(membersByFailureDomain), membersByFailureDomain, key, ToSet(domains), {})
      ensures membersByFailureDomain.Keys == old(membersByFailureDomain).Keys + ToSet(domains)
      ensures old(NoEmptyBucket(membersByFailureDomain)) ==> NoEmptyBucket(membersByFailureDomain)
    {
      assert ToSet(domains[..0]) == {};
      for i := 0 to |domains|
        invariant Relisted(old(membersByFailureDomain), membersByFailureDomain, key, ToSet(domains[..i]), {})
        invariant membersByFailureDomain.Keys == old(membersByFailureDomain).Keys + ToSet(domains[..i])
        invariant old(NoEmptyBucket(membersByFailureDomain)) ==> NoEmptyBucket(membersByFailureDomain)
      {
        InsertLists(membersByFailureDomain, domains[i], key);
        ToSetExtends(domains, i);
        membersByFailureDomain := Insert(membersByFailureDomain, domains[i], key);
      }
      assert domains[..|domains|] == domains;
    }

    /** Removes one of the indexed members from the indexes. */
    method IndexRemoveMember(record: MemberRecord, ghost m: map<MemberKey, MemberRecord>)
      requires MembersIndexed(m) && record.key in m && m[record.key] == record
      modifies `membersByKind, `membersByFailureDomain, `membersByPowerDomain, `membersByCoolingDomain,
               `membersByOwnerBoot, `childrenByParent
      ensures MembersIndexed(m - {record.key})
      ensures Relisted(old(membersByFailureDomain), membersByFailureDomain, record.key, {}, ToSet(record.failureDomains))
      ensures membersByFailureDomain.Keys
           == LeftBuckets(old(membersByFailureDomain), ToSet(record.failureDomains), record.key)
    {
      hide Agrees, KindRefs, PowerRefs, CoolingRefs, OwnerRefs, ParentRefs, Relisted, EraseOption, Erase;
      var key := record.key;
      RefsShrink(m, key);
      RefsKeys(m);
      RefsAt(m, key);
      EraseOptionAgrees(membersByKind, KindRefs(m), key, Some(key.kind));
      EraseOptionAgrees(membersByPowerDomain, PowerRefs(m), key, record.powerDomain);
      EraseOptionAgrees(membersByCoolingDomain, CoolingRefs(m), key, record.coolingDomain);
      EraseOptionAgrees(membersByOwnerBoot, OwnerRefs(m), key, record.ownerBoot);
      EraseOptionAgrees(childrenByParent, ParentRefs(m), key, record.parent);
      membersByKind := EraseOption(membersByKind, Some(key.kind), key);
      StrikeFromDomains(key, record.failureDomains);
      membersByPowerDomain := EraseOption(membersByPowerDomain, record.powerDomain, key);
      membersByCoolingDomain := EraseOption(membersByCoolingDomain, record.coolingDomain, key);
      membersByOwnerBoot := EraseOption(membersByOwnerBoot, record.ownerBoot, key);
      childrenByParent := EraseOption(childrenByParent, record.parent, key);
    }

    method StrikeFromDomains(key: MemberKey, domains: seq<Text>)
      modifies `membersByFailureDomain
      ensures Relisted(old(membersByFailureDomain), membersByFailureDomain, key, {}, ToSet(domains))
      ensures membersByFailureDomain.Keys == LeftBuckets(old(membersByFailureDomain), ToSet(domains), key)
    {
      assert ToSet(domains[..0]) == {};
      for i := 0 to |domains|
        invariant Relisted(old(membersByFailureDomain), membersByFailureDomain, key, {}, ToSet(domains[..i]))
        invariant membersByFailureDomain.Keys == LeftBuckets(old(membersByFailureDomain), ToSet(domains[..i]), key)
      {
        EraseLists(membersByFailureDomain, domains[i], key);
        ToSetExtends(domains, i);
        LeftAfterErase(old(membersByFailureDomain), membersByFailureDomain, ToSet(domains[..i]), domains[i], key);
        membersByFailureDomain := Erase(membersByFailureDomain, domains[i], key);
      }
      assert domains[..|domains|] == domains;
    }

    /** Lists a relationship under both its ends; listing it twice makes no difference. */
    method IndexAddRelationship(key: RelationshipKey, ghost refs: map<RelationshipKey, set<MemberKey>>)
      requires Agrees(relationshipsByMember, refs) && (key in refs ==> refs[key] == {key.from, key.to})
      modifies `relationshipsByMember
      ensures Agrees(relationshipsByMember, refs[key := {key.from, key.to}])
    {
      hide Agrees;
      ghost var one := refs[key := (if key in refs then refs[key] else {}) + {key.from}];
      if key in refs {
        InsertMore(relationshipsByMember, refs, key, key.from);
      } else {
        InsertOne(relationshipsByMember, refs, key, key.from);
        assert {} + {key.from} == {key.from};
      }
      relationshipsByMember := Insert(relationshipsByMember, key.from, key);
      InsertMore(relationshipsByMember, one, key, key.to);
      relationshipsByMember := Insert(relationshipsByMember, key.to, key);
      assert one[key] + {key.to} == {key.from, key.to};
      UpdateTwice(refs, key, one[key], one[key] + {key.to});
    }

    method IndexRemoveRelationship(key: RelationshipKey, ghost m: map<RelationshipKey, RelationshipRecord>)
      requires Agrees(relationshipsByMember, EndpointRefs(m)) && key in m
      modifies `relationshipsByMember
      ensures Agrees(relationshipsByMember, EndpointRefs(m - {key}))
    {
      hide Agrees;
      ghost var refs := EndpointRefs(m);
      EraseMore(relationshipsByMember, refs, key, key.from);
      relationshipsByMember := Erase(relationshipsByMember, key.from, key);
      ghost var refs1 := refs[key := refs[key] - {key.from}];
      if key.to != key.from {
        EraseMore(relationshipsByMember, refs1, key, key.to);
        relationshipsByMember := Erase(relationshipsByMember, key.to, key);
      }
      ghost var refs2 := refs1[key := refs1[key] - {key.to}];
      if key.to == key.from {
        assert refs1[key] - {key.to} == refs1[key];
        UpdateSame(refs1, key, refs1[key] - {key.to});
      }
      DropEmpty(relationshipsByMember, refs2, key);
      assert EndpointRefs(m - {key}) == refs2 - {key};
    }

    method IndexAddFailureDomain(record: FailureDomainRecord, ghost m: map<Text, FailureDomainRecord>)
      requires Agrees(childrenByDomain, DomainParentRefs(m)) && record.id !in m
      modifies `childrenByDomain, `membersByFailureDomain
      ensures Agrees(childrenByDomain, DomainParentRefs(m[record.id := record]))
      ensures membersByFailureDomain == if record.id in old(membersByFailureDomain) then old(membersByFailureDomain)
                                        else old(membersByFailureDomain)[record.id := {}]
    {
      hide Agrees;
      ghost var refs := DomainParentRefs(m);
      InsertNone(childrenByDomain, refs, record.id);
      assert ToSet(record.parents[..0]) == {};
      for i := 0 to |record.parents|
        invariant Agrees(childrenByDomain, refs[record.id := ToSet(record.parents[..i])])
        invariant membersByFailureDomain == old(membersByFailureDomain)
      {
        ghost var before := refs[record.id := ToSet(record.parents[..i])];
        InsertMore(childrenByDomain, before, record.id, record.parents[i]);
        childrenByDomain := Insert(childrenByDomain, record.parents[i], record.id);
        ToSetExtends(record.parents, i);
        assert before[record.id := before[record.id] + {record.parents[i]}]
            == refs[record.id := ToSet(record.parents[..i + 1])];
      }
      assert record.parents[..|record.parents|] == record.parents;
      assert DomainParentRefs(m[record.id := record]) == refs[record.id := ToSet(record.parents)];
      if record.id !in membersByFailureDomain {
        membersByFailureDomain := membersByFailureDomain[record.id := {}];
      }
    }

    /** Also drops the member bucket of the domain, members and all. */
    method IndexRemoveFailureDomain(record: FailureDomainRecord, ghost m: map<Text, FailureDomainRecord>)
      requires Agrees(childrenByDomain, DomainParentRefs(m)) && record.id in m && m[record.id] == record
      modifies `childrenByDomain, `membersByFailureDomain
      ensures Agrees(childrenByDomain, DomainParentRefs(m - {record.id}))
      ensures membersByFailureDomain == old(membersByFailureDomain) - {record.id}
    {
      hide Agrees;
      ghost var refs := DomainParentRefs(m);
      ghost var parents := ToSet(record.parents);
      assert ToSet(record.parents[..0]) == {} && refs[record.id] == parents;
      assert parents - ToSet(record.parents[..0]) == parents;
      UpdateSame(refs, record.id, parents - ToSet(record.parents[..0]));
      for i := 0 to |record.parents|
        invariant Agrees(childrenByDomain, refs[record.id := parents - ToSet(record.parents[..i])])
        invariant membersByFailureDomain == old(membersByFailureDomain)
      {
        ghost var before := refs[record.id := parents - ToSet(record.parents[..i])];
        EraseMore(childrenByDomain, before, record.id, record.parents[i]);
        childrenByDomain := Erase(childrenByDomain, record.parents[i], record.id);
        ToSetExtends(record.parents, i);
        assert before[record.id] - {record.parents[i]} == parents - ToSet(record.parents[..i + 1]);
        assert before[record.id := before[record.id] - {record.parents[i]}]
            == refs[record.id := parents - ToSet(record.parents[..i + 1])];
      }
      assert record.parents[..|record.parents|] == record.parents;
      ghost var emptied := refs[record.id := parents - parents];
      DropEmpty(childrenByDomain, emptied, record.id);
      assert DomainParentRefs(m - {record.id}) == emptied - {record.id};
      membersByFailureDomain := membersByFailureDomain - {record.id};
    }

    // ----- Replacing records together with their index entries -----

    method PutMember(record: MemberRecord)
      requires Indexed() && (record.key in members ==> members[record.key].key == record.key)
      modifies `members, `membersByKind, `membersByFailureDomain, `membersByPowerDomain, `membersByCoolingDomain,
               `membersByOwnerBoot, `childrenByParent
      ensures Indexed() && members == old(members)[record.key := record]
      ensures old(DomainIndexComplete()) ==> DomainIndexComplete()
      ensures old(HasExactBuckets()) ==> (HasExactBuckets() <==> KeepsNames(old(members), record, failureDomains))
      ensures Shifted(old(membersByFailureDomain), old(members), membersByFailureDomain, members, {record.key}, {}, {})
    {
      hide MembersIndexed, Agrees, KeepsNames, LeftBuckets, ExactBuckets, DomainSound, DomainComplete, Shifted;
      ghost var others := members - {record.key};
      ghost var was := old(HasExactBuckets());
      ghost var m := members;
      if was {
        ExactParts(membersByFailureDomain, members, failureDomains);
      }
      if record.key in members {
        IndexRemoveMember(members[record.key], members);
        RelistedWithout(old(membersByFailureDomain), membersByFailureDomain, members, record.key);
      } else {
        assert others == members;
      }
      ghost var between := membersByFailureDomain;
      assert DomainSound(between, others);
      IndexAddMember(record, others);
      RelistedWith(between, membersByFailureDomain, others, record);
      members := members[record.key := record];
      assert others[record.key := record] == members;
      PutShifts(old(membersByFailureDomain), between, membersByFailureDomain, m, record);
      if was {
        ReplacedBuckets(old(membersByFailureDomain), between, membersByFailureDomain, m, record, failureDomains);
      }
    }

    /** Replaces a member by a record with the same names: one more touch since the members were `m`. */
    method Touch(record: MemberRecord, ghost a: map<Text, set<MemberKey>>, ghost m: map<MemberKey, MemberRecord>,
                 ghost touched: set<MemberKey>)
      requires Indexed() && record.key in members && members[record.key].key == record.key
      requires record.failureDomains == members[record.key].failureDomains
      requires Shifted(a, m, membersByFailureDomain, members, touched, {}, {}) && DomainRefs(members) == DomainRefs(m)
      modifies `members, `membersByKind, `membersByFailureDomain, `membersByPowerDomain, `membersByCoolingDomain,
               `membersByOwnerBoot, `childrenByParent
      ensures Indexed() && members == old(members)[record.key := record]
      ensures Shifted(a, m, membersByFailureDomain, members, touched + {record.key}, {}, {})
      ensures DomainRefs(members) == DomainRefs(m)
    {
      hide Indexed, DomainIndexComplete, HasExactBuckets, KeepsNames, Shifted, DomainRefs;
      SameNames(members, record);
      ghost var b, n := membersByFailureDomain, members;
      PutMember(record);
      ShiftedTwice(a, m, b, n, membersByFailureDomain, members, touched, {record.key});
    }

    method PutRelationship(record: RelationshipRecord)
      requires Indexed()
      modifies `relationships, `relationshipsByMember
      ensures Indexed() && relationships == old(relationships)[record.key := record]
    {
      hide MembersIndexed, Agrees, DomainSound;
      ghost var others := relationships - {record.key};
      if record.key in relationships {
        IndexRemoveRelationship(record.key, relationships);
      } else {
        assert others == relationships;
      }
      IndexAddRelationship(record.key, EndpointRefs(others));
      relationships := relationships[record.key := record];
      assert EndpointRefs(others)[record.key := {record.key.from, record.key.to}] == EndpointRefs(relationships);
    }

    method DropRelationship(key: RelationshipKey)
      requires Indexed() && key in relationships
      modifies `relationships, `relationshipsByMember
      ensures Indexed() && relationships == old(relationships) - {key}
    {
      hide MembersIndexed, Agrees, DomainSound;
      IndexRemoveRelationship(key, relationships);
      relationships := relationships - {key};
    }

    /** Publishing a domain again empties its bucket, so the index stays complete exactly when that held nobody. */
    method PutFailureDomain(record: FailureDomainRecord)
      requires Indexed() && (record.id in failureDomains ==> failureDomains[record.id].id == record.id)
      modifies `failureDomains, `childrenByDomain, `membersByFailureDomain
      ensures Indexed() && failureDomains == old(failureDomains)[record.id := record]
      ensures old(DomainIndexComplete()) ==>
                (DomainIndexComplete() <==> record.id !in old(failureDomains) || !IsNamed(members, record.id))
      ensures old(HasExactBuckets()) ==>
                (HasExactBuckets() <==> record.id !in old(failureDomains) || !IsNamed(members, record.id))
      ensures Shifted(old(membersByFailureDomain), members, membersByFailureDomain, members, {},
                      if record.id in old(failureDomains) then {record.id} else {}, {record.id})
    {
      hide MembersIndexed, Agrees, DomainSound, DomainComplete, ExactBuckets, IsNamed, Shifted;
      ghost var others := failureDomains - {record.id};
      ghost var index := membersByFailureDomain;
      if record.id in failureDomains {
        IndexRemoveFailureDomain(failureDomains[record.id], failureDomains);
      } else {
        assert others == failureDomains;
      }
      IndexAddFailureDomain(record, others);
      failureDomains := failureDomains[record.id := record];
      assert others[record.id := record] == failureDomains;
      RepublishedBuckets(index, membersByFailureDomain, members, old(failureDomains), record);
      PublicationShifts(index, membersByFailureDomain, members, old(failureDomains), record.id);
    }

    /** Recomputes all indexes from the records. */
    method RebuildIndexes()
      requires forall k :: k in members ==> members[k].key == k
      requires forall d :: d in failureDomains ==> failureDomains[d].id == d
      modifies `relationshipsByMember, `membersByKind, `membersByFailureDomain, `membersByPowerDomain,
               `membersByCoolingDomain, `membersByOwnerBoot, `childrenByParent, `childrenByDomain
      ensures MembersIndexed(members) && Agrees(relationshipsByMember, StoredRefs(relationships))
      ensures Agrees(childrenByDomain, DomainParentRefs(failureDomains))
      ensures DomainIndexComplete() && HasExactBuckets()
      ensures (forall k :: k in relationships ==> relationships[k].key == k) ==> Indexed()
    {
      hide MembersIndexed, Agrees, DomainSound, DomainComplete, NoEmptyBucket;
      relationshipsByMember := map[];
      membersByKind := map[];
      membersByFailureDomain := map[];
      membersByPowerDomain := map[];
      membersByCoolingDomain := map[];
      membersByOwnerBoot := map[];
      childrenByParent := map[];
      childrenByDomain := map[];
      RebuildMembers();
      RebuildRelationships();
      ghost var before := membersByFailureDomain;
      RebuildFailureDomains();
      BucketsExact(membersByFailureDomain, before, members, failureDomains);
      if forall k :: k in relationships ==> relationships[k].key == k {
        StoredUnderTheirKeys(relationships);
      }
    }

    method RebuildMembers()
      requires forall k :: k in members ==> members[k].key == k
      requires membersByKind == map[] && membersByFailureDomain == map[] && membersByPowerDomain == map[]
            && membersByCoolingDomain == map[] && membersByOwnerBoot == map[] && childrenByParent == map[]
      modifies `membersByKind, `membersByFailureDomain, `membersByPowerDomain, `membersByCoolingDomain,
               `membersByOwnerBoot, `childrenByParent
      ensures MembersIndexed(members) && DomainSound(membersByFailureDomain, members) && DomainIndexComplete()
      ensures NoEmptyBucket(membersByFailureDomain)
    {
      hide MembersIndexed, DomainSound, DomainComplete, NoEmptyBucket, Relisted;
      ghost var done: map<MemberKey, MemberRecord> := map[];
      var rest := members.Keys;
      NothingIndexed();
      while rest != {}
        invariant rest <= members.Keys && done.Keys == members.Keys - rest
        invariant forall k :: k in done ==> done[k] == members[k]
        invariant MembersIndexed(done)
        invariant DomainSound(membersByFailureDomain, done) && DomainComplete(membersByFailureDomain, done)
        invariant NoEmptyBucket(membersByFailureDomain)
        decreases rest
      {
        var key :| key in rest;
        ghost var before := membersByFailureDomain;
        IndexAddMember(members[key], done);
        RelistedWith(before, membersByFailureDomain, done, members[key]);
        rest := rest - {key};
        done := done[key := members[key]];
      }
      assert done == members;
    }

    lemma NothingIndexed()
      requires membersByKind == map[] && membersByFailureDomain == map[] && membersByPowerDomain == map[]
            && membersByCoolingDomain == map[] && membersByOwnerBoot == map[] && childrenByParent == map[]
      ensures MembersIndexed(map[]) && NoEmptyBucket(membersByFailureDomain)
      ensures DomainSound(membersByFailureDomain, map[]) && DomainComplete(membersByFailureDomain, map[])
    {
    }

    method RebuildRelationships()
      requires relationshipsByMember == map[]
      modifies `relationshipsByMember
      ensures Agrees(relationshipsByMember, StoredRefs(relationships))
    {
      ghost var done: map<RelationshipKey, RelationshipRecord> := map[];
      var rest := relationships.Keys;
      assert StoredRefs(done) == map[];
      assert Agrees(relationshipsByMember, map[]);
      hide Agrees;
      while rest != {}
        invariant rest <= relationships.Keys && done.Keys == relationships.Keys - rest
        invariant forall k :: k in done ==> done[k] == relationships[k]
        invariant Agrees(relationshipsByMember, StoredRefs(done))
        decreases rest
      {
        var key :| key in rest;
        StoredExtends(done, key, relationships[key]);
        IndexAddRelationship(relationships[key].key, StoredRefs(done));
        rest := rest - {key};
        done := done[key := relationships[key]];
      }
      assert done == relationships;
    }

    method RebuildFailureDomains()
      requires forall d :: d in failureDomains ==> failureDomains[d].id == d
      requires childrenByDomain == map[]
      modifies `childrenByDomain, `membersByFailureDomain
      ensures Agrees(childrenByDomain, DomainParentRefs(failureDomains))
      ensures forall d, k {:trigger Listed(membersByFailureDomain, d, k)} ::
                Listed(membersByFailureDomain, d, k) <==> Listed(old(membersByFailureDomain), d, k)
      ensures forall d :: d in membersByFailureDomain <==> d in old(membersByFailureDomain) || d in failureDomains
    {
      ghost var done: map<Text, FailureDomainRecord> := map[];
      var rest := failureDomains.Keys;
      assert Agrees(childrenByDomain, DomainParentRefs(done));
      hide Agrees;
      while rest != {}
        invariant rest <= failureDomains.Keys && done.Keys == failureDomains.Keys - rest
        invariant forall d :: d in done ==> done[d] == failureDomains[d]
        invariant Agrees(childrenByDomain, DomainParentRefs(done))
        invariant forall d, k {:trigger Listed(membersByFailureDomain, d, k)} ::
                    Listed(membersByFailureDomain, d, k) <==> Listed(old(membersByFailureDomain), d, k)
        invariant forall d :: d in membersByFailureDomain <==> d in old(membersByFailureDomain) || d in done
        decreases rest
      {
        var id :| id in rest;
        ghost var before := membersByFailureDomain;
        IndexAddFailureDomain(failureDomains[id], done);
        assert forall d, k {:trigger Listed(membersByFailureDomain, d, k)} ::
          Listed(membersByFailureDomain, d, k) <==> Listed(before, d, k);
        rest := rest - {id};
        done := done[id := failureDomains[id]];
      }
      assert done == failureDomains;
    }

    // ----- Searches -----

    /** Climbs the parent chain. Exact on acyclic parent chains, and ends on any others too. */
    method ContainsCycle(parent: MemberKey, child: MemberKey) returns (found: bool)
      ensures Reaches(ParentGraph(members), parent, child) ==> found
      ensures found && Acyclic(ParentGraph(members)) ==> Reaches(ParentGraph(members), parent, child)
    {
      hide Reaches, Acyclic, Climbed, ParentGraph;
      ghost var g := ParentGraph(members);
      ReachesSelf(g, parent);
      if parent == child {
        return true;
      }
      var visited: set<MemberKey> := {};
      var current := parent;
      ClimbStarts(g, parent, child);
      while true
        invariant Climbed(g, parent, child, visited, current)
        invariant forall v :: v in visited ==> v in members && members[v].parent.Some?
        decreases members.Keys - visited, current !in visited
      {
        ParentEdgesOf(members, current);
        ClimbReaches(g, parent, child, visited, current);
        if current in visited {
          RevisitIsCycle(g, parent, child, visited, current, members[current].parent.value);
          return true;
        }
        if current == child {
          return true;
        }
        if current !in members || members[current].parent.None? {
          ClimbEnds(g, parent, child, visited, current);
          return false;
        }
        ClimbStep(g, parent, child, visited, current, members[current].parent.value);
        visited := visited + {current};
        current := members[current].parent.value;
      }
    }

    /** The containers of a member, read from the index. */
    method Containers(member: MemberKey) returns (containers: seq<MemberKey>)
      requires Agrees(relationshipsByMember, EndpointRefs(relationships))
      ensures forall w :: w in containers <==> (member, w) in ContainsGraph(relationships)
    {
      containers := [];
      var rest := if member in relationshipsByMember then relationshipsByMember[member] else {};
      ghost var touching := rest;
      assert forall k :: k in touching <==> k in relationships && (k.from == member || k.to == member) by {
        forall k ensures k in touching <==> k in relationships && (k.from == member || k.to == member) {
          assert Listed(relationshipsByMember, member, k) <==> Refers(EndpointRefs(relationships), k, member);
        }
      }
      hide Agrees;
      while rest != {}
        invariant rest <= touching
        invariant forall w :: w in containers <==>
                    exists k :: k in touching && k !in rest && k.cls.Contains? && k.to == member && k.from == w
        decreases rest
      {
        var key :| key in rest;
        if key.cls.Contains? && key.to == member {
          containers := containers + [key.from];
        }
        rest := rest - {key};
      }
      ContainersAre(relationships, touching, member);
    }

    /** Climbs the CONTAINS relationships through the index. */
    method RelationshipContainsCycle(parent: MemberKey, child: MemberKey) returns (found: bool)
      requires Agrees(relationshipsByMember, EndpointRefs(relationships))
      ensures found <==> Reaches(ContainsGraph(relationships), parent, child)
    {
      hide Reaches, Explored, ContainsGraph, Agrees, FromAny;
      ghost var g := ContainsGraph(relationships);
      ReachesSelf(g, parent);
      if parent == child {
        return true;
      }
      var pending: seq<MemberKey>, visited: set<MemberKey> := [parent], {};
      ExploreStarts(g, {parent});
      assert ToSet(pending) == {parent};
      while pending != []
        invariant Explored(g, {parent}, visited, ToSet(pending)) && child !in visited
        invariant visited <= Nodes(g) + {parent} && ToSet(pending) <= Nodes(g) + {parent}
        decreases Nodes(g) + {parent} - visited, |pending|
      {
        var current := pending[0];
        ghost var before := ToSet(pending);
        ToSetHead(pending);
        ExploredReaches(g, parent, visited, before, current);
        if current == child {
          return true;
        }
        pending := pending[1..];
        if current in visited {
          ExploredSkips(g, {parent}, visited, before, current, ToSet(pending));
        } else {
          var containers := Containers(current);
          NodesOfEdges(g, current);
          ToSetConcat(pending, containers);
          pending := pending + containers;
          ExploreStep(g, {parent}, visited, before, current, ToSet(containers), ToSet(pending));
          visited := visited + {current};
        }
      }
      assert ToSet(pending) == {};
      ExploreEnds(g, {parent}, visited);
      FromSingle(g, parent, child);
      found := false;
    }

    /** Climbs the failure-domain records; a domain may have many parents. */
    method DomainContainsCycle(parent: Text, child: Text) returns (found: bool)
      ensures found <==> Reaches(DomainGraph(failureDomains), parent, child)
    {
      hide Reaches, Explored, DomainGraph, FromAny;
      ghost var g := DomainGraph(failureDomains);
      ReachesSelf(g, parent);
      if parent == child {
        return true;
      }
      var pending: seq<Text>, visited: set<Text> := [parent], {};
      ExploreStarts(g, {parent});
      assert ToSet(pending) == {parent};
      while pending != []
        invariant Explored(g, {parent}, visited, ToSet(pending)) && child !in visited
        invariant visited <= Nodes(g) + {parent} && ToSet(pending) <= Nodes(g) + {parent}
        decreases Nodes(g) + {parent} - visited, |pending|
      {
        var current := pending[0];
        ghost var before := ToSet(pending);
        ToSetHead(pending);
        ExploredReaches(g, parent, visited, before, current);
        pending := pending[1..];
        if current in visited {
          ExploredSkips(g, {parent}, visited, before, current, ToSet(pending));
        } else {
          if current == child {
            return true;
          }
          var parents := if current in failureDomains then failureDomains[current].parents else [];
          DomainEdgesOf(failureDomains, current);
          ToSetConcat(pending, parents);
          pending := pending + parents;
          ExploreStep(g, {parent}, visited, before, current, ToSet(parents), ToSet(pending));
          visited := visited + {current};
        }
      }
      assert ToSet(pending) == {};
      ExploreEnds(g, {parent}, visited);
      FromSingle(g, parent, child);
      found := false;
    }

    /** The domains a member belongs to, found by climbing the domain records. */
    method FailureDomainsOf(key: MemberKey) returns (domains: seq<Text>)
      ensures StrictTotal(TextLess) && domains == Ascending(DomainsOf(Value(), key), TextLess)
    {
      hide Reaches, Explored, DomainGraph, FromAny, StrictTotal, DomainsOf;
      TextOrder();
      if key !in members {
        NoDomains(Value(), key);
        domains := Sorted({}, TextLess);
        return;
      }
      ghost var g := DomainGraph(failureDomains);
      ghost var starts := ToSet(members[key].failureDomains);
      var pending: seq<Text>, visited: set<Text> := members[key].failureDomains, {};
      ExploreStarts(g, starts);
      while pending != []
        invariant Explored(g, starts, visited, ToSet(pending))
        invariant visited <= Nodes(g) + starts && ToSet(pending) <= Nodes(g) + starts
        decreases Nodes(g) + starts - visited, |pending|
      {
        var current := pending[0];
        ghost var before := ToSet(pending);
        ToSetHead(pending);
        pending := pending[1..];
        if current in visited {
          ExploredSkips(g, starts, visited, before, current, ToSet(pending));
        } else {
          var parents := if current in failureDomains then failureDomains[current].parents else [];
          DomainEdgesOf(failureDomains, current);
          ToSetConcat(pending, parents);
          pending := pending + parents;
          ExploreStep(g, starts, visited, before, current, ToSet(parents), ToSet(pending));
          visited := visited + {current};
        }
      }
      assert ToSet(pending) == {};
      ExploreEnds(g, starts, visited);
      DomainsAreReached(Value(), key, visited);
      domains := Sorted(visited, TextLess);
    }

    /** Visits the children of one domain that were not met before, collecting the members listed under them. */
    method DescendTo(current: Text, pending: seq<Text>, visited: set<Text>, found: set<MemberKey>)
      returns (queue: seq<Text>, met: set<Text>, listed: set<MemberKey>)
      requires Agrees(childrenByDomain, DomainParentRefs(failureDomains))
      requires found == ListedUnder(membersByFailureDomain, visited)
      ensures met == visited + Parentage(failureDomains, current)
      ensures ToSet(queue) == ToSet(pending) + (met - visited)
      ensures listed == ListedUnder(membersByFailureDomain, met)
      ensures met == visited ==> queue == pending
    {
      var rest := if current in childrenByDomain then childrenByDomain[current] else {};
      ChildrenAre(childrenByDomain, failureDomains, current);
      hide Agrees, Parentage, ListedUnder, ToSet;
      ghost var children := rest;
      queue, met, listed := pending, visited, found;
      while rest != {}
        invariant rest <= children
        invariant met == visited + (children - rest)
        invariant ToSet(queue) == ToSet(pending) + (met - visited)
        invariant listed == ListedUnder(membersByFailureDomain, met)
        invariant met == visited ==> queue == pending
        decreases rest
      {
        var child :| child in rest;
        if child !in met {
          ListedUnderMore(membersByFailureDomain, met, child);
          ToSetConcat(queue, [child]);
          ToSetSingle(child);
          met := met + {child};
          queue := queue + [child];
          if child in membersByFailureDomain {
            listed := listed + membersByFailureDomain[child];
          }
        }
        rest := rest - {child};
      }
    }

    /** The members a failure of a domain touches, found by descending from it through the indexes. */
    method MembersInFailureDomain(id: Text, nested: bool) returns (affected: seq<MemberKey>)
      requires Indexed()
      ensures forall k :: k in affected ==> k in AffectedBy(Value(), id)
      ensures StrictTotal(MemberLess)
      ensures DomainIndexComplete() ==>
                affected == Ascending(if nested then AffectedBy(Value(), id) else DirectlyIn(Value(), id), MemberLess)
    {
      hide MembersIndexed, Agrees, DomainSound, DomainComplete, AffectedBy, DirectlyIn, ListedUnder, StrictTotal,
        Explored, Nodes, Reaches, DomainGraph, FromAny, Parentage;
      MemberOrder();
      ListedUnderMore(membersByFailureDomain, {}, id);
      ListedUnderNone(membersByFailureDomain);
      var found := if id in membersByFailureDomain then membersByFailureDomain[id] else {};
      if !nested {
        DirectAreListed(Value(), membersByFailureDomain, id);
        affected := Sorted(found, MemberLess);
        return;
      }
      ghost var g := Inverse(DomainGraph(failureDomains));
      ghost var expanded: set<Text> := {};
      var pending: seq<Text>, visited: set<Text> := [id], {id};
      ToSetSingle(id);
      ExploreStarts(g, {id});
      while pending != []
        invariant Explored(g, {id}, expanded, ToSet(pending))
        invariant visited == expanded + ToSet(pending) && visited <= Nodes(g) + {id}
        invariant found == ListedUnder(membersByFailureDomain, visited)
        decreases Nodes(g) + {id} - visited, |pending|
      {
        var current := pending[0];
        ghost var before := pending;
        ToSetHead(pending);
        pending, visited, found := DescendTo(current, pending[1..], visited, found);
        ParentageInverts(failureDomains, current);
        ExploreStep(g, {id}, expanded, ToSet(before), current, Parentage(failureDomains, current), ToSet(pending));
        expanded := expanded + {current};
      }
      assert ToSet(pending) == {};
      ExploreEnds(g, {id}, expanded);
      AffectedAreListed(Value(), membersByFailureDomain, id, visited);
      affected := Sorted(found, MemberLess);
    }

    method SharesFailureDomain(left: MemberKey, right: MemberKey) returns (shared: bool)
      ensures shared <==> exists d :: d in DomainsOf(Value(), left) && d in DomainsOf(Value(), right)
    {
      hide DomainsOf, StrictTotal, Ascends;
      var ls := FailureDomainsOf(left);
      AscendingHolds(DomainsOf(Value(), left), TextLess);
      if ls == [] {
        assert forall d :: d in DomainsOf(Value(), left) ==> d in ls;
        return false;
      }
      var rs := FailureDomainsOf(right);
      AscendingHolds(DomainsOf(Value(), right), TextLess);
      if rs == [] {
        assert forall d :: d in DomainsOf(Value(), right) ==> d in rs;
        return false;
      }
      shared := Meet(ls, rs);
      assert forall d :: d in ls <==> d in DomainsOf(Value(), left);
      assert forall d :: d in rs <==> d in DomainsOf(Value(), right);
    }
  }

  method Meet(ls: seq<Text>, rs: seq<Text>) returns (shared: bool)
    requires Ascends(rs, TextLess)
    ensures shared <==> exists d :: d in ls && d in rs
  {
    hide Ascends, TextLess;
    for i := 0 to |ls|
      invariant forall j :: 0 <= j < i ==> ls[j] !in rs
    {
      var found := BinarySearch(rs, ls[i]);
      if found {
        return true;
      }
    }
    shared := false;
  }

  /** std::binary_search over an ascending sequence. */
  method BinarySearch(xs: seq<Text>, x: Text) returns (found: bool)
    requires Ascends(xs, TextLess)
    ensures found <==> x in xs
  {
    hide TextLess;
    var lo, hi := 0, |xs|;
    while lo < hi
      invariant 0 <= lo <= hi <= |xs|
      invariant forall i :: 0 <= i < lo ==> TextLess(xs[i], x)
      invariant forall i :: hi <= i < |xs| ==> !TextLess(xs[i], x)
    {
      var mid := (lo + hi) / 2;
      if TextLess(xs[mid], x) {
        forall i | 0 <= i <= mid
          ensures TextLess(xs[i], x)
        {
          if i < mid {
            TextLessTransitive(xs[i], xs[mid], x);
          }
        }
        lo := mid + 1;
      } else {
        forall i | mid <= i < |xs|
          ensures !TextLess(xs[i], x)
        {
          if i > mid && TextLess(xs[i], x) {
            TextLessTransitive(xs[mid], xs[i], x);
          }
        }
        hi := mid;
      }
    }
    found := lo < |xs| && !TextLess(x, xs[lo]);
    TextLessCompares(x, x);
    if lo < |xs| {
      TextLessCompares(x, xs[lo]);
    }
    forall i | lo < i < |xs| && !TextLess(x, xs[i])
      ensures xs[i] != x || found
    {
      TextLessCompares(xs[lo], xs[i]);
    }
  }

  lemma AscendingHolds(s: set<Text>, less: (Text, Text) -> bool)
    requires StrictTotal(less)
    ensures Ascends(Ascending(s, less), less) && forall x :: x in Ascending(s, less) <==> x in s
  {
  }

  // ----- Descending from a failure domain -----

  /** The members that belong to a domain, directly or through nested domains. */
  ghost function AffectedBy(s: Core, id: Text): set<MemberKey> {
    set k | k in s.members && id in DomainsOf(s, k)
  }

  ghost function DirectlyIn(s: Core, id: Text): set<MemberKey> {
    set k | k in s.members && id in s.members[k].failureDomains
  }

  ghost function ListedUnder(index: map<Text, set<MemberKey>>, domains: set<Text>): set<MemberKey> {
    set d, k | d in domains && d in index && k in index[d] :: k
  }

  /** The domains that name `id` as a parent. */
  ghost function Parentage(domains: map<Text, FailureDomainRecord>, id: Text): set<Text> {
    set c | c in domains && id in domains[c].parents
  }

  lemma ListedUnderMore(index: map<Text, set<MemberKey>>, domains: set<Text>, d: Text)
    ensures ListedUnder(index, domains + {d}) == ListedUnder(index, domains) + if d in index then index[d] else {}
  {
  }

  lemma ListedUnderNone(index: map<Text, set<MemberKey>>)
    ensures ListedUnder(index, {}) == {} && forall d: Text :: {} + {d} == {d}
  {
  }

  lemma ToSetSingle<X>(x: X)
    ensures ToSet([x]) == {x}
  {
  }

  lemma ChildrenAre(index: map<Text, set<Text>>, domains: map<Text, FailureDomainRecord>, id: Text)
    requires Agrees(index, DomainParentRefs(domains))
    ensures (if id in index then index[id] else {}) == Parentage(domains, id)
  {
    var children := if id in index then index[id] else {};
    forall c
      ensures c in children <==> c in Parentage(domains, id)
    {
      assert Listed(index, id, c) <==> Refers(DomainParentRefs(domains), c, id);
    }
  }

  lemma ParentageInverts(domains: map<Text, FailureDomainRecord>, id: Text)
    ensures forall c {:trigger (id, c) in Inverse(DomainGraph(domains))} ::
              (id, c) in Inverse(DomainGraph(domains)) <==> c in Parentage(domains, id)
    ensures Parentage(domains, id) <= Nodes(Inverse(DomainGraph(domains)))
  {
    var g := Inverse(DomainGraph(domains));
    forall c
      ensures (id, c) in g <==> c in Parentage(domains, id)
    {
      if c in Parentage(domains, id) {
        assert (c, id) in DomainGraph(domains);
      }
    }
    NodesOfEdges(g, id);
    forall c | c in Parentage(domains, id)
      ensures c in Nodes(g)
    {
      assert (id, c) in g;
    }
  }

  lemma DomainReached(s: Core, k: MemberKey, d: Text, id: Text)
    requires k in s.members && d in s.members[k].failureDomains && Reaches(DomainGraph(s.failureDomains), d, id)
    ensures id in DomainsOf(s, k)
  {
    hide DomainGraph, Reaches;
    var g := DomainGraph(s.failureDomains);
    assert ReachedFrom(s.failureDomains, s.members[k].failureDomains, id);
    if id != d {
      ReachedIsNode(g, d, id);
    }
  }

  lemma ReachedIsNode<T(!new)>(g: Edges<T>, a: T, b: T)
    requires Reaches(g, a, b) && a != b
    ensures b in Nodes(g)
  {
    var p :| Path(g, p) && p[0] == a && p[|p| - 1] == b;
    assert (p[|p| - 2], p[|p| - 1]) in g;
    NodesOfEdges(g, p[|p| - 2]);
  }

  lemma DirectAreListed(s: Core, index: map<Text, set<MemberKey>>, id: Text)
    requires DomainSound(index, s.members)
    ensures var found := if id in index then index[id] else {};
            && (forall k :: k in found ==> k in AffectedBy(s, id))
            && (DomainComplete(index, s.members) ==> found == DirectlyIn(s, id))
  {
    hide DomainsOf;
    var found := if id in index then index[id] else {};
    forall k
      ensures k in found <==> Listed(index, id, k)
      ensures k in found ==> k in DirectlyIn(s, id) && k in AffectedBy(s, id)
      ensures k in DirectlyIn(s, id) ==> Refers(DomainRefs(s.members), k, id)
    {
      if k in found {
        assert Listed(index, id, k);
        assert Refers(DomainRefs(s.members), k, id);
        ReachesSelf(DomainGraph(s.failureDomains), id);
        DomainReached(s, k, id, id);
      }
    }
    if DomainComplete(index, s.members) {
      assert found == DirectlyIn(s, id);
    }
  }

  /** Descending the inverse graph and climbing from each member find the same members. */
  lemma AffectedAreListed(s: Core, index: map<Text, set<MemberKey>>, id: Text, visited: set<Text>)
    requires DomainSound(index, s.members)
    requires forall d :: d in visited <==> FromAny(Inverse(DomainGraph(s.failureDomains)), {id}, d)
    ensures forall k :: k in ListedUnder(index, visited) ==> k in AffectedBy(s, id)
    ensures DomainComplete(index, s.members) ==> ListedUnder(index, visited) == AffectedBy(s, id)
  {
    hide DomainGraph, Reaches, FromAny;
    var g := DomainGraph(s.failureDomains);
    forall d
      ensures d in visited <==> Reaches(g, d, id)
    {
      InverseReaches(g, d, id);
      FromSingle(Inverse(g), id, d);
    }
    forall k | k in ListedUnder(index, visited)
      ensures k in AffectedBy(s, id)
    {
      var d :| d in visited && d in index && k in index[d];
      assert Listed(index, d, k);
      assert Refers(DomainRefs(s.members), k, d);
      DomainReached(s, k, d, id);
    }
    if DomainComplete(index, s.members) {
      forall k | k in AffectedBy(s, id)
        ensures k in ListedUnder(index, visited)
      {
        assert ReachedFrom(s.failureDomains, s.members[k].failureDomains, id);
        var d :| d in s.members[k].failureDomains && Reaches(g, d, id);
        assert Refers(DomainRefs(s.members), k, d);
        assert Listed(index, d, k);
      }
    }
  }

  lemma ToSetHead<X>(s: seq<X>)
    requires s != []
    ensures s[0] in ToSet(s)
    ensures forall x :: x in ToSet(s) <==> x == s[0] || x in ToSet(s[1..])
  {
    assert s == [s[0]] + s[1..];
  }

  lemma ToSetConcat<X>(s: seq<X>, t: seq<X>)
    ensures ToSet(s + t) == ToSet(s) + ToSet(t)
  {
  }

  lemma NodesOfEdges<T(!new)>(g: Edges<T>, v: T)
    ensures forall w {:trigger (v, w) in g} :: (v, w) in g ==> w in Nodes(g)
  {
    forall w | (v, w) in g
      ensures w in Nodes(g)
    {
      assert (v, w).1 == w;
    }
  }

  lemma ContainersAre(
    relationships: map<RelationshipKey, RelationshipRecord>, touching: set<RelationshipKey>, member: MemberKey)
    requires forall k :: k in touching <==> k in relationships && (k.from == member || k.to == member)
    ensures forall w :: (member, w) in ContainsGraph(relationships) <==>
              exists k :: k in touching && k.cls.Contains? && k.to == member && k.from == w
  {
    forall w
      ensures (member, w) in ContainsGraph(relationships) <==>
              exists k :: k in touching && k.cls.Contains? && k.to == member && k.from == w
    {
      if k :| k in touching && k.cls.Contains? && k.to == member && k.from == w {
        assert (k.to, k.from) in ContainsGraph(relationships);
      }
    }
  }

  lemma ExploredReaches<T(!new)>(g: Edges<T>, start: T, visited: set<T>, pending: set<T>, v: T)
    requires Explored(g, {start}, visited, pending) && v in pending
    ensures Reaches(g, start, v)
  {
    hide Reaches, FromAny;
    FromSingle(g, start, v);
  }

  lemma ExploredSkips<T(!new)>(g: Edges<T>, starts: set<T>, visited: set<T>, pending: set<T>, v: T, rest: set<T>)
    requires Explored(g, starts, visited, pending) && v in visited
    requires forall x :: x in pending <==> x == v || x in rest
    ensures Explored(g, starts, visited, rest)
  {
    hide FromAny;
  }

  lemma DomainEdgesOf(domains: map<Text, FailureDomainRecord>, d: Text)
    ensures forall w {:trigger (d, w) in DomainGraph(domains)} ::
              (d, w) in DomainGraph(domains) <==> w in ToSet(if d in domains then domains[d].parents else [])
    ensures ToSet(if d in domains then domains[d].parents else []) <= Nodes(DomainGraph(domains))
  {
    NodesOfEdges(DomainGraph(domains), d);
    forall w | w in ToSet(if d in domains then domains[d].parents else [])
      ensures w in Nodes(DomainGraph(domains))
    {
      assert (d, w) in DomainGraph(domains);
    }
  }

  lemma NoDomains(s: Core, key: MemberKey)
    requires key !in s.members
    ensures DomainsOf(s, key) == {}
  {
  }

  lemma DomainsAreReached(s: Core, key: MemberKey, visited: set<Text>)
    requires key in s.members
    requires forall d :: d in visited <==>
               FromAny(DomainGraph(s.failureDomains), ToSet(s.members[key].failureDomains), d)
    requires visited <= Nodes(DomainGraph(s.failureDomains)) + ToSet(s.members[key].failureDomains)
    ensures visited == DomainsOf(s, key)
  {
    hide Reaches, Nodes, DomainGraph;
    var direct := s.members[key].failureDomains;
    forall d
      ensures FromAny(DomainGraph(s.failureDomains), ToSet(direct), d) <==> ReachedFrom(s.failureDomains, direct, d)
    {
      assert forall x :: x in ToSet(direct) <==> x in direct;
    }
    assert forall d :: d in visited ==> d in Candidates(s.failureDomains, direct);
  }

  lemma ParentEdgesOf(members: map<MemberKey, MemberRecord>, k: MemberKey)
    ensures forall w {:trigger (k, w) in ParentGraph(members)} ::
              (k, w) in ParentGraph(members) <==> k in members && members[k].parent == Some(w)
  {
    forall w
      ensures (k, w) in ParentGraph(members) <==> k in members && members[k].parent == Some(w)
    {
      ParentEdges(members, k, w);
    }
  }

  lemma ClimbReaches<T(!new)>(g: Edges<T>, start: T, goal: T, visited: set<T>, current: T)
    requires Climbed(g, start, goal, visited, current)
    ensures Reaches(g, start, current) && goal !in visited
  {
    hide Reaches;
  }

  lemma RevisitIsCycle<T(!new)>(g: Edges<T>, start: T, goal: T, visited: set<T>, current: T, next: T)
    requires Climbed(g, start, goal, visited, current) && current in visited && (current, next) in g
    ensures !Acyclic(g)
  {
    hide Reaches, Acyclic;
    ReturnIsCycle(g, current, next);
  }

  lemma RelistedWithout(
    before: map<Text, set<MemberKey>>, after: map<Text, set<MemberKey>>, m: map<MemberKey, MemberRecord>,
    key: MemberKey)
    requires key in m && Relisted(before, after, key, {}, ToSet(m[key].failureDomains))
    ensures DomainSound(before, m) ==> DomainSound(after, m - {key})
    ensures DomainComplete(before, m) ==> DomainComplete(after, m - {key})
  {
    forall d, k
      ensures Refers(DomainRefs(m - {key}), k, d) <==> Refers(DomainRefs(m), k, d) && k != key
    {
    }
  }

  lemma RelistedWith(
    before: map<Text, set<MemberKey>>, after: map<Text, set<MemberKey>>, m: map<MemberKey, MemberRecord>,
    r: MemberRecord)
    requires r.key !in m && Relisted(before, after, r.key, ToSet(r.failureDomains), {})
    ensures DomainSound(before, m) ==> DomainSound(after, m[r.key := r])
    ensures DomainComplete(before, m) ==> DomainComplete(after, m[r.key := r])
  {
    forall d, k
      ensures Refers(DomainRefs(m[r.key := r]), k, d) <==>
              if k == r.key then d in r.failureDomains else Refers(DomainRefs(m), k, d)
    {
    }
    if DomainComplete(before, m) {
      forall d, k | Refers(DomainRefs(m[r.key := r]), k, d)
        ensures Listed(after, d, k)
      {
        if k != r.key {
          assert Refers(DomainRefs(m), k, d);
          assert Listed(before, d, k);
        }
      }
    }
  }
}
