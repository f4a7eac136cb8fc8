/** Inverted indexes: buckets of keys kept in step with what each key refers to. */
module Indexes {

  function Insert<X, K>(index: map<X, set<K>>, x: X, k: K): map<X, set<K>> {
    index[x := (if x in index then index[x] else {}) + {k}]
  }

  /** Takes a key out of a bucket, and the bucket out of the index when that empties it. */
  function Erase<X, K>(index: map<X, set<K>>, x: X, k: K): map<X, set<K>> {
    if x !in index then index
    else if index[x] - {k} == {} then index - {x}
    else index[x := index[x] - {k}]
  }

  ghost predicate Listed<X, K>(index: map<X, set<K>>, x: X, k: K) {
    x in index && k in index[x]
  }

  ghost predicate Refers<X, K>(refs: map<K, set<X>>, k: K, x: X) {
    k in refs && x in refs[k]
  }

  /** The index lists exactly the references, without empty buckets. */
  ghost predicate Agrees<X(!new), K(!new)>(index: map<X, set<K>>, refs: map<K, set<X>>) {
    && (forall x :: x in index ==> index[x] != {})
    && forall x, k {:trigger Listed(index, x, k)} {:trigger Refers(refs, k, x)} ::
         Listed(index, x, k) <==> Refers(refs, k, x)
  }

  /** Agreement determines the index: maintained and rebuilt ones are equal. */
  lemma AgreementIsUnique<X(!new), K(!new)>(a: map<X, set<K>>, b: map<X, set<K>>, refs: map<K, set<X>>)
    requires Agrees(a, refs) && Agrees(b, refs)
    ensures a == b
  {
    forall x
      ensures x in a <==> x in b
      ensures x in a ==> a[x] == b[x]
    {
      if x in a {
        var k :| k in a[x];
        assert Listed(a, x, k);
        assert Listed(b, x, k);
        forall j ensures j in a[x] <==> j in b[x] {
          assert Listed(a, x, j) <==> Refers(refs, j, x);
          assert Listed(b, x, j) <==> Refers(refs, j, x);
        }
      }
      if x in b {
        var k :| k in b[x];
        assert Listed(b, x, k);
        assert Listed(a, x, k);
      }
    }
  }

  lemma InsertLists<X(!new), K(!new)>(index: map<X, set<K>>, x: X, k: K)
    ensures forall y, j {:trigger Listed(Insert(index, x, k), y, j)} ::
              Listed(Insert(index, x, k), y, j) <==> Listed(index, y, j) || (y == x && j == k)
    ensures forall y :: y in Insert(index, x, k) ==> y == x || y in index
    ensures (forall y :: y in index ==> index[y] != {}) ==>
              forall y :: y in Insert(index, x, k) ==> Insert(index, x, k)[y] != {}
  {
  }

  lemma EraseLists<X(!new), K(!new)>(index: map<X, set<K>>, x: X, k: K)
    ensures forall y, j {:trigger Listed(Erase(index, x, k), y, j)} ::
              Listed(Erase(index, x, k), y, j) <==> Listed(index, y, j) && !(y == x && j == k)
    ensures (forall y :: y in index ==> index[y] != {}) ==>
              forall y :: y in Erase(index, x, k) ==> Erase(index, x, k)[y] != {}
  {
  }

  /** A new key with references of its own. */
  lemma InsertOne<X(!new), K(!new)>(index: map<X, set<K>>, refs: map<K, set<X>>, k: K, x: X)
    requires Agrees(index, refs) && k !in refs
    ensures Agrees(Insert(index, x, k), refs[k := {x}])
  {
    InsertLists(index, x, k);
    var h := refs[k := {x}];
    forall y, j
      ensures Listed(Insert(index, x, k), y, j) <==> Refers(h, j, y)
    {
      assert Listed(index, y, j) <==> Refers(refs, j, y);
    }
  }

  lemma InsertNone<X(!new), K(!new)>(index: map<X, set<K>>, refs: map<K, set<X>>, k: K)
    requires Agrees(index, refs) && k !in refs
    ensures Agrees(index, refs[k := {}])
  {
    forall y, j
      ensures Listed(index, y, j) <==> Refers(refs[k := {}], j, y)
    {
      assert Listed(index, y, j) <==> Refers(refs, j, y);
    }
  }

  /** One more reference of a key that is already listed. */
  lemma InsertMore<X(!new), K(!new)>(index: map<X, set<K>>, refs: map<K, set<X>>, k: K, x: X)
    requires Agrees(index, refs) && k in refs
    ensures Agrees(Insert(index, x, k), refs[k := refs[k] + {x}])
  {
    InsertLists(index, x, k);
    var h := refs[k := refs[k] + {x}];
    forall y, j
      ensures Listed(Insert(index, x, k), y, j) <==> Refers(h, j, y)
    {
      assert Listed(index, y, j) <==> Refers(refs, j, y);
    }
  }

  lemma EraseMore<X(!new), K(!new)>(index: map<X, set<K>>, refs: map<K, set<X>>, k: K, x: X)
    requires Agrees(index, refs) && k in refs
    ensures Agrees(Erase(index, x, k), refs[k := refs[k] - {x}])
  {
    EraseLists(index, x, k);
    var h := refs[k := refs[k] - {x}];
    forall y, j
      ensures Listed(Erase(index, x, k), y, j) <==> Refers(h, j, y)
    {
      assert Listed(index, y, j) <==> Refers(refs, j, y);
    }
  }

  lemma DropEmpty<X(!new), K(!new)>(index: map<X, set<K>>, refs: map<K, set<X>>, k: K)
    requires Agrees(index, refs) && k in refs && refs[k] == {}
    ensures Agrees(index, refs - {k})
  {
    forall y, j
      ensures Listed(index, y, j) <==> Refers(refs - {k}, j, y)
    {
      assert Listed(index, y, j) <==> Refers(refs, j, y);
    }
  }

  lemma UpdateSame<K, V>(m: map<K, V>, k: K, v: V)
    requires k in m && m[k] == v
    ensures m[k := v] == m
  {
  }

  lemma UpdateTwice<K, V>(m: map<K, V>, k: K, u: V, v: V)
    ensures m[k := u][k := v] == m[k := v]
  {
  }
}
