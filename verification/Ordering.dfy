/** The key orders of the ordered maps, and the ascending enumeration that iterating over such a map yields. */
module Ordering {
  import opened Evidence
  import opened Model

  ghost predicate StrictTotal<T(!new)>(less: (T, T) -> bool) {
    && (forall a, b {:trigger less(a, b)} :: less(a, b) ==> a != b && !less(b, a))
    && (forall a, b {:trigger less(a, b)} :: a == b || less(a, b) || less(b, a))
    && forall a, b, c {:trigger less(a, b), less(b, c)} :: less(a, b) && less(b, c) ==> less(a, c)
  }

  ghost predicate Ascends<T(!new)>(xs: seq<T>, less: (T, T) -> bool) {
    forall i, j :: 0 <= i < j < |xs| ==> less(xs[i], xs[j])
  }

  ghost predicate IsLeast<T(!new)>(s: set<T>, less: (T, T) -> bool, m: T) {
    m in s && forall x :: x in s && x != m ==> less(m, x)
  }

  lemma {:induction false} LeastExists<T(!new)>(s: set<T>, less: (T, T) -> bool)
    requires StrictTotal(less) && s != {}
    ensures exists m :: IsLeast(s, less, m)
    decreases s
  {
    var x :| x in s;
    var rest := s - {x};
    if rest == {} {
      assert s == {x};
      assert IsLeast(s, less, x);
    } else {
      LeastExists(rest, less);
      var y :| IsLeast(rest, less, y);
      assert IsLeast(s, less, if less(x, y) then x else y);
    }
  }

  /** The elements of `s` in ascending order. */
  ghost function Ascending<T(!new)>(s: set<T>, less: (T, T) -> bool): (xs: seq<T>)
    requires StrictTotal(less)
    ensures Ascends(xs, less)
    ensures forall x :: x in xs <==> x in s
    ensures |xs| == |s|
    decreases s
  {
    if s == {} then [] else
      var m := Least(s, less);
      [m] + Ascending(s - {m}, less)
  }

  ghost function Least<T(!new)>(s: set<T>, less: (T, T) -> bool): (m: T)
    requires StrictTotal(less) && s != {}
    ensures IsLeast(s, less, m)
  {
    LeastExists(s, less);
    var m :| IsLeast(s, less, m);
    m
  }

  method PickLeast<T(!new, ==)>(s: set<T>, less: (T, T) -> bool) returns (m: T)
    requires StrictTotal(less) && s != {}
    ensures IsLeast(s, less, m)
  {
    LeastExists(s, less);
    m :| m in s && forall x :: x in s && x != m ==> less(m, x);
  }

  /** Picking least elements one after the other enumerates a set in ascending order. */
  method Sorted<T(!new, ==)>(s: set<T>, less: (T, T) -> bool) returns (xs: seq<T>)
    requires StrictTotal(less)
    ensures xs == Ascending(s, less)
  {
    hide StrictTotal, IsLeast, Ascends;
    xs := [];
    var rest := s;
    while rest != {}
      invariant xs + Ascending(rest, less) == Ascending(s, less)
      decreases rest
    {
      var x := PickLeast(rest, less);
      LeastIsMember(rest, less, x);
      AscendingFrom(rest, less, x);
      ConcatAssociates(xs, [x], Ascending(rest - {x}, less));
      xs := xs + [x];
      rest := rest - {x};
    }
  }

  lemma LeastIsMember<T(!new)>(s: set<T>, less: (T, T) -> bool, m: T)
    requires IsLeast(s, less, m)
    ensures m in s
  {
  }

  lemma ConcatAssociates<T>(a: seq<T>, b: seq<T>, c: seq<T>)
    ensures a + (b + c) == (a + b) + c
  {
  }

  lemma AscendingFrom<T(!new)>(s: set<T>, less: (T, T) -> bool, x: T)
    requires StrictTotal(less) && IsLeast(s, less, x)
    ensures Ascending(s, less) == [x] + Ascending(s - {x}, less)
  {
    var m := Least(s, less);
    assert m == x || less(m, x);
  }

  /** The values of a map, in the order of their keys. */
  ghost function InOrder<K(!new), V>(m: map<K, V>, less: (K, K) -> bool): (s: seq<V>)
    requires StrictTotal(less)
    ensures |s| == |m|
  {
    var keys := Ascending(m.Keys, less);
    seq(|keys|, i requires 0 <= i < |keys| => assert keys[i] in keys; m[keys[i]])
  }

  lemma InOrderAt<K(!new), V>(m: map<K, V>, less: (K, K) -> bool, i: nat)
    requires StrictTotal(less) && i < |m|
    ensures |Ascending(m.Keys, less)| == |m|
    ensures var k := Ascending(m.Keys, less)[i]; k in m && InOrder(m, less)[i] == m[k]
  {
    hide StrictTotal, Ascends;
    assert Ascending(m.Keys, less)[i] in Ascending(m.Keys, less);
  }

  /** Iterates over a map in key order and copies what it maps to. */
  method ListInOrder<K(!new, ==), V>(m: map<K, V>, less: (K, K) -> bool) returns (s: seq<V>)
    requires StrictTotal(less)
    ensures s == InOrder(m, less)
  {
    hide StrictTotal, Ascends, InOrder, Ascending;
    var keys := Sorted(m.Keys, less);
    ghost var whole := InOrder(m, less);
    s := [];
    for i := 0 to |keys|
      invariant |keys| == |whole| && s == whole[..i]
    {
      InOrderAt(m, less, i);
      s := s + [m[keys[i]]];
    }
    assert whole[..|whole|] == whole;
  }

  // ----- The orders -----

  /** Byte strings compare like std::string: lexicographically by unsigned byte. */
  predicate TextLess(a: Text, b: Text) {
    if b == [] then false
    else if a == [] then true
    else if a[0] != b[0] then a[0] < b[0]
    else TextLess(a[1..], b[1..])
  }

  function KindRank(k: MemberKind): nat {
    match k
    case Node => 0
    case Accelerator => 1
    case CpuPackage => 2
    case MemoryDomain => 3
    case Nic => 4
    case Dpu => 5
    case Switch => 6
    case StorageEndpoint => 7
    case PowerDomain => 8
    case CoolingDomain => 9
  }

  function ClassRank(c: RelationshipClass): nat {
    match c
    case Contains => 0
    case AttachedTo => 1
    case ConnectedTo => 2
    case ReachableThrough => 3
    case SameNode => 4
    case SameNumaDomain => 5
    case SameSwitchDomain => 6
    case SamePowerDomain => 7
    case SameCoolingDomain => 8
    case SameFailureDomain => 9
    case StorageLocal => 10
    case NicLocal => 11
    case AcceleratorPeer => 12
  }

  predicate MemberLess(a: MemberKey, b: MemberKey) {
    if a.kind != b.kind then KindRank(a.kind) < KindRank(b.kind) else TextLess(a.id, b.id)
  }

  predicate RelationshipLess(a: RelationshipKey, b: RelationshipKey) {
    if a.cls != b.cls then ClassRank(a.cls) < ClassRank(b.cls)
    else if a.from != b.from then MemberLess(a.from, b.from)
    else MemberLess(a.to, b.to)
  }

  predicate CounterLess(a: nat, b: nat) { a < b }

  lemma {:induction false} TextLessCompares(a: Text, b: Text)
    ensures TextLess(a, b) ==> a != b && !TextLess(b, a)
    ensures a == b || TextLess(a, b) || TextLess(b, a)
  {
    if a != [] && b != [] && a[0] == b[0] {
      TextLessCompares(a[1..], b[1..]);
      assert a == [a[0]] + a[1..] && b == [b[0]] + b[1..];
    }
  }

  lemma {:induction false} TextLessTransitive(a: Text, b: Text, c: Text)
    requires TextLess(a, b) && TextLess(b, c)
    ensures TextLess(a, c)
  {
    if a != [] && a[0] == b[0] == c[0] {
      TextLessTransitive(a[1..], b[1..], c[1..]);
    }
  }

  /** The texts agree up to here, where the first ends or has the smaller byte. */
  predicate FallsBehindAt(a: Text, b: Text, i: nat) {
    i <= |a| && i < |b| && a[..i] == b[..i] && (i == |a| || a[i] < b[i])
  }

  lemma DifferFromTheStart(a: Text, b: Text, i: nat)
    requires a == [] || b == [] || a[0] != b[0]
    ensures FallsBehindAt(a, b, i) ==> i == 0
  {
    if 0 < i <= |a| && i <= |b| {
      assert a[..i][0] == a[0] && b[..i][0] == b[0];
    }
  }

  /** One text is below another when it is a proper prefix of it, or smaller where they first differ. */
  lemma {:induction false} TextLessMeans(a: Text, b: Text)
    ensures TextLess(a, b) <==> exists i: nat :: FallsBehindAt(a, b, i)
    decreases |a|
  {
    if a == [] || b == [] || a[0] != b[0] {
      if TextLess(a, b) {
        assert FallsBehindAt(a, b, 0);
      }
      if i: nat :| FallsBehindAt(a, b, i) {
        DifferFromTheStart(a, b, i);
      }
    } else {
      TextLessMeans(a[1..], b[1..]);
      if i: nat :| FallsBehindAt(a, b, i) {
        var j: nat := i - 1;
        assert a[1..][..j] == a[..i][1..] && b[1..][..j] == b[..i][1..];
        assert FallsBehindAt(a[1..], b[1..], j);
      }
      if j: nat :| FallsBehindAt(a[1..], b[1..], j) {
        var i: nat := j + 1;
        assert a[..i] == [a[0]] + a[1..][..j] && b[..i] == [b[0]] + b[1..][..j];
        assert FallsBehindAt(a, b, i);
      }
    }
  }

  lemma TextOrder()
    ensures StrictTotal(TextLess)
  {
    forall a, b {
      TextLessCompares(a, b);
    }
    forall a, b, c | TextLess(a, b) && TextLess(b, c)
      ensures TextLess(a, c)
    {
      TextLessTransitive(a, b, c);
    }
  }

  lemma MemberOrder()
    ensures StrictTotal(MemberLess)
  {
    TextOrder();
    forall a, b
      ensures MemberLess(a, b) ==> a != b && !MemberLess(b, a)
      ensures a == b || MemberLess(a, b) || MemberLess(b, a)
    {
      TextLessCompares(a.id, b.id);
    }
    forall a, b, c | MemberLess(a, b) && MemberLess(b, c)
      ensures MemberLess(a, c)
    {
      if a.kind == b.kind == c.kind {
        TextLessTransitive(a.id, b.id, c.id);
      }
    }
  }

  lemma RelationshipOrder()
    ensures StrictTotal(RelationshipLess)
  {
    MemberOrder();
    forall a, b
      ensures RelationshipLess(a, b) ==> a != b && !RelationshipLess(b, a)
      ensures a == b || RelationshipLess(a, b) || RelationshipLess(b, a)
    {
      assert MemberLess(a.from, b.from) || a.from == b.from || MemberLess(b.from, a.from);
      assert MemberLess(a.to, b.to) || a.to == b.to || MemberLess(b.to, a.to);
    }
    forall a, b, c | RelationshipLess(a, b) && RelationshipLess(b, c)
      ensures RelationshipLess(a, c)
    {
    }
  }

  lemma CounterOrder()
    ensures StrictTotal(CounterLess)
  {
  }
}
