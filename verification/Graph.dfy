/** Finite directed graphs as sets of edges: reachability, acyclicity, and what one new edge does to them. */
module Graph {

  type Edges<T(==)> = set<(T, T)>

  ghost predicate Path<T>(g: Edges<T>, p: seq<T>) {
    p != [] && forall i {:trigger p[i]} :: 0 <= i < |p| - 1 ==> (p[i], p[i + 1]) in g
  }

  /** Some path of any length, zero included, leads from `a` to `b`. */
  ghost predicate Reaches<T(!new)>(g: Edges<T>, a: T, b: T) {
    exists p: seq<T> :: Path(g, p) && p[0] == a && p[|p| - 1] == b
  }

  ghost predicate Cycle<T>(g: Edges<T>, p: seq<T>) {
    |p| >= 2 && Path(g, p) && p[0] == p[|p| - 1]
  }

  ghost predicate Acyclic<T(!new)>(g: Edges<T>) {
    forall p: seq<T> :: !Cycle(g, p)
  }

  ghost predicate Closed<T(!new)>(g: Edges<T>, s: set<T>) {
    forall a, b {:trigger (a, b) in g} :: (a, b) in g && a in s ==> b in s
  }

  ghost function Inverse<T>(g: Edges<T>): Edges<T> {
    set e | e in g :: (e.1, e.0)
  }

  ghost function Nodes<T>(g: Edges<T>): set<T> {
    (set e | e in g :: e.0) + (set e | e in g :: e.1)
  }

  // ----- Reachability -----

  lemma ReachesSelf<T(!new)>(g: Edges<T>, a: T)
    ensures Reaches(g, a, a)
  {
    assert Path(g, [a]);
  }

  lemma ReachesEdge<T(!new)>(g: Edges<T>, a: T, b: T, c: T)
    requires Reaches(g, a, b) && (b, c) in g
    ensures Reaches(g, a, c)
  {
    var p :| Path(g, p) && p[0] == a && p[|p| - 1] == b;
    var q := p + [c];
    assert Path(g, q) by {
      forall i | 0 <= i < |q| - 1
        ensures (q[i], q[i + 1]) in g
      {
        assert i < |p| - 1 ==> q[i] == p[i] && q[i + 1] == p[i + 1];
      }
    }
  }

  /** A set closed under the edges holds everything its members reach. */
  lemma {:induction false} ClosedHoldsPath<T(!new)>(g: Edges<T>, s: set<T>, p: seq<T>, n: nat)
    requires Closed(g, s) && Path(g, p) && p[0] in s && n < |p|
    ensures p[n] in s
  {
    if n > 0 {
      ClosedHoldsPath(g, s, p, n - 1);
      assert (p[n - 1], p[n]) in g;
    }
  }

  lemma ClosedHoldsReachable<T(!new)>(g: Edges<T>, s: set<T>, a: T, b: T)
    requires Closed(g, s) && a in s && Reaches(g, a, b)
    ensures b in s
  {
    var p :| Path(g, p) && p[0] == a && p[|p| - 1] == b;
    ClosedHoldsPath(g, s, p, |p| - 1);
  }

  lemma ReachesTransitive<T(!new)>(g: Edges<T>, a: T, b: T, c: T)
    requires Reaches(g, a, b) && Reaches(g, b, c)
    ensures Reaches(g, a, c)
  {
    var p :| Path(g, p) && p[0] == b && p[|p| - 1] == c;
    ReachesAlong(g, a, p, |p| - 1);
  }

  lemma {:induction false} ReachesAlong<T(!new)>(g: Edges<T>, a: T, p: seq<T>, n: nat)
    requires Path(g, p) && n < |p| && Reaches(g, a, p[0])
    ensures Reaches(g, a, p[n])
  {
    if n > 0 {
      ReachesAlong(g, a, p, n - 1);
      assert (p[n - 1], p[n]) in g;
      ReachesEdge(g, a, p[n - 1], p[n]);
    }
  }

  lemma {:induction false} InversePath<T(!new)>(g: Edges<T>, p: seq<T>, n: nat)
    requires Path(g, p) && n < |p|
    ensures Reaches(Inverse(g), p[n], p[0])
  {
    if n == 0 {
      ReachesSelf(Inverse(g), p[0]);
    } else {
      var h := Inverse(g);
      assert (p[n - 1], p[n]) in g;
      assert (p[n], p[n - 1]) in h;
      InversePath(g, p, n - 1);
      ReachesSelf(h, p[n]);
      ReachesEdge(h, p[n], p[n], p[n - 1]);
      ReachesTransitive(h, p[n], p[n - 1], p[0]);
    }
  }

  lemma InverseReaches<T(!new)>(g: Edges<T>, a: T, b: T)
    ensures Reaches(g, a, b) <==> Reaches(Inverse(g), b, a)
  {
    if Reaches(g, a, b) {
      var p :| Path(g, p) && p[0] == a && p[|p| - 1] == b;
      InversePath(g, p, |p| - 1);
    }
    if Reaches(Inverse(g), b, a) {
      var p :| Path(Inverse(g), p) && p[0] == b && p[|p| - 1] == a;
      InversePath(Inverse(g), p, |p| - 1);
      assert Inverse(Inverse(g)) == g by {
        forall e | e in g ensures e in Inverse(Inverse(g)) {
          assert (e.1, e.0) in Inverse(g);
        }
      }
    }
  }

  // ----- Replacing the edges that leave one node -----

  /** `h` is `g` with the edges that leave `c` replaced by edges to `targets`. */
  ghost predicate Rewired<T(!new)>(g: Edges<T>, c: T, targets: set<T>, h: Edges<T>) {
    forall a, b {:trigger (a, b) in h} {:trigger (a, b) in g} ::
      (a, b) in h <==> if a == c then b in targets else (a, b) in g
  }

  lemma FirstIndex<T>(p: seq<T>, c: T, from: nat) returns (j: nat)
    requires exists k :: from <= k < |p| && p[k] == c
    ensures from <= j < |p| && p[j] == c && forall k :: from <= k < j ==> p[k] != c
  {
    j := from;
    while p[j] != c
      invariant from <= j < |p|
      invariant forall k :: from <= k < j ==> p[k] != c
      invariant exists k :: j <= k < |p| && p[k] == c
      decreases |p| - j
    {
      j := j + 1;
    }
  }

  /** A path whose sources avoid `c` exists in both graphs. */
  lemma PathCarries<T(!new)>(g: Edges<T>, c: T, targets: set<T>, h: Edges<T>, p: seq<T>)
    requires Rewired(g, c, targets, h)
    requires forall i :: 0 <= i < |p| - 1 ==> p[i] != c
    ensures Path(g, p) <==> Path(h, p)
  {
  }

  lemma ReturnReaches<T(!new)>(g: Edges<T>, c: T, targets: set<T>, h: Edges<T>, r: seq<T>)
    requires Rewired(g, c, targets, h) && Cycle(h, r) && r[0] == c
    ensures exists t :: t in targets && Reaches(g, t, c)
  {
    var j := FirstIndex(r, c, 1);
    var s := r[1..j + 1];
    assert (r[0], r[1]) in h;
    assert Path(h, s) by {
      forall i | 0 <= i < |s| - 1 ensures (s[i], s[i + 1]) in h {
        assert s[i] == r[i + 1] && s[i + 1] == r[i + 2];
      }
    }
    PathCarries(g, c, targets, h, s);
    assert s[0] in targets;
  }

  lemma Rotate<T(!new)>(h: Edges<T>, q: seq<T>, i: nat) returns (r: seq<T>)
    requires Cycle(h, q) && i < |q|
    ensures Cycle(h, r) && r[0] == q[i]
  {
    if i == |q| - 1 {
      r := q;
    } else {
      r := q[i..] + q[1..i + 1];
      forall k | 0 <= k < |r| - 1
        ensures (r[k], r[k + 1]) in h
      {
        if k < |q| - 1 - i {
          assert r[k] == q[i + k] && r[k + 1] == q[i + k + 1];
        } else {
          var m := k - (|q| - 1 - i);
          assert r[k] == q[m] && r[k + 1] == q[m + 1];
        }
      }
    }
  }

  /** In an acyclic graph, new edges out of `c` close a cycle exactly when one of their targets already reaches `c`. */
  lemma RewiredCyclicIff<T(!new)>(g: Edges<T>, c: T, targets: set<T>, h: Edges<T>)
    requires Acyclic(g) && Rewired(g, c, targets, h)
    ensures Acyclic(h) <==> forall t :: t in targets ==> !Reaches(g, t, c)
  {
    if q :| Cycle(h, q) {
      if i :| 0 <= i < |q| && q[i] == c {
        var r := Rotate(h, q, i);
        ReturnReaches(g, c, targets, h, r);
      } else {
        assert !Cycle(g, q);
        PathCarries(g, c, targets, h, q);
      }
    }
    if t :| t in targets && Reaches(g, t, c) {
      var p :| Path(g, p) && p[0] == t && p[|p| - 1] == c;
      var j := FirstIndex(p, c, 0);
      var s := p[..j + 1];
      PathCarries(g, c, targets, h, s);
      var q := [c] + s;
      assert Cycle(h, q) by {
        forall i | 0 <= i < |q| - 1 ensures (q[i], q[i + 1]) in h {
          if i > 0 {
            assert q[i] == s[i - 1] && q[i + 1] == s[i];
          }
        }
      }
    }
  }

  /** In an acyclic graph, nothing reaches itself through an edge. */
  lemma NoReturn<T(!new)>(g: Edges<T>, a: T, b: T)
    requires Acyclic(g) && (a, b) in g
    ensures !Reaches(g, b, a)
  {
    if Reaches(g, b, a) {
      var p :| Path(g, p) && p[0] == b && p[|p| - 1] == a;
      var q := [a] + p;
      assert Cycle(g, q) by {
        forall i | 0 <= i < |q| - 1 ensures (q[i], q[i + 1]) in g {
          if i > 0 {
            assert q[i] == p[i - 1] && q[i + 1] == p[i];
          }
        }
      }
    }
  }

  lemma SubgraphAcyclic<T(!new)>(g: Edges<T>, h: Edges<T>)
    requires Acyclic(g) && h <= g
    ensures Acyclic(h)
  {
    forall p: seq<T> ensures !Cycle(h, p) {
      if Cycle(h, p) {
        assert Cycle(g, p);
      }
    }
  }

  lemma ReturnIsCycle<T(!new)>(g: Edges<T>, a: T, b: T)
    requires (a, b) in g && Reaches(g, b, a)
    ensures !Acyclic(g)
  {
    if Acyclic(g) {
      NoReturn(g, a, b);
    }
  }

  /** A graph whose edges all descend in some rank has no cycle. */
  lemma RankedIsAcyclic<T(!new)>(g: Edges<T>, rank: T -> int)
    requires forall a, b {:trigger (a, b) in g} :: (a, b) in g ==> rank(b) < rank(a)
    ensures Acyclic(g)
  {
    forall p: seq<T>
      ensures !Cycle(g, p)
    {
      if Path(g, p) && |p| >= 2 {
        RankDescends(g, rank, p, |p| - 1);
      }
    }
  }

  lemma {:induction false} RankDescends<T(!new)>(g: Edges<T>, rank: T -> int, p: seq<T>, n: nat)
    requires forall a, b {:trigger (a, b) in g} :: (a, b) in g ==> rank(b) < rank(a)
    requires Path(g, p) && 0 < n < |p|
    ensures rank(p[n]) < rank(p[0])
  {
    assert (p[n - 1], p[n]) in g;
    if n > 1 {
      RankDescends(g, rank, p, n - 1);
    }
  }

  /** Where every node of a finite set has an edge into the set, there is a cycle. */
  lemma NoSinkIsCyclic<T(!new)>(g: Edges<T>, nodes: set<T>)
    requires nodes != {}
    requires forall v :: v in nodes ==> exists w {:trigger (v, w) in g} :: w in nodes && (v, w) in g
    ensures !Acyclic(g)
  {
    hide Reaches, Acyclic;
    var current :| current in nodes;
    var seen := {};
    while true
      invariant seen <= nodes && current in nodes && current !in seen
      invariant forall v :: v in seen ==> Reaches(g, v, current)
      decreases nodes - seen
    {
      var next :| next in nodes && (current, next) in g;
      ReachesSelf(g, current);
      if next == current || next in seen {
        ReturnIsCycle(g, current, next);
        return;
      }
      forall v | v in seen + {current}
        ensures Reaches(g, v, next)
      {
        ReachesEdge(g, v, current, next);
      }
      seen, current := seen + {current}, next;
    }
  }

  // ----- Searches -----

  /** A single chain has been climbed from `start` through `visited` up to `current`, without meeting `goal`. */
  ghost predicate Climbed<T(!new)>(g: Edges<T>, start: T, goal: T, visited: set<T>, current: T) {
    && Reaches(g, start, current)
    && goal !in visited
    && (start in visited || start == current)
    && (forall v, w {:trigger (v, w) in g} ::
          v in visited && (v, w) in g ==> (w in visited || w == current) && Reaches(g, w, current))
  }

  lemma ClimbStarts<T(!new)>(g: Edges<T>, start: T, goal: T)
    ensures Climbed(g, start, goal, {}, start)
  {
    ReachesSelf(g, start);
  }

  lemma ClimbStep<T(!new)>(g: Edges<T>, start: T, goal: T, visited: set<T>, current: T, next: T)
    requires Climbed(g, start, goal, visited, current) && current != goal
    requires forall w {:trigger (current, w) in g} :: (current, w) in g <==> w == next
    ensures Climbed(g, start, goal, visited + {current}, next)
  {
    assert (current, next) in g;
    ReachesEdge(g, start, current, next);
    ReachesSelf(g, next);
    forall v, w | v in visited + {current} && (v, w) in g
      ensures (w in visited + {current} || w == next) && Reaches(g, w, next)
    {
      if v in visited {
        ReachesEdge(g, w, current, next);
      }
    }
  }

  /** A chain that ended without meeting the goal does not lead to it. */
  lemma ClimbEnds<T(!new)>(g: Edges<T>, start: T, goal: T, visited: set<T>, current: T)
    requires Climbed(g, start, goal, visited, current) && current != goal
    requires forall w {:trigger (current, w) in g} :: (current, w) !in g
    ensures !Reaches(g, start, goal)
  {
    if Reaches(g, start, goal) {
      ClosedHoldsReachable(g, visited + {current}, start, goal);
    }
  }

  ghost predicate FromAny<T(!new)>(g: Edges<T>, starts: set<T>, v: T) {
    exists s :: s in starts && Reaches(g, s, v)
  }

  /** Everything visited was reached, and what follows it is visited or waits among `pending`. */
  ghost predicate Explored<T(!new)>(g: Edges<T>, starts: set<T>, visited: set<T>, pending: set<T>) {
    && (forall s :: s in starts ==> s in visited || s in pending)
    && (forall v :: v in visited ==> FromAny(g, starts, v))
    && (forall v :: v in pending ==> FromAny(g, starts, v))
    && (forall v, w {:trigger (v, w) in g} :: (v, w) in g && v in visited ==> w in visited || w in pending)
  }

  lemma ExploreStarts<T(!new)>(g: Edges<T>, starts: set<T>)
    ensures Explored(g, starts, {}, starts)
  {
    forall v | v in starts
      ensures FromAny(g, starts, v)
    {
      ReachesSelf(g, v);
    }
  }

  lemma FromAnyEdge<T(!new)>(g: Edges<T>, starts: set<T>, v: T, w: T)
    requires FromAny(g, starts, v) && (v, w) in g
    ensures FromAny(g, starts, w)
  {
    var s :| s in starts && Reaches(g, s, v);
    ReachesEdge(g, s, v, w);
  }

  /** Visiting a pending node replaces it by the nodes that follow it. */
  lemma ExploreStep<T(!new)>(
    g: Edges<T>, starts: set<T>, visited: set<T>, pending: set<T>, v: T, next: set<T>, rest: set<T>)
    requires Explored(g, starts, visited, pending) && v in pending
    requires forall w {:trigger (v, w) in g} :: (v, w) in g <==> w in next
    requires forall w :: w in rest ==> w in pending || w in next
    requires forall w :: w in pending || w in next ==> w in rest || w in visited || w == v
    ensures Explored(g, starts, visited + {v}, rest)
  {
    hide FromAny;
    forall w | w in next
      ensures FromAny(g, starts, w)
    {
      assert (v, w) in g;
      FromAnyEdge(g, starts, v, w);
    }
  }

  /** When nothing is pending any more, exactly what the starts reach has been visited. */
  lemma ExploreEnds<T(!new)>(g: Edges<T>, starts: set<T>, visited: set<T>)
    requires Explored(g, starts, visited, {})
    ensures forall v :: v in visited <==> FromAny(g, starts, v)
  {
    hide Reaches;
    forall v | FromAny(g, starts, v)
      ensures v in visited
    {
      var s :| s in starts && Reaches(g, s, v);
      ClosedHoldsReachable(g, visited, s, v);
    }
  }

  lemma FromSingle<T(!new)>(g: Edges<T>, a: T, v: T)
    ensures FromAny(g, {a}, v) <==> Reaches(g, a, v)
  {
    hide Reaches;
    assert a in {a};
  }
}
