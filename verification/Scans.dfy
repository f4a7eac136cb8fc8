/** The two cycle scans of the invariant check, exact on arbitrary records. */
module Scans {
  import opened Wrappers
  import opened Evidence
  import opened Model
  import opened Graph
  import opened RackReadiness
  import opened State

  // ----- The parent chains -----

  /** The chain from `key` was climbed through `seen`, last over the edge from `last` to `current`. */
  ghost predicate Chain<T(!new)>(g: Edges<T>, key: T, seen: set<T>, last: T, current: T) {
    && key in seen && last in seen && (last, current) in g
    && (forall v :: v in seen ==> Reaches(g, v, last))
    && forall v, w {:trigger (v, w) in g} :: v in seen && (v, w) in g ==> (w in seen && w != key) || w == current
  }

  lemma ChainStarts<T(!new)>(g: Edges<T>, key: T, next: T)
    requires forall w {:trigger (key, w) in g} :: (key, w) in g <==> w == next
    ensures Chain(g, key, {key}, key, next)
  {
    ReachesSelf(g, key);
    assert (key, next) in g;
  }

  lemma ChainStep<T(!new)>(g: Edges<T>, key: T, seen: set<T>, last: T, current: T, next: T)
    requires Chain(g, key, seen, last, current) && current !in seen
    requires forall w {:trigger (current, w) in g} :: (current, w) in g <==> w == next
    ensures Chain(g, key, seen + {current}, current, next)
  {
    assert (current, next) in g;
    ReachesSelf(g, current);
    forall v | v in seen
      ensures Reaches(g, v, current)
    {
      ReachesEdge(g, v, last, current);
    }
    hide Reaches;
  }

  lemma ChainReturns<T(!new)>(g: Edges<T>, key: T, seen: set<T>, last: T, current: T)
    requires Chain(g, key, seen, last, current) && current in seen
    ensures !Acyclic(g)
  {
    ReturnIsCycle(g, last, current);
  }

  /** A chain that ends never came back to where it started. */
  lemma ChainEnds<T(!new)>(g: Edges<T>, key: T, seen: set<T>, last: T, current: T)
    requires Chain(g, key, seen, last, current) && current !in seen
    requires forall w {:trigger (current, w) in g} :: (current, w) !in g
    ensures forall w {:trigger (key, w) in g} :: (key, w) in g ==> !Reaches(g, w, key)
  {
    hide Reaches;
    var beyond := seen - {key} + {current};
    forall w | (key, w) in g
      ensures !Reaches(g, w, key)
    {
      if Reaches(g, w, key) {
        ClosedHoldsReachable(g, beyond, w, key);
      }
    }
  }

  method ClimbsIntoItself(members: map<MemberKey, MemberRecord>, key: MemberKey) returns (cyclic: bool)
    requires key in members && members[key].parent.Some?
    ensures cyclic ==> !Acyclic(ParentGraph(members))
    ensures !cyclic ==> var g := ParentGraph(members);
                        forall w {:trigger (key, w) in g} :: (key, w) in g ==> !Reaches(g, w, key)
  {
    hide Reaches, Acyclic, Chain, ParentGraph;
    ghost var g := ParentGraph(members);
    var seen, current := {key}, members[key].parent.value;
    ghost var last := key;
    ParentEdgesOf(members, key);
    ChainStarts(g, key, current);
    while true
      invariant Chain(g, key, seen, last, current) && seen <= members.Keys
      decreases members.Keys - seen
    {
      if current in seen {
        ChainReturns(g, key, seen, last, current);
        return true;
      }
      ParentEdgesOf(members, current);
      if current !in members || members[current].parent.None? {
        ChainEnds(g, key, seen, last, current);
        return false;
      }
      ChainStep(g, key, seen, last, current, members[current].parent.value);
      seen, last, current := seen + {current}, current, members[current].parent.value;
    }
  }

  lemma CycleReturns<T(!new)>(g: Edges<T>, p: seq<T>)
    requires Cycle(g, p)
    ensures (p[0], p[1]) in g && Reaches(g, p[1], p[0])
  {
    var q := p[1..];
    assert Path(g, q) by {
      forall i | 0 <= i < |q| - 1
        ensures (q[i], q[i + 1]) in g
      {
        assert q[i] == p[i + 1] && q[i + 1] == p[i + 2];
      }
    }
  }

  lemma NoReturnIsAcyclic<T(!new)>(g: Edges<T>)
    requires forall v, w {:trigger (v, w) in g} :: (v, w) in g ==> !Reaches(g, w, v)
    ensures Acyclic(g)
  {
    forall p: seq<T>
      ensures !Cycle(g, p)
    {
      if Cycle(g, p) {
        CycleReturns(g, p);
      }
    }
  }

  /** The scan finds a cycle exactly when there is one, whatever the parents name. */
  method ParentChainsAcyclic(members: map<MemberKey, MemberRecord>) returns (acyclic: bool)
    ensures acyclic <==> Acyclic(ParentGraph(members))
  {
    hide Reaches, Acyclic, ParentGraph;
    ghost var g := ParentGraph(members);
    acyclic := true;
    var rest := members.Keys;
    while rest != {}
      invariant rest <= members.Keys
      invariant !acyclic ==> !Acyclic(g)
      invariant acyclic ==> forall k, w {:trigger (k, w) in g} :: k in members && k !in rest && (k, w) in g ==>
                              !Reaches(g, w, k)
      decreases rest
    {
      var key :| key in rest;
      ParentEdgesOf(members, key);
      if members[key].parent.Some? {
        var cyclic := ClimbsIntoItself(members, key);
        if cyclic {
          acyclic := false;
        }
      }
      rest := rest - {key};
    }
    if acyclic {
      forall k, w | (k, w) in g
        ensures !Reaches(g, w, k)
      {
        ParentEdgesOf(members, k);
      }
      NoReturnIsAcyclic(g);
    }
  }

  // ----- The failure-domain scan -----

  /** No two ways lead from one node to another: the graph is acyclic, and has no diamond either. */
  ghost predicate SinglePaths<T(!new)>(g: Edges<T>) {
    forall p: seq<T>, q: seq<T> {:trigger Path(g, p), Path(g, q)} ::
      Path(g, p) && Path(g, q) && p[0] == q[0] && p[|p| - 1] == q[|q| - 1] ==> p == q
  }

  ghost predicate SinglePathsFrom<T(!new)>(g: Edges<T>, start: T) {
    forall p: seq<T>, q: seq<T> {:trigger Path(g, p), Path(g, q)} ::
      Path(g, p) && Path(g, q) && p[0] == start == q[0] && p[|p| - 1] == q[|q| - 1] ==> p == q
  }

  ghost predicate ParentsOnce(domains: map<Text, FailureDomainRecord>) {
    forall d :: d in domains ==> NoRepeats(domains[d].parents)
  }

  lemma SinglePathsAreAcyclic<T(!new)>(g: Edges<T>)
    requires SinglePaths(g)
    ensures Acyclic(g)
  {
    forall p: seq<T>
      ensures !Cycle(g, p)
    {
      if Cycle(g, p) {
        assert Path(g, [p[0]]);
      }
    }
  }

  ghost predicate IsPathTo<T(!new)>(g: Edges<T>, root: T, p: seq<T>, v: T) {
    Path(g, p) && p[0] == root && p[|p| - 1] == v
  }

  ghost predicate ViaTree<T(!new)>(paths: map<T, seq<T>>, u: T, v: T) {
    u in paths && v in paths && paths[v] == paths[u] + [v]
  }

  /** A tree of paths from the root over the seen nodes; `via` holds the edges that are still to be followed. */
  ghost predicate Tree<T(!new)>(g: Edges<T>, root: T, paths: map<T, seq<T>>, via: seq<(T, T)>) {
    && root in paths && paths[root] == [root]
    && (forall v :: v in paths ==> IsPathTo(g, root, paths[v], v))
    && (forall v :: v in paths && v != root ==>
          |paths[v]| >= 2 && ViaTree(paths, paths[v][|paths[v]| - 2], v))
    && (forall i :: 0 <= i < |via| ==> via[i] in g && via[i].0 in paths)
    && (forall u, v {:trigger (u, v) in g} :: u in paths && (u, v) in g ==> (u, v) in via || ViaTree(paths, u, v))
  }

  ghost predicate Distinct<T(!new)>(paths: map<T, seq<T>>, via: seq<(T, T)>) {
    NoRepeats(via) && forall i :: 0 <= i < |via| ==> !ViaTree(paths, via[i].0, via[i].1)
  }

  /** Some edge that is still to be followed leads to a node met before, or two lead to the same one. */
  ghost predicate Doomed<T(!new)>(paths: map<T, seq<T>>, via: seq<(T, T)>) {
    || (exists i :: 0 <= i < |via| && via[i].1 in paths)
    || exists i, j :: 0 <= i < j < |via| && via[i].1 == via[j].1
  }

  lemma Extends<T(!new)>(g: Edges<T>, root: T, p: seq<T>, u: T, v: T)
    requires IsPathTo(g, root, p, u) && (u, v) in g
    ensures IsPathTo(g, root, p + [v], v)
  {
    var q := p + [v];
    forall i | 0 <= i < |q| - 1
      ensures (q[i], q[i + 1]) in g
    {
      assert i < |p| - 1 ==> q[i] == p[i] && q[i + 1] == p[i + 1];
    }
  }

  ghost function Fan<T>(u: T, targets: seq<T>): (r: seq<(T, T)>)
    ensures |r| == |targets| && forall i :: 0 <= i < |r| ==> r[i] == (u, targets[i])
  {
    seq(|targets|, i requires 0 <= i < |targets| => (u, targets[i]))
  }

  lemma TreeStarts<T(!new)>(g: Edges<T>, root: T, targets: seq<T>)
    requires forall w {:trigger (root, w) in g} :: (root, w) in g <==> w in targets
    ensures Tree(g, root, map[root := [root]], Fan(root, targets))
    ensures NoRepeats(targets) ==> Distinct(map[root := [root]], Fan(root, targets))
    ensures !NoRepeats(targets) ==> Doomed(map[root := [root]], Fan(root, targets))
  {
    var paths, via := map[root := [root]], Fan(root, targets);
    assert Path(g, [root]);
    forall i | 0 <= i < |via|
      ensures via[i] in g && !ViaTree(paths, via[i].0, via[i].1)
    {
      assert targets[i] in targets;
    }
    forall u, v | u in paths && (u, v) in g
      ensures (u, v) in via
    {
      var i :| 0 <= i < |targets| && targets[i] == v;
      assert via[i] == (u, v);
    }
    if !NoRepeats(targets) {
      var i, j :| 0 <= i < j < |targets| && targets[i] == targets[j];
      assert via[i].1 == via[j].1;
    }
  }

  /** Following the first pending edge to a new node. */
  lemma TreeStep<T(!new)>(g: Edges<T>, root: T, paths: map<T, seq<T>>, via: seq<(T, T)>, targets: seq<T>)
    returns (grown: map<T, seq<T>>)
    requires Tree(g, root, paths, via) && via != [] && via[0].1 !in paths
    requires forall w {:trigger (via[0].1, w) in g} :: (via[0].1, w) in g <==> w in targets
    ensures grown.Keys == paths.Keys + {via[0].1}
    ensures Tree(g, root, grown, via[1..] + Fan(via[0].1, targets))
    ensures NoRepeats(targets) && Distinct(paths, via) ==> Distinct(grown, via[1..] + Fan(via[0].1, targets))
    ensures !NoRepeats(targets) || Doomed(paths, via) ==> Doomed(grown, via[1..] + Fan(via[0].1, targets))
  {
    hide Distinct, Doomed, NoRepeats;
    var u, v := via[0].0, via[0].1;
    grown := paths[v := paths[u] + [v]];
    GrownTree(g, root, paths, via, targets, grown);
    if NoRepeats(targets) && Distinct(paths, via) {
      GrownDistinct(g, root, paths, via, targets, grown);
    }
    if !NoRepeats(targets) || Doomed(paths, via) {
      GrownDoomed(paths, via, targets, grown);
    }
  }

  lemma GrownDoomed<T(!new)>(
    paths: map<T, seq<T>>, via: seq<(T, T)>, targets: seq<T>, grown: map<T, seq<T>>)
    requires via != [] && via[0].1 !in paths && grown.Keys == paths.Keys + {via[0].1}
    requires !NoRepeats(targets) || Doomed(paths, via)
    ensures Doomed(grown, via[1..] + Fan(via[0].1, targets))
  {
    var v := via[0].1;
    var next := via[1..] + Fan(v, targets);
    if !NoRepeats(targets) {
      var i, j :| 0 <= i < j < |targets| && targets[i] == targets[j];
      assert next[|via| - 1 + i] == (v, targets[i]) && next[|via| - 1 + j] == (v, targets[j]);
    } else if i :| 0 <= i < |via| && via[i].1 in paths {
      assert next[i - 1] == via[i];
    } else {
      var i, j :| 0 <= i < j < |via| && via[i].1 == via[j].1;
      assert next[j - 1] == via[j];
      if i > 0 {
        assert next[i - 1] == via[i];
      }
    }
  }

  lemma GrownTree<T(!new)>(
    g: Edges<T>, root: T, paths: map<T, seq<T>>, via: seq<(T, T)>, targets: seq<T>, grown: map<T, seq<T>>)
    requires Tree(g, root, paths, via) && via != [] && via[0].1 !in paths
    requires forall w {:trigger (via[0].1, w) in g} :: (via[0].1, w) in g <==> w in targets
    requires grown == paths[via[0].1 := paths[via[0].0] + [via[0].1]]
    ensures Tree(g, root, grown, via[1..] + Fan(via[0].1, targets))
  {
    GrownPaths(g, root, paths, via, grown);
    GrownEdges(g, root, paths, via, targets, grown);
    hide IsPathTo, ViaTree;
  }

  lemma GrownPaths<T(!new)>(g: Edges<T>, root: T, paths: map<T, seq<T>>, via: seq<(T, T)>, grown: map<T, seq<T>>)
    requires Tree(g, root, paths, via) && via != [] && via[0].1 !in paths
    requires grown == paths[via[0].1 := paths[via[0].0] + [via[0].1]]
    ensures forall v :: v in grown ==> IsPathTo(g, root, grown[v], v)
    ensures forall v :: v in grown && v != root ==> |grown[v]| >= 2 && ViaTree(grown, grown[v][|grown[v]| - 2], v)
  {
    var u, v := via[0].0, via[0].1;
    assert via[0] == (u, v);
    Extends(g, root, paths[u], u, v);
    PathEnds(g, root, paths[u], u);
    hide IsPathTo;
    forall x | x in grown && x != root
      ensures |grown[x]| >= 2 && ViaTree(grown, grown[x][|grown[x]| - 2], x)
    {
      if x != v {
        assert ViaTree(paths, paths[x][|paths[x]| - 2], x);
      } else {
        assert grown[x][|grown[x]| - 2] == u;
      }
    }
  }

  lemma GrownEdges<T(!new)>(
    g: Edges<T>, root: T, paths: map<T, seq<T>>, via: seq<(T, T)>, targets: seq<T>, grown: map<T, seq<T>>)
    requires Tree(g, root, paths, via) && via != [] && via[0].1 !in paths
    requires forall w {:trigger (via[0].1, w) in g} :: (via[0].1, w) in g <==> w in targets
    requires grown == paths[via[0].1 := paths[via[0].0] + [via[0].1]]
    ensures var next := via[1..] + Fan(via[0].1, targets);
            && (forall i :: 0 <= i < |next| ==> next[i] in g && next[i].0 in grown)
            && forall x, y {:trigger (x, y) in g} :: x in grown && (x, y) in g ==>
                 (x, y) in next || ViaTree(grown, x, y)
  {
    hide IsPathTo;
    var u, v := via[0].0, via[0].1;
    var next := via[1..] + Fan(v, targets);
    assert ViaTree(grown, u, v);
    forall i | 0 <= i < |next|
      ensures next[i] in g && next[i].0 in grown
    {
      if i < |via| - 1 {
        assert next[i] == via[i + 1];
      } else {
        assert next[i] == (v, targets[i - (|via| - 1)]) && targets[i - (|via| - 1)] in targets;
      }
    }
    forall x, y | x in grown && (x, y) in g
      ensures (x, y) in next || ViaTree(grown, x, y)
    {
      if x == v {
        var i :| 0 <= i < |targets| && targets[i] == y;
        assert next[|via| - 1 + i] == (x, y);
      } else if (x, y) in via {
        var i :| 0 <= i < |via| && via[i] == (x, y);
        if i > 0 {
          assert next[i - 1] == (x, y);
        }
      } else {
        assert ViaTree(paths, x, y);
      }
    }
  }

  lemma PathEnds<T(!new)>(g: Edges<T>, root: T, p: seq<T>, v: T)
    requires IsPathTo(g, root, p, v)
    ensures |p| >= 1 && p[|p| - 1] == v
  {
  }

  lemma GrownDistinct<T(!new)>(
    g: Edges<T>, root: T, paths: map<T, seq<T>>, via: seq<(T, T)>, targets: seq<T>, grown: map<T, seq<T>>)
    requires Tree(g, root, paths, via) && via != [] && via[0].1 !in paths
    requires grown == paths[via[0].1 := paths[via[0].0] + [via[0].1]]
    requires NoRepeats(targets) && Distinct(paths, via)
    ensures Distinct(grown, via[1..] + Fan(via[0].1, targets))
  {
    var next := via[1..] + Fan(via[0].1, targets);
    var n := |via| - 1;
    assert forall i :: 0 <= i < |via| ==> via[i].0 in paths;
    NextEdges(paths, via, targets);
    hide Tree;
    forall i | 0 <= i < |next|
      ensures !ViaTree(grown, next[i].0, next[i].1)
    {
      if i < n {
        assert next[i] == via[i + 1] && via[i + 1] != via[0];
        OldEdge(g, root, paths, via, grown, next[i].0, next[i].1);
      } else {
        assert next[i] == (via[0].1, targets[i - n]);
        LeafHasNoChild(g, root, paths, via, grown, next[i].1);
      }
    }
  }

  lemma NextEdges<T(!new)>(paths: map<T, seq<T>>, via: seq<(T, T)>, targets: seq<T>)
    requires via != [] && via[0].1 !in paths && forall i :: 0 <= i < |via| ==> via[i].0 in paths
    requires NoRepeats(targets) && NoRepeats(via)
    ensures NoRepeats(via[1..] + Fan(via[0].1, targets))
  {
    var next := via[1..] + Fan(via[0].1, targets);
    var n := |via| - 1;
    forall i, j | 0 <= i < j < |next|
      ensures next[i] != next[j]
    {
      assert i < n ==> next[i] == via[i + 1];
      assert i >= n ==> next[i] == (via[0].1, targets[i - n]);
      assert j < n ==> next[j] == via[j + 1];
      assert j >= n ==> next[j] == (via[0].1, targets[j - n]);
    }
  }

  lemma OldEdge<T(!new)>(
    g: Edges<T>, root: T, paths: map<T, seq<T>>, via: seq<(T, T)>, grown: map<T, seq<T>>, x: T, y: T)
    requires Tree(g, root, paths, via) && via != [] && via[0].1 !in paths && x in paths
    requires grown == paths[via[0].1 := paths[via[0].0] + [via[0].1]]
    ensures ViaTree(grown, x, y) ==> ViaTree(paths, x, y) || (x, y) == via[0]
  {
    var u, v := via[0].0, via[0].1;
    if ViaTree(grown, x, y) && y == v {
      assert paths[x] + [v] == paths[u] + [v];
      assert paths[x] == (paths[x] + [v])[..|paths[x]|] == (paths[u] + [v])[..|paths[u]|] == paths[u];
      PathEnds(g, root, paths[x], x);
      PathEnds(g, root, paths[u], u);
    }
  }

  lemma LeafHasNoChild<T(!new)>(
    g: Edges<T>, root: T, paths: map<T, seq<T>>, via: seq<(T, T)>, grown: map<T, seq<T>>, y: T)
    requires Tree(g, root, paths, via) && via != [] && via[0].1 !in paths
    requires grown == paths[via[0].1 := paths[via[0].0] + [via[0].1]]
    ensures !ViaTree(grown, via[0].1, y)
  {
    var v := via[0].1;
    if y in paths && y != root {
      var w := paths[y][|paths[y]| - 2];
      assert ViaTree(paths, w, y);
      PathEnds(g, root, paths[w], w);
      assert w != v;
      assert (grown[v] + [y])[|grown[v]| - 1] == v;
      assert paths[y][|paths[y]| - 2] == w;
    }
  }

  /** Every path from the root runs along the finished tree. */
  lemma {:induction false} TreeHasAllPaths<T(!new)>(g: Edges<T>, root: T, paths: map<T, seq<T>>, p: seq<T>)
    requires Tree(g, root, paths, []) && Path(g, p) && p[0] == root
    ensures p[|p| - 1] in paths && p == paths[p[|p| - 1]]
    decreases |p|
  {
    if |p| > 1 {
      var q := p[..|p| - 1];
      TreeHasAllPaths(g, root, paths, q);
      var u, v := q[|q| - 1], p[|p| - 1];
      assert u == p[|p| - 2] && (p[|p| - 2], p[|p| - 1]) in g;
      assert ViaTree(paths, u, v);
      assert p == q + [v];
    }
  }

  lemma FinishedTree<T(!new)>(g: Edges<T>, root: T, paths: map<T, seq<T>>)
    requires Tree(g, root, paths, [])
    ensures SinglePathsFrom(g, root)
  {
    forall p: seq<T>, q: seq<T> | Path(g, p) && Path(g, q) && p[0] == root == q[0] && p[|p| - 1] == q[|q| - 1]
      ensures p == q
    {
      TreeHasAllPaths(g, root, paths, p);
      TreeHasAllPaths(g, root, paths, q);
    }
  }

  /** Meeting a node again over a fresh edge shows a second path to it. */
  lemma MetAgain<T(!new)>(g: Edges<T>, root: T, paths: map<T, seq<T>>, via: seq<(T, T)>)
    requires Tree(g, root, paths, via) && Distinct(paths, via) && via != [] && via[0].1 in paths
    ensures !SinglePaths(g)
  {
    var u, v := via[0].0, via[0].1;
    assert via[0] == (u, v);
    Extends(g, root, paths[u], u, v);
    assert !ViaTree(paths, u, v);
    var p, q := paths[u] + [v], paths[v];
    assert Path(g, p) && Path(g, q) && p[0] == q[0] && p[|p| - 1] == q[|q| - 1] && p != q;
  }

  method MeetsTwice(domains: map<Text, FailureDomainRecord>, id: Text) returns (twice: bool)
    requires id in domains
    ensures !twice ==> NoRepeats(domains[id].parents) && SinglePathsFrom(DomainGraph(domains), id)
    ensures twice && ParentsOnce(domains) ==> !SinglePaths(DomainGraph(domains))
  {
    hide Tree, Distinct, Doomed, DomainGraph, SinglePaths, SinglePathsFrom, Nodes, NoRepeats;
    ghost var g := DomainGraph(domains);
    var seen, pending := {id}, domains[id].parents;
    ghost var paths, via := map[id := [id]], Fan(id, pending);
    ParentEdgesAre(domains, id);
    TreeStarts(g, id, pending);
    while pending != []
      invariant Tree(g, id, paths, via) && paths.Keys == seen
      invariant |via| == |pending| && forall i :: 0 <= i < |pending| ==> pending[i] == via[i].1
      invariant ParentsOnce(domains) ==> Distinct(paths, via)
      invariant !NoRepeats(domains[id].parents) ==> Doomed(paths, via)
      decreases Nodes(g) + {id} - seen
    {
      var current := pending[0];
      if current in seen {
        if ParentsOnce(domains) {
          MetAgain(g, id, paths, via);
        }
        return true;
      }
      TreeEdge(g, id, paths, via);
      var parents := if current in domains then domains[current].parents else [];
      ParentEdgesAre(domains, current);
      NoneRepeat<Text>();
      paths := TreeStep(g, id, paths, via, parents);
      seen := seen + {current};
      pending := pending[1..] + parents;
      via := via[1..] + Fan(current, parents);
    }
    assert via == [];
    NotDoomed(paths);
    FinishedTree(g, id, paths);
    twice := false;
  }

  lemma NoneRepeat<T>()
    ensures NoRepeats<T>([])
  {
  }

  lemma NotDoomed<T(!new)>(paths: map<T, seq<T>>)
    ensures !Doomed(paths, [])
  {
  }

  lemma TreeEdge<T(!new)>(g: Edges<T>, root: T, paths: map<T, seq<T>>, via: seq<(T, T)>)
    requires Tree(g, root, paths, via) && via != []
    ensures via[0].1 in Nodes(g)
  {
    assert via[0] in g;
    NodesOfEdges(g, via[0].0);
    assert (via[0].0, via[0].1) in g;
  }

  lemma ParentEdgesAre(domains: map<Text, FailureDomainRecord>, d: Text)
    ensures forall w {:trigger (d, w) in DomainGraph(domains)} ::
              (d, w) in DomainGraph(domains) <==> w in (if d in domains then domains[d].parents else [])
  {
  }

  /**
   * The scan passes exactly when no domain lists a parent twice and no domain reaches another in two ways: that
   * rules out every cycle, and every diamond as well.
   */
  method DomainsScanClean(domains: map<Text, FailureDomainRecord>) returns (clean: bool)
    ensures clean <==> ParentsOnce(domains) && SinglePaths(DomainGraph(domains))
  {
    hide DomainGraph, SinglePaths, SinglePathsFrom, NoRepeats;
    ghost var g := DomainGraph(domains);
    clean := true;
    var rest := domains.Keys;
    while rest != {}
      invariant rest <= domains.Keys
      invariant !clean ==> !(ParentsOnce(domains) && SinglePaths(g))
      invariant clean ==> forall d :: d in domains && d !in rest ==>
                            NoRepeats(domains[d].parents) && SinglePathsFrom(g, d)
      decreases rest
    {
      var id :| id in rest;
      var twice := MeetsTwice(domains, id);
      if twice {
        clean := false;
      }
      rest := rest - {id};
    }
    if clean {
      SinglePathsEverywhere(domains);
    }
  }

  lemma FirstEdge<T(!new)>(g: Edges<T>, p: seq<T>)
    requires Path(g, p) && |p| > 1
    ensures (p[0], p[1]) in g
  {
  }

  lemma SinglePathsEverywhere(domains: map<Text, FailureDomainRecord>)
    requires forall d :: d in domains ==> SinglePathsFrom(DomainGraph(domains), d)
    ensures SinglePaths(DomainGraph(domains))
  {
    var g := DomainGraph(domains);
    forall p: seq<Text>, q: seq<Text> | Path(g, p) && Path(g, q) && p[0] == q[0] && p[|p| - 1] == q[|q| - 1]
      ensures p == q
    {
      if p[0] in domains {
        assert SinglePathsFrom(g, p[0]);
      } else {
        ParentEdgesAre(domains, p[0]);
        if |p| > 1 {
          FirstEdge(g, p);
        }
        if |q| > 1 {
          FirstEdge(g, q);
        }
      }
    }
  }
}
