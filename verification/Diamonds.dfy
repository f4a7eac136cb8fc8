/** Which publications of failure domains bring about a second path between two of them. */
module Diamonds {
  import opened Wrappers
  import opened Evidence
  import opened Model
  import opened Ordering
  import opened Graph
  import opened RackReadiness
  import opened Machine
  import opened Structure
  import opened Scans
  import Facts = Progress
  import Runs

  /** The graph without the edges that leave a node. */
  ghost function Without<T>(g: Edges<T>, d: T): Edges<T> {
    set e | e in g && e.0 != d
  }

  /**
   * With these edges out of `d`, something above is reached in two ways: from two of the targets, or from a target and,
   * past `d`, from a node that reaches `d`.
   */
  ghost predicate Merges<T(!new)>(g: Edges<T>, d: T, targets: set<T>) {
    || (exists p, q, w :: p in targets && q in targets && p != q && Meet(Without(g, d), p, q, w))
    || (exists u, p, w :: u != d && p in targets && Reaches(Without(g, d), u, d) && Meet(Without(g, d), u, p, w))
  }

  ghost predicate Meet<T(!new)>(g: Edges<T>, a: T, b: T, w: T) {
    Reaches(g, a, w) && Reaches(g, b, w)
  }

  // ----- Paths in pieces -----

  lemma PathWithout<T(!new)>(g: Edges<T>, d: T, p: seq<T>)
    ensures Path(Without(g, d), p) <==> Path(g, p) && forall i :: 0 <= i < |p| - 1 ==> p[i] != d
  {
  }

  lemma SubPath<T(!new)>(g: Edges<T>, p: seq<T>, i: nat, j: nat)
    requires Path(g, p) && i < j <= |p|
    ensures Path(g, p[i..j]) && p[i..j][0] == p[i] && p[i..j][j - i - 1] == p[j - 1]
  {
    var q := p[i..j];
    forall k | 0 <= k < |q| - 1
      ensures (q[k], q[k + 1]) in g
    {
      assert q[k] == p[i + k] && q[k + 1] == p[i + k + 1];
    }
  }

  lemma Joined<T(!new)>(g: Edges<T>, p: seq<T>, q: seq<T>)
    requires Path(g, p) && Path(g, q) && (p[|p| - 1], q[0]) in g
    ensures Path(g, p + q)
  {
    var r := p + q;
    forall k | 0 <= k < |r| - 1
      ensures (r[k], r[k + 1]) in g
    {
      if k < |p| - 1 {
        assert r[k] == p[k] && r[k + 1] == p[k + 1];
      } else if k > |p| - 1 {
        assert r[k] == q[k - |p|] && r[k + 1] == q[k + 1 - |p|];
      }
    }
  }

  /** No node is met twice on a path of an acyclic graph. */
  lemma NoReturnOnPath<T(!new)>(g: Edges<T>, p: seq<T>, i: nat, j: nat)
    requires Acyclic(g) && Path(g, p) && i < j < |p|
    ensures p[i] != p[j]
  {
    if p[i] == p[j] {
      SubPath(g, p, i, j + 1);
      assert Cycle(g, p[i..j + 1]);
    }
  }

  /** A path through `d` is one that ends there, an edge, and one that starts with the target. */
  lemma Split<T(!new)>(g: Edges<T>, d: T, targets: set<T>, h: Edges<T>, p: seq<T>, i: nat)
    requires Rewired(g, d, targets, h) && Acyclic(h) && Path(h, p) && i < |p| - 1 && p[i] == d
    ensures Path(Without(g, d), p[..i + 1]) && p[i + 1] in targets && Path(Without(g, d), p[i + 1..])
  {
    SameWithout(g, d, targets, h);
    SubPath(h, p, 0, i + 1);
    SubPath(h, p, i + 1, |p|);
    assert p[..i + 1] == p[0..i + 1] && p[i + 1..] == p[i + 1..|p|];
    forall k | 0 <= k < |p| && k != i
      ensures p[k] != d
    {
      if k < i {
        NoReturnOnPath(h, p, k, i);
      } else {
        NoReturnOnPath(h, p, i, k);
      }
    }
    PathWithout(h, d, p[..i + 1]);
    PathWithout(h, d, p[i + 1..]);
    assert (p[i], p[i + 1]) in h;
  }

  lemma SameWithout<T(!new)>(g: Edges<T>, d: T, targets: set<T>, h: Edges<T>)
    requires Rewired(g, d, targets, h)
    ensures Without(h, d) == Without(g, d)
  {
    forall a, b
      ensures (a, b) in Without(h, d) <==> (a, b) in Without(g, d)
    {
      assert (a, b) in h <==> if a == d then b in targets else (a, b) in g;
    }
  }

  ghost predicate SameEnds<T>(p: seq<T>, q: seq<T>) {
    |p| > 0 && |q| > 0 && p[0] == q[0] && p[|p| - 1] == q[|q| - 1]
  }

  lemma WithoutIsSingle<T(!new)>(g: Edges<T>, d: T, p: seq<T>, q: seq<T>)
    requires SinglePaths(g) && Path(Without(g, d), p) && Path(Without(g, d), q) && SameEnds(p, q)
    ensures p == q
  {
    PathWithout(g, d, p);
    PathWithout(g, d, q);
  }

  // ----- New edges out of one node -----

  lemma SameStart<T(!new)>(g: Edges<T>, d: T, targets: set<T>, a: seq<T>, b: seq<T>)
    requires !Merges(g, d, targets) && Path(Without(g, d), a) && Path(Without(g, d), b)
    requires a[0] in targets && b[0] in targets && a[|a| - 1] == b[|b| - 1]
    ensures a[0] == b[0]
  {
    assert Reaches(Without(g, d), a[0], a[|a| - 1]) && Reaches(Without(g, d), b[0], b[|b| - 1]);
    assert Meet(Without(g, d), a[0], b[0], a[|a| - 1]);
  }

  lemma BothThrough<T(!new)>(
    g: Edges<T>, d: T, targets: set<T>, h: Edges<T>, p: seq<T>, i: nat, q: seq<T>, j: nat)
    requires SinglePaths(g) && Rewired(g, d, targets, h) && Acyclic(h) && !Merges(g, d, targets)
    requires Path(h, p) && Path(h, q) && SameEnds(p, q)
    requires i < |p| - 1 && p[i] == d && j < |q| - 1 && q[j] == d
    ensures p == q
  {
    hide Merges, Rewired, Acyclic, SinglePaths;
    Split(g, d, targets, h, p, i);
    Split(g, d, targets, h, q, j);
    WithoutIsSingle(g, d, p[..i + 1], q[..j + 1]);
    var a, b := p[i + 1..], q[j + 1..];
    assert a[|a| - 1] == p[|p| - 1] == b[|b| - 1];
    SameStart(g, d, targets, a, b);
    WithoutIsSingle(g, d, a, b);
    assert p == p[..i + 1] + a && q == q[..j + 1] + b;
  }

  lemma OneThrough<T(!new)>(g: Edges<T>, d: T, targets: set<T>, h: Edges<T>, p: seq<T>, i: nat, q: seq<T>)
    requires Rewired(g, d, targets, h) && Acyclic(h)
    requires Path(h, p) && Path(h, q) && SameEnds(p, q)
    requires i < |p| - 1 && p[i] == d && forall j :: 0 <= j < |q| - 1 ==> q[j] != d
    ensures Merges(g, d, targets)
  {
    Split(g, d, targets, h, p, i);
    SameWithout(g, d, targets, h);
    PathWithout(h, d, q);
    var g0 := Without(g, d);
    var u, w, t := p[0], p[|p| - 1], p[i + 1];
    var a, b := p[..i + 1], p[i + 1..];
    assert a[0] == u && a[|a| - 1] == d && b[0] == t && b[|b| - 1] == w;
    NoReturnOnPath(h, p, 0, |p| - 1);
    assert u != d;
    assert Reaches(g0, u, d) && Reaches(g0, t, w) && Reaches(g0, u, w);
    assert Meet(g0, u, t, w);
  }

  lemma StaysSingle<T(!new)>(g: Edges<T>, d: T, targets: set<T>, h: Edges<T>)
    requires SinglePaths(g) && Rewired(g, d, targets, h) && Acyclic(h) && !Merges(g, d, targets)
    ensures SinglePaths(h)
  {
    hide Acyclic, Merges;
    forall p, q | Path(h, p) && Path(h, q) && SameEnds(p, q)
      ensures p == q
    {
      if i :| 0 <= i < |p| - 1 && p[i] == d {
        if j :| 0 <= j < |q| - 1 && q[j] == d {
          BothThrough(g, d, targets, h, p, i, q, j);
        } else {
          OneThrough(g, d, targets, h, p, i, q);
        }
      } else if j :| 0 <= j < |q| - 1 && q[j] == d {
        OneThrough(g, d, targets, h, q, j, p);
      } else {
        SameWithout(g, d, targets, h);
        PathWithout(h, d, p);
        PathWithout(h, d, q);
        WithoutIsSingle(g, d, p, q);
      }
    }
  }

  lemma TwoTargetsMeet<T(!new)>(g: Edges<T>, d: T, targets: set<T>, h: Edges<T>, p: T, q: T, w: T)
    requires Rewired(g, d, targets, h) && p in targets && q in targets && p != q && Meet(Without(g, d), p, q, w)
    ensures !SinglePaths(h)
  {
    SameWithout(g, d, targets, h);
    var a :| Path(Without(g, d), a) && a[0] == p && a[|a| - 1] == w;
    var b :| Path(Without(g, d), b) && b[0] == q && b[|b| - 1] == w;
    PathWithout(h, d, a);
    PathWithout(h, d, b);
    assert (d, p) in h && (d, q) in h;
    Joined(h, [d], a);
    Joined(h, [d], b);
    var x, y := [d] + a, [d] + b;
    assert x[1] == p && y[1] == q;
    assert x[0] == d == y[0] && x[|x| - 1] == w == y[|y| - 1];
  }

  lemma PastAndThrough<T(!new)>(g: Edges<T>, d: T, targets: set<T>, h: Edges<T>, u: T, p: T, w: T)
    requires Rewired(g, d, targets, h) && Acyclic(h)
    requires u != d && p in targets && Reaches(Without(g, d), u, d) && Meet(Without(g, d), u, p, w)
    ensures !SinglePaths(h)
  {
    SameWithout(g, d, targets, h);
    var g0 := Without(g, d);
    var a :| Path(g0, a) && a[0] == u && a[|a| - 1] == d;
    var b :| Path(g0, b) && b[0] == p && b[|b| - 1] == w;
    var c :| Path(g0, c) && c[0] == u && c[|c| - 1] == w;
    PathWithout(h, d, a);
    PathWithout(h, d, b);
    PathWithout(h, d, c);
    assert (d, p) in h;
    Joined(h, a, b);
    var x := a + b;
    assert x[0] == u && x[|x| - 1] == w;
    assert x[|a| - 1] == d && |a| - 1 < |x| - 1;
    assert x != c;
  }

  /** In a graph with single paths, new edges out of a node that close no cycle keep paths single iff nothing merges. */
  lemma RewiredSingleIff<T(!new)>(g: Edges<T>, d: T, targets: set<T>, h: Edges<T>)
    requires SinglePaths(g) && Rewired(g, d, targets, h) && Acyclic(h)
    ensures SinglePaths(h) <==> !Merges(g, d, targets)
  {
    hide SinglePaths, Acyclic, Rewired, Meet, Reaches;
    if !Merges(g, d, targets) {
      StaysSingle(g, d, targets, h);
    } else if p, q, w :| p in targets && q in targets && p != q && Meet(Without(g, d), p, q, w) {
      TwoTargetsMeet(g, d, targets, h, p, q, w);
    } else {
      var u, p, w :| u != d && p in targets && Reaches(Without(g, d), u, d) && Meet(Without(g, d), u, p, w);
      PastAndThrough(g, d, targets, h, u, p, w);
    }
  }

  // ----- Requests -----

  /** The request gives a domain parents that bring about a second path. */
  ghost predicate MakesDiamond(s: Core, e: Event) {
    e.PublishFailureDomain? && Merges(DomainGraph(s.failureDomains), e.domain.id, set p | p in e.domain.parents)
  }

  ghost predicate SameDomains(s: Core, t: Core) { t.failureDomains == s.failureDomains }

  lemma EndingsKeepDomains(s: Core, publisher: Option<Text>)
    ensures SameDomains(s, AdvancePublication(s, publisher)) && SameDomains(s, NoteRejection(s, publisher))
  {
  }

  lemma ConcludeKeepsDomains(s: Core, publisher: Option<Text>, o: Outcome, u: Core)
    requires SameDomains(s, u)
    ensures SameDomains(s, Conclude(s, publisher, o, AdvancePublication(u, publisher)).state)
  {
    EndingsKeepDomains(s, publisher);
    EndingsKeepDomains(u, publisher);
    hide AdvancePublication, NoteRejection;
  }

  lemma UpdatesKeepDomains(s: Core, limits: Limits, e: Event)
    ensures e.PublishHealth? ==> SameDomains(s, HealthStep(s, e).state)
    ensures e.PublishCapability? ==> SameDomains(s, CapabilityStep(s, limits, e).state)
    ensures e.WithdrawEvidence? ==> SameDomains(s, WithdrawStep(s, e).state)
    ensures e.MarkUnavailable? ==> SameDomains(s, MarkUnavailableStep(s, e).state)
  {
    hide CheckAuthority, Conclude, AdvancePublication, NoteRejection, StampPublication, JudgeHealth, JudgeCapability,
      JudgeWithdrawal, JudgeUnavailable, NextHealth, NextCapabilities, Withdrawn, MadeUnavailable;
    if e.PublishHealth? || e.PublishCapability? || e.WithdrawEvidence? || e.MarkUnavailable? {
      var a := CheckAuthority(s, e.authority, true);
      if a.Granted? {
        EndingsKeepDomains(s, a.publisher);
        if e.member in s.members {
          var r := s.members[e.member];
          var stamped := if e.MarkUnavailable? then None else a.publisher;
          var next := if e.PublishHealth? then NextHealth(r, e) else if e.PublishCapability? then NextCapabilities(r, e)
                      else if e.WithdrawEvidence? then Withdrawn(r, e.scope) else MadeUnavailable(r, e.reason);
          var o := if e.PublishHealth? then JudgeHealth(r, e)
                   else if e.PublishCapability? then JudgeCapability(r, limits, e)
                   else if e.WithdrawEvidence? then JudgeWithdrawal(r, e) else JudgeUnavailable(r, e);
          var u := Update(s, stamped, next);
          var v := if e.PublishHealth? then AdvanceHealth(u) else if e.PublishCapability? then AdvanceCapabilities(u)
                   else AdvanceMembership(u);
          ConcludeKeepsDomains(s, a.publisher, o, v);
        }
      }
    }
  }

  lemma MemberRequestsKeepDomains(s: Core, limits: Limits, e: Event, now: i64)
    ensures e.PublishMember? ==> SameDomains(s, PublishMemberStep(s, limits, e).state)
    ensures e.RetireMember? ==> SameDomains(s, RetireMemberStep(s, e).state)
    ensures e.RevalidateMembers? ==> SameDomains(s, RevalidateStep(s, e).state)
    ensures e.RetireRack? ==> SameDomains(s, RetireRackStep(s, e, now).state)
  {
    hide CheckAuthority, Conclude, AdvancePublication, NoteRejection, JudgeMember, Committed, JudgeRetirement,
      Retirement, RevalidateEach, Outstanding, LeftByRack, FencedRecord;
    if e.PublishMember? || e.RetireMember? || e.RevalidateMembers? || e.RetireRack? {
      var a := CheckAuthority(s, e.authority, true);
      if a.Granted? {
        EndingsKeepDomains(s, a.publisher);
        if e.PublishMember? {
          var target := TargetGeneration(PreviousGeneration(s, e.record.key), e.record.generation);
          var u := PutMember(s, Committed(s, e.authority, a.publisher, Normalized(e.record), target));
          var g := u.generations;
          ConcludeKeepsDomains(s, a.publisher, JudgeMember(s, limits, e), u.(generations := g.(
            membership := Advance(g.membership), health := FirstIfUnset(g.health),
            capabilities := FirstIfUnset(g.capabilities))));
        } else if e.RetireMember? {
          if e.member in s.members {
            ConcludeKeepsDomains(s, a.publisher, JudgeRetirement(s.members[e.member]),
                                 RetiredMember(s, e.member, Retirement(s.members[e.member])));
          }
        } else if e.RevalidateMembers? {
          var targets := if e.all then Outstanding(s.members) else e.members;
          var u := s.(members := RevalidateEach(s.members, targets, e.authority, false).members);
          EndingsKeepDomains(u, a.publisher);
          EndingsKeepDomains(AdvanceMembership(u), a.publisher);
        } else if s.rack.Some? && s.rack.value.generation < U64_MAX {
          EndingsKeepDomains(RetiredRack(s, s.rack.value.generation + 1, now), a.publisher);
        }
      }
    }
  }

  lemma TopologyCommitsKeepDomains(s: Core, token: AuthorityToken, publisher: Option<Text>)
    ensures forall r :: SameDomains(s, CommitRelationship(s, token, publisher, r))
    ensures forall k :: SameDomains(s, AdvancePublication(WithoutRelationship(s, k), publisher))
  {
    hide OwnerOf, WorkerOf;
  }

  lemma EnvelopeCommitsKeepDomains(env: Env, s: Core, token: AuthorityToken, publisher: Option<Text>, now: i64)
    ensures forall p :: SameDomains(s, CommitPower(env, s, token, publisher, p, now))
    ensures forall c :: SameDomains(s, CommitCooling(env, s, token, publisher, c, now))
  {
    hide DerivedPower, DerivedCooling, SortZones, OwnerOf, WorkerOf;
  }

  lemma ConcludedSame(s: Core, publisher: Option<Text>, o: Outcome, t: Core)
    requires SameDomains(s, t)
    ensures SameDomains(s, Conclude(s, publisher, o, t).state)
  {
    EndingsKeepDomains(s, publisher);
    hide NoteRejection;
  }

  lemma CommittedRequestsKeepDomains(env: Env, s: Core, e: Event, now: i64)
    ensures e.PublishRelationship? ==> SameDomains(s, RelationshipStep(s, env.limits, e).state)
    ensures e.WithdrawRelationship? ==> SameDomains(s, WithdrawRelationshipStep(s, e).state)
    ensures e.PublishPower? ==> SameDomains(s, PowerStep(env, s, e, now).state)
    ensures e.PublishCooling? ==> SameDomains(s, CoolingStep(env, s, e, now).state)
  {
    hide CheckAuthority, JudgeRelationship, JudgeRelationshipWithdrawal, JudgePower, JudgeCooling, Conclude,
      CommitRelationship, CommitPower, CommitCooling, AdvancePublication, WithoutRelationship, Canonical, SameDomains;
    if e.PublishRelationship? || e.WithdrawRelationship? || e.PublishPower? || e.PublishCooling? {
      var a := CheckAuthority(s, e.authority, true);
      assert SameDomains(s, s) by {
        Reflexive(s);
      }
      if a.Granted? {
        TopologyCommitsKeepDomains(s, e.authority, a.publisher);
        EnvelopeCommitsKeepDomains(env, s, e.authority, a.publisher, now);
        forall o, t: Core | SameDomains(s, t)
          ensures SameDomains(s, Conclude(s, a.publisher, o, t).state)
        {
          ConcludedSame(s, a.publisher, o, t);
        }
      }
    }
  }

  lemma Reflexive(s: Core)
    ensures SameDomains(s, s)
  {
  }

  lemma OtherRequestsKeepDomains(env: Env, s: Core, e: Event, now: i64)
    ensures e.RegisterPublisher? ==> SameDomains(s, Register(s, env.limits, e, now).state)
    ensures e.Heartbeat? ==> SameDomains(s, HeartbeatStep(s, e, now).state)
    ensures e.PublishSnapshot? ==> SameDomains(s, SnapshotStep(env, s, e, now).state)
  {
    hide CheckPublisher, BuildSnapshot, Retain, SnapshotId, IsIdentity, IsLabel;
  }

  lemma KeptIsSameGraph(s: Core, t: Core)
    requires Shrunk(s, t)
    ensures DomainGraph(t.failureDomains) == DomainGraph(s.failureDomains)
  {
    hide MembersShrunk, RelationshipsShrunk;
  }

  lemma DeclarationKeepsGraph(s: Core, e: Event, now: i64)
    requires e.DeclareRack?
    ensures DomainGraph(Declare(s, e, now).state.failureDomains) == DomainGraph(s.failureDomains)
  {
    hide CheckAuthority, IsIdentity, IsLabel, Redeclared, Shrunk, DomainGraph;
    if s.rack.Some? && s.rack.value.generation < U64_MAX && e.rackEpoch.Some? {
      RedeclaredShrinks(s, e.rackEpoch.value, e.labelText, s.rack.value.generation + 1, now);
      KeptIsSameGraph(s, Redeclared(s, e.rackEpoch.value, e.labelText, s.rack.value.generation + 1, now));
    }
  }

  lemma FenceKeepsGraph(s: Core, epoch: u64, boot: Option<Text>, reason: RevalidationReason, now: i64)
    ensures DomainGraph(FenceStep(s, epoch, boot, reason, now).state.failureDomains) == DomainGraph(s.failureDomains)
  {
    hide FenceBoot, Shrunk, DomainGraph;
    if boot.Some? && boot.value in s.publishers {
      FenceBootShrinks(s, boot.value, reason, now);
      KeptIsSameGraph(s, FenceBoot(s, boot.value, reason, now));
    }
  }

  lemma {:induction false} FenceEachKeepsGraph(s: Core, boots: seq<Text>, now: i64)
    ensures DomainGraph(FenceEach(s, boots, now).state.failureDomains) == DomainGraph(s.failureDomains)
    decreases |boots|
  {
    hide FenceStep, DomainGraph;
    if boots != [] {
      FenceKeepsGraph(s, s.generations.coordinatorEpoch, Some(boots[0]), OwnerProcessLost, now);
      FenceEachKeepsGraph(FenceStep(s, s.generations.coordinatorEpoch, Some(boots[0]), OwnerProcessLost, now).state,
                          boots[1..], now);
    }
  }

  /** After the step paths are single unless the request was accepted and makes a diamond. */
  ghost predicate SingleIff(s: Core, e: Event, step: Step) {
    SinglePaths(DomainGraph(step.state.failureDomains)) <==> !(step.outcome.Accepted? && MakesDiamond(s, e))
  }

  lemma DomainPublicationIff(s: Core, limits: Limits, e: Event)
    requires e.PublishFailureDomain? && DomainsStructured(s.failureDomains) && SinglePaths(DomainGraph(s.failureDomains))
    ensures SingleIff(s, e, DomainStep(s, limits, e))
  {
    hide CheckAuthority, Machine.JudgeDomain, UniqueParents, SinglePaths, DomainGraph, Merges, CommitDomain,
      NoteRejection, DomainsStructured, SameDomains;
    Facts.GrantMeans(s, e.authority, true);
    var a := CheckAuthority(s, e.authority, true);
    if a.Granted? {
      EndingsKeepDomains(s, a.publisher);
      UniqueParentsAre(e.domain);
      JudgedParentsReachNot(s, limits, e);
      CommittedGraph(s, e.authority, a.publisher, UniqueParents(e.domain));
      assert SameDomains(s, NoteRejection(s, a.publisher));
      SameDomainsMean(s, NoteRejection(s, a.publisher));
    }
  }

  lemma SameDomainsMean(s: Core, t: Core)
    requires SameDomains(s, t)
    ensures t.failureDomains == s.failureDomains
  {
  }

  lemma UniqueParentsAre(d: FailureDomainRecord)
    ensures UniqueParents(d).id == d.id && (set p | p in UniqueParents(d).parents) == (set p | p in d.parents)
  {
    hide StrictTotal, Ascends;
    TextOrder();
  }

  lemma JudgedParentsReachNot(s: Core, limits: Limits, e: Event)
    requires e.PublishFailureDomain?
    ensures var d := UniqueParents(e.domain);
            JudgeDomain(s, limits, e, d).Accepted? ==>
              forall p :: p in d.parents ==> !Reaches(DomainGraph(s.failureDomains), p, d.id)
  {
    hide Reaches, DomainGraph, JudgeParents, UniqueParents, IsIdentity, IsLabel, ValidEvidence, JudgeDomainReplacement;
    var d := UniqueParents(e.domain);
    if JudgeDomain(s, limits, e, d).Accepted? {
      JudgedParents(s.failureDomains, d.id, d.parents);
    }
  }

  lemma CommittedGraph(s: Core, token: AuthorityToken, publisher: Option<Text>, d: FailureDomainRecord)
    requires DomainsStructured(s.failureDomains) && SinglePaths(DomainGraph(s.failureDomains))
    ensures var g, parents := DomainGraph(s.failureDomains), set p | p in d.parents;
            (forall p :: p in d.parents ==> !Reaches(g, p, d.id)) ==>
              (SinglePaths(DomainGraph(CommitDomain(s, token, publisher, d).failureDomains)) <==> !Merges(g, d.id, parents))
  {
    hide SinglePaths, Merges, Acyclic, Reaches, OwnerOf, WorkerOf;
    var g, h := DomainGraph(s.failureDomains), DomainGraph(CommitDomain(s, token, publisher, d).failureDomains);
    var parents := set p | p in d.parents;
    assert Rewired(g, d.id, parents, h) by {
      forall a, b
        ensures (a, b) in h <==> if a == d.id then b in parents else (a, b) in g
      {
      }
    }
    RewiredCyclicIff(g, d.id, parents, h);
    if forall p :: p in d.parents ==> !Reaches(g, p, d.id) {
      RewiredSingleIff(g, d.id, parents, h);
    }
  }

  lemma SameGraphIff(s: Core, e: Event, step: Step)
    requires SinglePaths(DomainGraph(s.failureDomains)) && !e.PublishFailureDomain?
    requires DomainGraph(step.state.failureDomains) == DomainGraph(s.failureDomains)
    ensures SingleIff(s, e, step)
  {
    hide SinglePaths, DomainGraph, Merges;
  }

  /**
   * With single paths before, a request brings about a second path between two failure domains exactly when it is an
   * accepted publication of a domain whose new parents merge.
   */
  lemma StepKeepsSinglePathsIff(env: Env, s: Core, e: Event, now: i64)
    requires DomainsStructured(s.failureDomains) && SinglePaths(DomainGraph(s.failureDomains))
    ensures SingleIff(s, e, Apply(env, s, e, now))
  {
    hide SingleIff, DomainsStructured, SinglePaths, DomainGraph, PublishMemberStep, RevalidateStep, RetireMemberStep,
      RetireRackStep, Declare, FenceStep, FenceEach, HealthStep, CapabilityStep, WithdrawStep, MarkUnavailableStep,
      Expired, Register, RelationshipStep, DomainStep, WithdrawRelationshipStep, PowerStep, CoolingStep, HeartbeatStep,
      SnapshotStep;
    var step := Apply(env, s, e, now);
    if e.PublishFailureDomain? {
      DomainPublicationIff(s, env.limits, e);
      return;
    }
    if e.DeclareRack? {
      DeclarationKeepsGraph(s, e, now);
    } else if e.FencePublisher? {
      FenceKeepsGraph(s, e.epoch, e.boot, e.reason, now);
    } else if e.ExpirePublishers? {
      FenceEachKeepsGraph(s, Expired(s, now), now);
    } else {
      UpdatesKeepDomains(s, env.limits, e);
      MemberRequestsKeepDomains(s, env.limits, e, now);
      CommittedRequestsKeepDomains(env, s, e, now);
      OtherRequestsKeepDomains(env, s, e, now);
    }
    SameGraphIff(s, e, step);
  }

  /** Along a run paths stay single as long as no accepted request makes a diamond. */
  lemma {:induction false} RunKeepsSinglePaths(env: Env, s: Core, run: seq<Timed>, n: nat)
    requires Runs.Regular(s) && SinglePaths(DomainGraph(s.failureDomains)) && n <= |run|
    requires forall i :: 0 <= i < n ==>
               !(StepAt(env, s, run, i).outcome.Accepted? && MakesDiamond(At(env, s, run, i), run[i].event))
    ensures SinglePaths(DomainGraph(At(env, s, run, n).failureDomains))
    decreases n
  {
    hide Runs.Regular, DomainsStructured, SinglePaths, DomainGraph, Apply, MakesDiamond;
    if n > 0 {
      RunKeepsSinglePaths(env, s, run, n - 1);
      Runs.RunIsRegular(env, s, run, n - 1);
      RegularDomains(At(env, s, run, n - 1));
      StepKeepsSinglePathsIff(env, At(env, s, run, n - 1), run[n - 1].event, run[n - 1].now);
      assert At(env, s, run, n) == StepAt(env, s, run, n - 1).state;
    }
  }

  /** Whoever may publish can give a new domain two parents that share one of theirs. */
  lemma DiamondCanBeMade(
    env: Env, s: Core, token: AuthorityToken, d: FailureDomainRecord, p: Text, q: Text, top: Text, now: i64)
    requires Structured(s) && CheckAuthority(s, token, true).Granted?
    requires IsIdentity(d.id) && ValidEvidence(d.stamp) && (d.labelText.Some? ==> IsLabel(d.labelText.value))
    requires d.id !in s.failureDomains && |s.failureDomains| < env.limits.maxFailureDomains
    requires p in s.failureDomains && q in s.failureDomains && p != q && d.parents == [p, q]
    requires top in s.failureDomains[p].parents && top in s.failureDomains[q].parents
    requires s.generations.failureDomains < U64_MAX
    ensures var e := PublishFailureDomain(token, d, None);
            Apply(env, s, e, now).outcome.Accepted? && MakesDiamond(s, e)
  {
    hide CheckAuthority, IsIdentity, IsLabel, ValidEvidence, Structured, DomainsStructured, UniqueParents, Merges,
      DomainGraph, JudgeParents, CommitDomain, Reaches;
    var e := PublishFailureDomain(token, d, None);
    StructuredDomains(s);
    UniqueParentsAre(d);
    UniqueKeepsTheRest(d);
    NewParentsAreJudged(s.failureDomains, d.id, UniqueParents(d).parents);
    assert JudgeDomain(s, env.limits, e, UniqueParents(d)).Accepted?;
    SharedParentMerges(s, d.id, p, q, top);
    assert (set x | x in d.parents) == {p, q};
  }

  lemma UniqueKeepsTheRest(d: FailureDomainRecord)
    ensures UniqueParents(d) == d.(parents := UniqueParents(d).parents)
    ensures forall p :: p in UniqueParents(d).parents <==> p in d.parents
  {
    hide StrictTotal, Ascends;
    TextOrder();
  }

  lemma StructuredDomains(s: Core)
    requires Structured(s)
    ensures DomainsStructured(s.failureDomains)
  {
    hide DomainsStructured, MembersStructured, RelationshipsStructured;
  }

  lemma SharedParentMerges(s: Core, id: Text, p: Text, q: Text, top: Text)
    requires id !in s.failureDomains && p in s.failureDomains && q in s.failureDomains && p != q
    requires top in s.failureDomains[p].parents && top in s.failureDomains[q].parents
    ensures Merges(DomainGraph(s.failureDomains), id, {p, q})
  {
    var g := Without(DomainGraph(s.failureDomains), id);
    assert (p, top) in g && (q, top) in g;
    hide DomainGraph, Without, Reaches;
    ReachesSelf(g, p);
    ReachesEdge(g, p, p, top);
    ReachesSelf(g, q);
    ReachesEdge(g, q, q, top);
    assert Meet(g, p, q, top);
  }

  /** Nothing leads to a domain that is not there yet. */
  lemma NewIsNotReached(domains: map<Text, FailureDomainRecord>, p: Text, id: Text)
    requires DomainsStructured(domains) && id !in domains && p != id
    ensures !Reaches(DomainGraph(domains), p, id)
  {
    hide Acyclic, Reaches;
    var known := domains.Keys + {p};
    if Reaches(DomainGraph(domains), p, id) {
      ClosedHoldsReachable(DomainGraph(domains), known, p, id);
    }
  }

  lemma {:induction false} ParentsAreJudged(domains: map<Text, FailureDomainRecord>, id: Text, parents: seq<Text>)
    requires forall p :: p in parents ==> p in domains && !Reaches(DomainGraph(domains), p, id)
    ensures JudgeParents(domains, id, parents).Accepted?
    decreases |parents|
  {
    hide Reaches, DomainGraph;
    if parents != [] {
      assert parents[0] in parents;
      ReachesSelf(DomainGraph(domains), id);
      ParentsAreJudged(domains, id, parents[1..]);
    }
  }

  lemma NewParentsAreJudged(domains: map<Text, FailureDomainRecord>, id: Text, parents: seq<Text>)
    requires DomainsStructured(domains) && id !in domains && forall p :: p in parents ==> p in domains
    ensures JudgeParents(domains, id, parents).Accepted?
  {
    hide DomainsStructured, Reaches, DomainGraph, JudgeParents;
    forall p | p in parents
      ensures !Reaches(DomainGraph(domains), p, id)
    {
      NewIsNotReached(domains, p, id);
    }
    ParentsAreJudged(domains, id, parents);
  }

  /** Publishing a known domain with the parents it has closes no cycle. */
  lemma OldParentsAreJudged(domains: map<Text, FailureDomainRecord>, id: Text, parents: seq<Text>)
    requires DomainsStructured(domains) && id in domains && forall p :: p in parents ==> p in domains[id].parents
    ensures JudgeParents(domains, id, parents).Accepted?
  {
    hide Reaches, Acyclic, JudgeParents;
    forall p | p in parents
      ensures !Reaches(DomainGraph(domains), p, id)
    {
      assert (id, p) in DomainGraph(domains);
      NoReturn(DomainGraph(domains), id, p);
    }
    ParentsAreJudged(domains, id, parents);
  }

  lemma RegularDomains(s: Core)
    requires Runs.Regular(s)
    ensures DomainsStructured(s.failureDomains)
  {
    hide DomainsStructured, MembersStructured, RelationshipsStructured;
  }

  /** A fresh coordinator has no paths at all but the trivial ones. */
  lemma InitialHasSinglePaths()
    ensures SinglePaths(DomainGraph(INITIAL.failureDomains))
  {
    assert DomainGraph(INITIAL.failureDomains) == {};
    forall p: seq<Text> | Path({}, p)
      ensures p == [p[0]]
    {
      NoEdgeNoStep(p);
    }
  }

  lemma NoEdgeNoStep<T(!new)>(p: seq<T>)
    requires Path({}, p)
    ensures |p| == 1
  {
    if |p| > 1 {
      StepIsEdge({}, p, 0);
    }
  }

  lemma StepIsEdge<T(!new)>(g: Edges<T>, p: seq<T>, i: nat)
    requires Path(g, p) && i < |p| - 1
    ensures (p[i], p[i + 1]) in g
  {
  }
}
