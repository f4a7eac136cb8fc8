/** Publishing a list of failure domains parents first. */
module Synthetic {
  import opened Wrappers
  import opened Evidence
  import opened Model
  import opened Ordering
  import opened Graph
  import opened Machine
  import opened Structure
  import opened Diamonds
  import opened State
  import opened Fabric

  /** One request, and what became of it. */
  datatype Attempt = Attempt(domain: FailureDomainRecord, outcome: Outcome)

  ghost predicate AcceptedBefore(log: seq<Attempt>, i: nat, p: Text)
    requires i <= |log|
  {
    exists j :: 0 <= j < i && log[j].outcome.Accepted? && log[j].domain.id == p
  }

  /** Each of the first `n` requests was made after all its parents had been accepted. */
  ghost predicate ParentsFirst(log: seq<Attempt>, n: nat)
    requires n <= |log|
  {
    forall i, p {:trigger AcceptedBefore(log, i, p)} :: 0 <= i < n && p in log[i].domain.parents ==>
      AcceptedBefore(log, i, p)
  }

  function Domains(log: seq<Attempt>): seq<FailureDomainRecord> {
    seq(|log|, i requires 0 <= i < |log| => log[i].domain)
  }

  /** The requests as events of a run. */
  function Requests(token: AuthorityToken, log: seq<Attempt>, now: i64): (run: seq<Timed>)
    ensures |run| == |log|
  {
    seq(|log|, i requires 0 <= i < |log| => Timed(PublishFailureDomain(token, log[i].domain, None), now))
  }

  ghost function ListGraph(domains: seq<FailureDomainRecord>): Edges<Text> {
    set d, p | d in domains && p in d.parents :: (d.id, p)
  }

  ghost predicate Listed(domains: seq<FailureDomainRecord>, id: Text) {
    exists d :: d in domains && d.id == id
  }

  ghost predicate ParentsListed(domains: seq<FailureDomainRecord>) {
    forall d, p :: d in domains && p in d.parents ==> Listed(domains, p)
  }

  ghost predicate AllAccepted(log: seq<Attempt>, n: nat)
    requires n <= |log|
  {
    forall i :: 0 <= i < n ==> log[i].outcome.Accepted?
  }

  predicate Ready(d: FailureDomainRecord, published: set<Text>) {
    forall i :: 0 <= i < |d.parents| ==> d.parents[i] in published
  }

  /** `published` are the accepted identities. */
  ghost predicate Tracks(log: seq<Attempt>, published: set<Text>) {
    forall p :: p in published <==> AcceptedBefore(log, |log|, p)
  }

  lemma LogGrows(log: seq<Attempt>, a: Attempt, published: set<Text>, n: nat)
    requires n <= |log| && ParentsFirst(log, n) && Tracks(log, published)
    ensures ParentsFirst(log + [a], n)
    ensures n == |log| && Ready(a.domain, published) ==> ParentsFirst(log + [a], n + 1)
    ensures Tracks(log + [a], if a.outcome.Accepted? then published + {a.domain.id} else published)
    ensures Domains(log + [a]) == Domains(log) + [a.domain]
  {
    var more := log + [a];
    forall i, p | 0 <= i <= |log| && AcceptedBefore(log, i, p)
      ensures AcceptedBefore(more, i, p)
    {
      var j :| 0 <= j < i && log[j].outcome.Accepted? && log[j].domain.id == p;
      assert more[j] == log[j];
    }
    forall i, p | 0 <= i < n && p in more[i].domain.parents
      ensures AcceptedBefore(more, i, p)
    {
      assert more[i] == log[i];
      assert AcceptedBefore(log, i, p);
    }
    forall p
      ensures AcceptedBefore(more, |more|, p) <==> p in published || (a.outcome.Accepted? && a.domain.id == p)
    {
      if AcceptedBefore(more, |more|, p) {
        var j :| 0 <= j < |more| && more[j].outcome.Accepted? && more[j].domain.id == p;
        if j < |log| {
          assert log[j] == more[j];
          assert AcceptedBefore(log, |log|, p);
        }
      }
      if a.outcome.Accepted? && a.domain.id == p {
        assert more[|log|] == a;
      }
      if p in published {
        assert AcceptedBefore(log, |log|, p);
      }
    }
    if n == |log| && Ready(a.domain, published) {
      forall p | p in a.domain.parents
        ensures AcceptedBefore(more, n, p)
      {
        assert p in published;
        assert AcceptedBefore(log, n, p);
      }
    }
  }

  /** Requests one domain. */
  method Request(fabric: RackFabric, token: AuthorityToken, d: FailureDomainRecord, log: seq<Attempt>, now: i64,
                 ghost start: Core)
    returns (more: seq<Attempt>)
    requires fabric.state.Valid()
    requires fabric.state.Value() == At(fabric.env, start, Requests(token, log, now), |log|)
    modifies fabric.state
    ensures fabric.state.Valid() && |more| == |log| + 1 && more == log + [Attempt(d, more[|log|].outcome)]
    ensures fabric.state.Value() == At(fabric.env, start, Requests(token, more, now), |more|)
    ensures Step(fabric.state.Value(), more[|log|].outcome)
         == DomainStep(old(fabric.state.Value()), fabric.env.limits, PublishFailureDomain(token, d, None))
  {
    hide RackState.Valid, Apply;
    ApplyToDomain(fabric.env, fabric.state.Value(), PublishFailureDomain(token, d, None), now);
    var e := PublishFailureDomain(token, d, None);
    ghost var before := fabric.state.Value();
    var outcome := fabric.Perform(e, now);
    more := log + [Attempt(d, outcome)];
    ghost var run, longer := Requests(token, log, now), Requests(token, more, now);
    assert longer == run + [Timed(e, now)];
    RunExtends(fabric.env, start, run, Timed(e, now));
  }

  lemma ApplyToDomain(env: Env, s: Core, e: Event, now: i64)
    requires e.PublishFailureDomain?
    ensures Apply(env, s, e, now) == DomainStep(s, env.limits, e)
  {
    hide DomainStep;
  }

  // ----- Lists that are accepted as a whole -----

  predicate ValidDomain(d: FailureDomainRecord) {
    IsIdentity(d.id) && (d.labelText.Some? ==> IsLabel(d.labelText.value)) && ValidEvidence(d.stamp)
  }

  ghost predicate UniqueDomains(domains: seq<FailureDomainRecord>) {
    forall i, j :: 0 <= i < j < |domains| ==> domains[i].id != domains[j].id
  }

  /**
   * What can be said of a list before it is published: the caller is an operator in authority, the domains are valid, new
   * and uniquely named, all parents are listed without a cycle, and there is room for all of them.
   */
  ghost predicate Publishable(env: Env, s: Core, token: AuthorityToken, domains: seq<FailureDomainRecord>) {
    && token.boot.None? && CheckAuthority(s, token, true).Granted?
    && (forall d :: d in domains ==> ValidDomain(d) && d.id !in s.failureDomains)
    && UniqueDomains(domains) && ParentsListed(domains) && Acyclic(ListGraph(domains))
    && |s.failureDomains| + |domains| <= env.limits.maxFailureDomains
    && s.generations.failureDomains + |domains| <= U64_MAX
  }

  function LogIds(log: seq<Attempt>): set<Text> {
    set a | a in log :: a.domain.id
  }

  /** All requests so far were accepted, and added their domains to the records and nothing else. */
  ghost predicate OnTrack(start: Core, log: seq<Attempt>, u: Core) {
    && AllAccepted(log, |log|)
    && u.rack == start.rack && u.generations.coordinatorEpoch == start.generations.coordinatorEpoch
    && u.failureDomains.Keys == start.failureDomains.Keys + LogIds(log)
    && |u.failureDomains| == |start.failureDomains| + |log|
    && u.generations.failureDomains == start.generations.failureDomains + |log|
  }

  lemma StartsOnTrack(start: Core)
    ensures OnTrack(start, [], start)
  {
    assert LogIds([]) == {};
  }

  lemma UniqueInBag(domains: seq<FailureDomainRecord>, bag: multiset<FailureDomainRecord>)
    requires UniqueDomains(domains) && multiset(domains) == bag
    ensures forall x, y :: x in bag && y in bag && x.id == y.id ==> x == y && bag[x] == 1
  {
    forall x, y | x in bag && y in bag && x.id == y.id
      ensures x == y && bag[x] == 1
    {
      var i :| 0 <= i < |domains| && domains[i] == x;
      var j :| 0 <= j < |domains| && domains[j] == y;
      assert i == j;
      OnceOnly(domains, i);
    }
  }

  lemma OnceOnly(domains: seq<FailureDomainRecord>, i: nat)
    requires UniqueDomains(domains) && i < |domains|
    ensures multiset(domains)[domains[i]] == 1
  {
    var before, after := domains[..i], domains[i + 1..];
    assert domains == before + [domains[i]] + after;
    assert domains[i] !in before && domains[i] !in after;
  }

  /** A domain that still waits shares its name with none that was requested. */
  lemma StillNew(
    domains: seq<FailureDomainRecord>, log: seq<Attempt>, pending: seq<FailureDomainRecord>, d: FailureDomainRecord)
    requires UniqueDomains(domains) && multiset(Domains(log)) + multiset(pending) == multiset(domains) && d in pending
    ensures d.id !in LogIds(log) && d in domains
  {
    assert d in multiset(domains);
    if a :| a in log && a.domain.id == d.id {
      var i :| 0 <= i < |log| && log[i] == a;
      assert Domains(log)[i] == a.domain;
      UniqueInBag(domains, multiset(domains));
    }
  }

  /** While all goes well, the next domain whose parents were accepted is accepted too. */
  lemma NextIsAccepted(
    env: Env, start: Core, token: AuthorityToken, domains: seq<FailureDomainRecord>, log: seq<Attempt>,
    pending: seq<FailureDomainRecord>, u: Core, d: FailureDomainRecord, published: set<Text>)
    requires Publishable(env, start, token, domains) && OnTrack(start, log, u) && DomainsStructured(u.failureDomains)
    requires multiset(Domains(log)) + multiset(pending) == multiset(domains) && d in pending
    requires Tracks(log, published) && Ready(d, published)
    ensures var step := DomainStep(u, env.limits, PublishFailureDomain(token, d, None));
            step.outcome.Accepted? && OnTrack(start, log + [Attempt(d, step.outcome)], step.state)
  {
    hide DomainsStructured, Acyclic, ListGraph, ParentsListed, UniqueDomains, Reaches, JudgeParents, CommitDomain,
      Tracks, ValidDomain, CheckAuthority, IsIdentity, IsLabel, ValidEvidence, Ready, AllAccepted, StrictTotal, LogIds;
    StillNew(domains, log, pending, d);
    RoomIsLeft(domains, log, pending, d);
    SameAuthority(start, u, token);
    ParentsAreThere(log, published, d, start, u);
    TextOrder();
    NewParentsAreJudged(u.failureDomains, d.id, UniqueParents(d).parents);
    ValidIs(d);
    var e := PublishFailureDomain(token, d, None);
    assert JudgeDomain(u, env.limits, e, UniqueParents(d)).Accepted?;
    CommittedDomainIs(u, token, UniqueParents(d));
    TrackExtends(start, log, u, DomainStep(u, env.limits, e).state, d);
  }

  lemma ValidIs(d: FailureDomainRecord)
    requires ValidDomain(d)
    ensures IsIdentity(d.id) && (d.labelText.Some? ==> IsLabel(d.labelText.value)) && ValidEvidence(d.stamp)
  {
    hide IsIdentity, IsLabel, ValidEvidence;
  }

  lemma RoomIsLeft(
    domains: seq<FailureDomainRecord>, log: seq<Attempt>, pending: seq<FailureDomainRecord>, d: FailureDomainRecord)
    requires multiset(Domains(log)) + multiset(pending) == multiset(domains) && d in pending
    ensures |log| < |domains|
  {
    assert |domains| == |multiset(domains)| == |Domains(log)| + |pending|;
  }

  lemma SameAuthority(start: Core, u: Core, token: AuthorityToken)
    requires u.rack == start.rack && u.generations.coordinatorEpoch == start.generations.coordinatorEpoch
    requires token.boot.None? && CheckAuthority(start, token, true).Granted?
    ensures CheckAuthority(u, token, true) == Granted(None)
  {
  }

  lemma ParentsAreThere(log: seq<Attempt>, published: set<Text>, d: FailureDomainRecord, start: Core, u: Core)
    requires Tracks(log, published) && Ready(d, published) && u.failureDomains.Keys == start.failureDomains.Keys + LogIds(log)
    ensures forall p :: p in d.parents ==> p in u.failureDomains
  {
    forall p | p in d.parents
      ensures p in u.failureDomains
    {
      assert p in published;
      assert AcceptedBefore(log, |log|, p);
      var j :| 0 <= j < |log| && log[j].outcome.Accepted? && log[j].domain.id == p;
      assert log[j].domain.id in LogIds(log);
      assert p in u.failureDomains.Keys;
    }
  }

  lemma CommittedDomainIs(u: Core, token: AuthorityToken, d: FailureDomainRecord)
    ensures var t := CommitDomain(u, token, None, d);
            && t.rack == u.rack && t.generations == u.generations.(failureDomains := Advance(u.generations.failureDomains))
            && t.failureDomains.Keys == u.failureDomains.Keys + {d.id}
            && (d.id !in u.failureDomains ==> |t.failureDomains| == |u.failureDomains| + 1)
  {
    hide OwnerOf, WorkerOf;
    var t := CommitDomain(u, token, None, d);
    if d.id !in u.failureDomains {
      assert |t.failureDomains| == |t.failureDomains.Keys| == |u.failureDomains.Keys + {d.id}|;
    }
  }

  lemma TrackExtends(start: Core, log: seq<Attempt>, u: Core, t: Core, d: FailureDomainRecord)
    requires OnTrack(start, log, u) && t.rack == u.rack
    requires t.generations.coordinatorEpoch == u.generations.coordinatorEpoch
    requires t.failureDomains.Keys == u.failureDomains.Keys + {d.id} && |t.failureDomains| == |u.failureDomains| + 1
    requires t.generations.failureDomains == u.generations.failureDomains + 1
    ensures OnTrack(start, log + [Attempt(d, Accepted)], t)
  {
    hide LogIds, AllAccepted;
    LogIdsExtend(log, Attempt(d, Accepted));
    AcceptedExtend(log, Attempt(d, Accepted));
  }

  lemma LogIdsExtend(log: seq<Attempt>, a: Attempt)
    ensures LogIds(log + [a]) == LogIds(log) + {a.domain.id}
  {
    var more := log + [a];
    assert more[|log|] == a;
    assert forall b :: b in more <==> b in log || b == a;
  }

  lemma AcceptedExtend(log: seq<Attempt>, a: Attempt)
    requires AllAccepted(log, |log|) && a.outcome.Accepted?
    ensures AllAccepted(log + [a], |log| + 1)
  {
  }

  lemma {:induction false} RunPrefix(env: Env, s: Core, run: seq<Timed>, last: Timed, n: nat)
    requires n <= |run|
    ensures At(env, s, run + [last], n) == At(env, s, run, n)
    decreases n
  {
    hide Apply;
    if n > 0 {
      RunPrefix(env, s, run, last, n - 1);
    }
  }

  lemma RunExtends(env: Env, s: Core, run: seq<Timed>, last: Timed)
    ensures At(env, s, run + [last], |run| + 1) == Apply(env, At(env, s, run, |run|), last.event, last.now).state
  {
    hide Apply;
    RunPrefix(env, s, run, last, |run|);
    assert At(env, s, run + [last], |run| + 1) == StepAt(env, s, run + [last], |run|).state;
  }

  /** Requests a domain whose parents were accepted, and remembers whether it was. */
  method RequestReady(
    fabric: RackFabric, token: AuthorityToken, d: FailureDomainRecord, log: seq<Attempt>, published: set<Text>, now: i64,
    ghost start: Core, ghost domains: seq<FailureDomainRecord>, ghost pending: seq<FailureDomainRecord>)
    returns (more: seq<Attempt>, known: set<Text>)
    requires fabric.state.Valid()
    requires fabric.state.Value() == At(fabric.env, start, Requests(token, log, now), |log|)
    requires multiset(Domains(log)) + multiset(pending) == multiset(domains) && d in pending
    requires ParentsFirst(log, |log|) && Tracks(log, published) && Ready(d, published)
    requires Publishable(fabric.env, start, token, domains) ==> OnTrack(start, log, fabric.state.Value())
    modifies fabric.state
    ensures fabric.state.Valid()
    ensures fabric.state.Value() == At(fabric.env, start, Requests(token, more, now), |more|)
    ensures multiset(Domains(more)) == multiset(Domains(log)) + multiset{d}
    ensures ParentsFirst(more, |more|) && Tracks(more, known)
    ensures Publishable(fabric.env, start, token, domains) ==> OnTrack(start, more, fabric.state.Value())
  {
    hide RackState.Valid, Tracks, ParentsFirst, Ready, Requests, Machine.At, Publishable, OnTrack, DomainStep,
      DomainsStructured;
    if Publishable(fabric.env, start, token, domains) {
      ValidDomains(fabric.state);
      NextIsAccepted(fabric.env, start, token, domains, log, pending, fabric.state.Value(), d, published);
    }
    more := Request(fabric, token, d, log, now, start);
    LogGrows(log, more[|log|], published, |log|);
    known := if more[|log|].outcome.Accepted? then published + {d.id} else published;
  }

  /**
   * Requests every domain once, parents first. When a pass makes no progress the remaining ones are requested all the
   * same, in their order; `ordered` counts the requests before that.
   */
  method PublishDomains(fabric: RackFabric, token: AuthorityToken, domains: seq<FailureDomainRecord>, now: i64)
    returns (log: seq<Attempt>, ordered: nat)
    requires fabric.state.Valid()
    modifies fabric.state
    ensures fabric.state.Valid()
    ensures fabric.state.Value() == At(fabric.env, old(fabric.state.Value()), Requests(token, log, now), |log|)
    ensures multiset(Domains(log)) == multiset(domains)
    ensures ordered <= |log| && ParentsFirst(log, ordered)
    ensures ordered < |log| ==>
              !ParentsListed(domains) || !Acyclic(ListGraph(domains)) || !AllAccepted(log, ordered)
    ensures Publishable(fabric.env, old(fabric.state.Value()), token, domains) ==>
              ordered == |log| && AllAccepted(log, |log|)
  {
    hide RackState.Valid, Acyclic, Tracks, ParentsFirst, Ready, ParentsListed, ListGraph, AllAccepted, Requests,
      Machine.At, Publishable, OnTrack, DomainStep, DomainsStructured;
    ghost var start := fabric.state.Value();
    StartsOnTrack(start);
    log := [];
    var pending, published := domains, {};
    Beginning(fabric.env, start, token, now);
    assert Domains([]) == [];
    while pending != []
      invariant fabric.state.Valid()
      invariant fabric.state.Value() == At(fabric.env, start, Requests(token, log, now), |log|)
      invariant multiset(Domains(log)) + multiset(pending) == multiset(domains)
      invariant ParentsFirst(log, |log|) && Tracks(log, published)
      invariant Publishable(fabric.env, start, token, domains) ==> OnTrack(start, log, fabric.state.Value())
      decreases |pending|
    {
      var progressed := false;
      var it := 0;
      ghost var before := pending;
      while it < |pending|
        invariant it <= |pending| <= |before| && (progressed ==> |pending| < |before|)
        invariant fabric.state.Valid()
        invariant fabric.state.Value() == At(fabric.env, start, Requests(token, log, now), |log|)
        invariant multiset(Domains(log)) + multiset(pending) == multiset(domains)
        invariant ParentsFirst(log, |log|) && Tracks(log, published)
        invariant Publishable(fabric.env, start, token, domains) ==> OnTrack(start, log, fabric.state.Value())
        invariant !progressed ==> pending == before && forall k :: 0 <= k < it ==> !Ready(pending[k], published)
        decreases |pending| - it
      {
        var d := pending[it];
        if !Ready(d, published) {
          it := it + 1;
        } else {
          log, published := RequestReady(fabric, token, d, log, published, now, start, domains, pending);
          Erased(pending, it);
          pending := pending[..it] + pending[it + 1..];
          progressed := true;
        }
      }
      if !progressed {
        NoProgressMeans(domains, log, pending, published);
        TrackMeans(fabric.env, start, token, domains, log, fabric.state.Value());
        ordered := |log|;
        log := PublishRest(fabric, token, log, pending, now, start, published);
        return;
      }
    }
    ordered := |log|;
    TrackMeans(fabric.env, start, token, domains, log, fabric.state.Value());
  }

  lemma ValidDomains(state: RackState)
    requires state.Valid()
    ensures DomainsStructured(state.Value().failureDomains)
  {
    hide RackState.Indexed, MembersStructured, RelationshipsStructured, DomainsStructured;
  }

  lemma TrackMeans(
    env: Env, start: Core, token: AuthorityToken, domains: seq<FailureDomainRecord>, log: seq<Attempt>, u: Core)
    requires Publishable(env, start, token, domains) ==> OnTrack(start, log, u)
    ensures Publishable(env, start, token, domains) ==>
              AllAccepted(log, |log|) && ParentsListed(domains) && Acyclic(ListGraph(domains))
  {
    hide AllAccepted, ParentsListed, Acyclic, ListGraph;
  }

  lemma Beginning(env: Env, start: Core, token: AuthorityToken, now: i64)
    ensures At(env, start, Requests(token, [], now), 0) == start
    ensures ParentsFirst([], 0) && Tracks([], {})
  {
  }

  lemma Erased(pending: seq<FailureDomainRecord>, it: nat)
    requires it < |pending|
    ensures multiset(pending) == multiset(pending[..it] + pending[it + 1..]) + multiset{pending[it]}
  {
    assert pending == pending[..it] + [pending[it]] + pending[it + 1..];
  }

  method PublishRest(
    fabric: RackFabric, token: AuthorityToken, log: seq<Attempt>, pending: seq<FailureDomainRecord>, now: i64,
    ghost start: Core, ghost published: set<Text>)
    returns (more: seq<Attempt>)
    requires fabric.state.Valid() && Tracks(log, published) && ParentsFirst(log, |log|)
    requires fabric.state.Value() == At(fabric.env, start, Requests(token, log, now), |log|)
    modifies fabric.state
    ensures fabric.state.Valid() && |log| <= |more| && more[..|log|] == log && ParentsFirst(more, |log|)
    ensures fabric.state.Value() == At(fabric.env, start, Requests(token, more, now), |more|)
    ensures multiset(Domains(more)) == multiset(Domains(log)) + multiset(pending)
    ensures AllAccepted(more, |log|) ==> AllAccepted(log, |log|)
  {
    hide RackState.Valid, Tracks, ParentsFirst, Requests, Machine.At, DomainStep;
    more := log;
    ghost var ids := published;
    assert pending[..0] == [];
    for i := 0 to |pending|
      invariant fabric.state.Valid() && |log| <= |more| && more[..|log|] == log
      invariant ParentsFirst(more, |log|) && Tracks(more, ids)
      invariant fabric.state.Value() == At(fabric.env, start, Requests(token, more, now), |more|)
      invariant multiset(Domains(more)) == multiset(Domains(log)) + multiset(pending[..i])
    {
      ghost var earlier := more;
      more := Request(fabric, token, pending[i], more, now, start);
      ghost var a := more[|more| - 1];
      LogGrows(earlier, a, ids, |log|);
      ids := if a.outcome.Accepted? then ids + {a.domain.id} else ids;
      assert pending[..i + 1] == pending[..i] + [pending[i]];
    }
    assert pending[..|pending|] == pending;
    assert forall i :: 0 <= i < |log| ==> more[i] == more[..|log|][i];
  }

  lemma InLogOrPending(
    domains: seq<FailureDomainRecord>, log: seq<Attempt>, pending: seq<FailureDomainRecord>, d: FailureDomainRecord)
    requires multiset(Domains(log)) + multiset(pending) == multiset(domains) && d in domains
    ensures d in pending || exists i :: 0 <= i < |log| && log[i].domain == d
  {
    assert d in multiset(domains);
    if d !in pending {
      assert d in multiset(Domains(log));
      assert d in Domains(log);
      var i :| 0 <= i < |log| && Domains(log)[i] == d;
    }
  }

  /** A pass without progress means a cycle, a missing parent, or a refused request. */
  lemma NoProgressMeans(
    domains: seq<FailureDomainRecord>, log: seq<Attempt>, pending: seq<FailureDomainRecord>, published: set<Text>)
    requires multiset(Domains(log)) + multiset(pending) == multiset(domains) && pending != []
    requires Tracks(log, published) && forall k :: 0 <= k < |pending| ==> !Ready(pending[k], published)
    ensures !ParentsListed(domains) || !Acyclic(ListGraph(domains)) || !AllAccepted(log, |log|)
  {
    if ParentsListed(domains) && AllAccepted(log, |log|) {
      var g := ListGraph(domains);
      var waiting := set d | d in pending :: d.id;
      forall v | v in waiting
        ensures exists w {:trigger (v, w) in g} :: w in waiting && (v, w) in g
      {
        var d :| d in pending && d.id == v;
        var w := BlockedBy(domains, log, pending, published, d);
        assert (v, w) in g;
      }
      assert pending[0].id in waiting;
      hide ListGraph;
      NoSinkIsCyclic(g, waiting);
    }
  }

  lemma BlockedBy(
    domains: seq<FailureDomainRecord>, log: seq<Attempt>, pending: seq<FailureDomainRecord>, published: set<Text>,
    d: FailureDomainRecord) returns (w: Text)
    requires multiset(Domains(log)) + multiset(pending) == multiset(domains) && d in pending
    requires Tracks(log, published) && !Ready(d, published)
    requires ParentsListed(domains) && AllAccepted(log, |log|)
    ensures d in domains && w in d.parents && exists q :: q in pending && q.id == w
  {
    assert d in multiset(domains);
    var i :| 0 <= i < |d.parents| && d.parents[i] !in published;
    w := d.parents[i];
    assert Listed(domains, w);
    var q :| q in domains && q.id == w;
    AcceptedIsPublished(log, published);
    InLogOrPending(domains, log, pending, q);
    assert q.id !in published;
  }

  lemma AcceptedIsPublished(log: seq<Attempt>, published: set<Text>)
    requires Tracks(log, published) && AllAccepted(log, |log|)
    ensures forall j :: 0 <= j < |log| ==> log[j].domain.id in published
  {
    forall j | 0 <= j < |log|
      ensures log[j].domain.id in published
    {
      assert AcceptedBefore(log, |log|, log[j].domain.id);
    }
  }

  ghost predicate UniqueIds(log: seq<Attempt>) {
    forall i, j :: 0 <= i < j < |log| ==> log[i].domain.id != log[j].domain.id
  }

  ghost function PlaceOf(log: seq<Attempt>, id: Text): int {
    if i :| 0 <= i < |log| && log[i].domain.id == id then i else -1
  }

  /** An order with parents first exists only for lists without missing parents and cycles. */
  lemma OrderedIsAcyclic(domains: seq<FailureDomainRecord>, log: seq<Attempt>)
    requires multiset(Domains(log)) == multiset(domains) && UniqueIds(log) && ParentsFirst(log, |log|)
    ensures ParentsListed(domains) && Acyclic(ListGraph(domains))
  {
    forall d, p | d in domains && p in d.parents
      ensures Listed(domains, p) && PlaceOf(log, p) < PlaceOf(log, d.id)
    {
      InLogOrPending(domains, log, [], d);
      var i :| 0 <= i < |log| && log[i].domain == d;
      assert AcceptedBefore(log, i, p);
      var j :| 0 <= j < i && log[j].outcome.Accepted? && log[j].domain.id == p;
      assert Domains(log)[j] == log[j].domain;
      assert log[j].domain in multiset(Domains(log));
      assert log[j].domain in domains;
    }
    RankedIsAcyclic(ListGraph(domains), (id: Text) => PlaceOf(log, id));
  }
}
