/** What a run does to the member buckets of failure domains: which members they miss, and which of them are gone. */
module Buckets {
  import opened Wrappers
  import opened Evidence
  import opened Model
  import opened Indexes
  import opened Machine
  import opened State

  // ----- One request -----

  function Children(members: map<MemberKey, MemberRecord>, parent: MemberKey): set<MemberKey> {
    set k | k in members && members[k].parent == Some(parent)
  }

  function OwnedBy(members: map<MemberKey, MemberRecord>, boots: set<Text>): set<MemberKey> {
    set k | k in members && members[k].ownerBoot.Some? && members[k].ownerBoot.value in boots
  }

  function Changed(m: map<MemberKey, MemberRecord>, n: map<MemberKey, MemberRecord>): set<MemberKey> {
    set k | k in n && (k !in m || n[k] != m[k])
  }

  function Expiring(s: Core, now: i64): set<Text> {
    set b | b in s.publishers && IsExpired(s.publishers[b], now)
  }

  /** The members a request lists anew: the one it changes, the children it detaches, those whose owner it fences. */
  function Touched(s: Core, e: Event, step: Step, now: i64): set<MemberKey> {
    match e
    case RevalidateMembers(_, _, _) => Changed(s.members, step.state.members)
    case ExpirePublishers => OwnedBy(s.members, Expiring(s, now))
    case _ => if step.outcome.Accepted? then TouchedIfAccepted(s, e) else {}
  }

  function TouchedIfAccepted(s: Core, e: Event): set<MemberKey> {
    match e
    case PublishMember(_, r, _, _) => {r.key}
    case PublishHealth(_, k, _, _, _, _) => {k}
    case PublishCapability(_, k, _) => {k}
    case WithdrawEvidence(_, k, _) => {k}
    case MarkUnavailable(_, k, _) => {k}
    case RetireMember(_, k) => Children(s.members, k) + {k}
    case FencePublisher(_, b, _) => if b.Some? then OwnedBy(s.members, {b.value}) else {}
    case _ => {}
  }

  /** The domain an accepted publication is about. */
  function PublishedDomains(e: Event, o: Outcome): set<Text> {
    if e.PublishFailureDomain? && o.Accepted? then {e.domain.id} else {}
  }

  function DroppedBuckets(s: Core, e: Event, o: Outcome): set<Text> {
    PublishedDomains(e, o) * s.failureDomains.Keys
  }

  /** The buckets follow the step. */
  ghost predicate Follows(
    s: Core, a: map<Text, set<MemberKey>>, e: Event, step: Step, now: i64, b: map<Text, set<MemberKey>>)
  {
    && Shifted(a, s.members, b, step.state.members, Touched(s, e, step, now), DroppedBuckets(s, e, step.outcome),
               PublishedDomains(e, step.outcome))
    && step.state.failureDomains.Keys == s.failureDomains.Keys + PublishedDomains(e, step.outcome)
  }

  lemma TouchesFollow(
    s: Core, a: map<Text, set<MemberKey>>, e: Event, step: Step, now: i64, b: map<Text, set<MemberKey>>,
    touched: set<MemberKey>)
    requires !e.PublishFailureDomain? && touched == Touched(s, e, step, now)
    requires Shifted(a, s.members, b, step.state.members, touched, {}, {})
    requires step.state.failureDomains.Keys == s.failureDomains.Keys
    ensures Follows(s, a, e, step, now, b)
  {
    hide Touched, Shifted;
    assert {} * s.failureDomains.Keys == {};
    assert s.failureDomains.Keys + {} == s.failureDomains.Keys;
  }

  lemma PublicationFollows(
    s: Core, a: map<Text, set<MemberKey>>, e: Event, step: Step, now: i64, b: map<Text, set<MemberKey>>)
    requires e.PublishFailureDomain? && step.state.members == s.members
    requires var id := e.domain.id;
             && Shifted(a, s.members, b, s.members, {},
                        if step.outcome.Accepted? && id in s.failureDomains then {id} else {},
                        if step.outcome.Accepted? then {id} else {})
             && step.state.failureDomains.Keys == s.failureDomains.Keys + if step.outcome.Accepted? then {id} else {}
    ensures Follows(s, a, e, step, now, b)
  {
    hide Shifted;
    assert DroppedBuckets(s, e, step.outcome)
        == if step.outcome.Accepted? && e.domain.id in s.failureDomains then {e.domain.id} else {};
  }

  // ----- Runs -----

  ghost function TouchedAt(env: Env, s: Core, run: seq<Timed>, i: nat): set<MemberKey>
    requires i < |run|
  {
    Touched(At(env, s, run, i), run[i].event, StepAt(env, s, run, i), run[i].now)
  }

  ghost function PublishedAt(env: Env, s: Core, run: seq<Timed>, i: nat): set<Text>
    requires i < |run|
  {
    PublishedDomains(run[i].event, StepAt(env, s, run, i).outcome)
  }

  /** The member names the domain. */
  ghost predicate NamesAt(env: Env, s: Core, run: seq<Timed>, n: nat, d: Text, k: MemberKey)
    requires n <= |run|
  {
    Refers(DomainRefs(At(env, s, run, n).members), k, d)
  }

  ghost predicate NamedAt(env: Env, s: Core, run: seq<Timed>, n: nat, d: Text)
    requires n <= |run|
  {
    IsNamed(At(env, s, run, n).members, d)
  }

  ghost predicate KnownAt(env: Env, s: Core, run: seq<Timed>, n: nat, d: Text)
    requires n <= |run|
  {
    d in At(env, s, run, n).failureDomains
  }

  /** The known domain was published again while the member named it, and the member was not touched since. */
  ghost predicate Forgotten(env: Env, s: Core, run: seq<Timed>, n: nat, d: Text, k: MemberKey)
    requires n <= |run|
  {
    exists i :: 0 <= i < n && ForgottenSince(env, s, run, i, n, d, k)
  }

  ghost predicate ForgottenSince(env: Env, s: Core, run: seq<Timed>, i: nat, n: nat, d: Text, k: MemberKey)
    requires i < n <= |run|
  {
    && d in PublishedAt(env, s, run, i) && KnownAt(env, s, run, i, d) && NamesAt(env, s, run, i, d, k)
    && forall m :: i < m < n ==> k !in TouchedAt(env, s, run, m)
  }

  /** The domain lost its last name, and was not published since. */
  ghost predicate Vanished(env: Env, s: Core, run: seq<Timed>, n: nat, d: Text)
    requires n <= |run|
  {
    exists i :: 0 <= i < n && VanishedSince(env, s, run, i, n, d)
  }

  ghost predicate VanishedSince(env: Env, s: Core, run: seq<Timed>, i: nat, n: nat, d: Text)
    requires i < n <= |run|
  {
    && NamedAt(env, s, run, i, d) && !NamedAt(env, s, run, i + 1, d)
    && forall m :: i < m < n ==> d !in PublishedAt(env, s, run, m)
  }

  /** No member is missing from a bucket. */
  ghost predicate NoneForgotten(env: Env, s: Core, run: seq<Timed>, n: nat)
    requires n <= |run|
  {
    forall d, k :: NamesAt(env, s, run, n, d, k) ==> !Forgotten(env, s, run, n, d, k)
  }

  /** Nor is a bucket of a known domain gone. */
  ghost predicate NothingLost(env: Env, s: Core, run: seq<Timed>, n: nat)
    requires n <= |run|
  {
    && NoneForgotten(env, s, run, n)
    && forall d :: KnownAt(env, s, run, n, d) && !NamedAt(env, s, run, n, d) ==> !Vanished(env, s, run, n, d)
  }

  /** The buckets miss exactly the forgotten members. */
  ghost predicate ListsAgree(env: Env, s: Core, run: seq<Timed>, n: nat, b: map<Text, set<MemberKey>>)
    requires n <= |run|
  {
    forall d, k {:trigger Listed(b, d, k)} {:trigger NamesAt(env, s, run, n, d, k)} ::
      NamesAt(env, s, run, n, d, k) ==> (Listed(b, d, k) <==> !Forgotten(env, s, run, n, d, k))
  }

  /** Of the buckets of domains that nobody names exactly the vanished ones are gone. */
  ghost predicate BucketsAgree(env: Env, s: Core, run: seq<Timed>, n: nat, b: map<Text, set<MemberKey>>)
    requires n <= |run|
  {
    forall d {:trigger NamedAt(env, s, run, n, d)} :: !NamedAt(env, s, run, n, d) ==>
      (d in b <==> KnownAt(env, s, run, n, d) && !Vanished(env, s, run, n, d))
  }

  lemma AgreeAtFirst(env: Env, s: Core, run: seq<Timed>, b: map<Text, set<MemberKey>>)
    ensures DomainComplete(b, s.members) ==> ListsAgree(env, s, run, 0, b)
    ensures ExactBuckets(b, s.members, s.failureDomains) ==> BucketsAgree(env, s, run, 0, b)
  {
    hide DomainRefs;
    if DomainComplete(b, s.members) {
      forall d, k | NamesAt(env, s, run, 0, d, k)
        ensures Listed(b, d, k)
      {
        assert Refers(DomainRefs(s.members), k, d);
      }
    }
  }

  /** Once more forgotten: by this request, or before it and untouched by it. */
  lemma ForgottenExtends(env: Env, s: Core, run: seq<Timed>, n: nat, d: Text, k: MemberKey)
    requires n < |run|
    ensures Forgotten(env, s, run, n + 1, d, k) <==>
              || (Forgotten(env, s, run, n, d, k) && k !in TouchedAt(env, s, run, n))
              || (d in PublishedAt(env, s, run, n) && KnownAt(env, s, run, n, d) && NamesAt(env, s, run, n, d, k))
  {
    hide TouchedAt, PublishedAt, KnownAt, NamesAt;
    if d in PublishedAt(env, s, run, n) && KnownAt(env, s, run, n, d) && NamesAt(env, s, run, n, d, k) {
      assert ForgottenSince(env, s, run, n, n + 1, d, k);
    }
    if i: nat :| i < n && ForgottenSince(env, s, run, i, n, d, k) {
      if k !in TouchedAt(env, s, run, n) {
        assert ForgottenSince(env, s, run, i, n + 1, d, k);
      }
    }
    var next: nat := n + 1;
    if i: nat :| i < next && ForgottenSince(env, s, run, i, next, d, k) {
      if i < n {
        assert ForgottenSince(env, s, run, i, n, d, k);
      }
    }
  }

  lemma VanishedExtends(env: Env, s: Core, run: seq<Timed>, n: nat, d: Text)
    requires n < |run|
    ensures Vanished(env, s, run, n + 1, d) <==>
              || (Vanished(env, s, run, n, d) && d !in PublishedAt(env, s, run, n))
              || (NamedAt(env, s, run, n, d) && !NamedAt(env, s, run, n + 1, d))
  {
    hide PublishedAt, NamedAt;
    if NamedAt(env, s, run, n, d) && !NamedAt(env, s, run, n + 1, d) {
      assert VanishedSince(env, s, run, n, n + 1, d);
    }
    if i: nat :| i < n && VanishedSince(env, s, run, i, n, d) {
      if d !in PublishedAt(env, s, run, n) {
        assert VanishedSince(env, s, run, i, n + 1, d);
      }
    }
    var next: nat := n + 1;
    if i: nat :| i < next && VanishedSince(env, s, run, i, next, d) {
      if i < n {
        assert VanishedSince(env, s, run, i, n, d);
      }
    }
  }

  /** What the step says, in terms of the run. */
  lemma FollowsAt(
    env: Env, s: Core, run: seq<Timed>, n: nat, a: map<Text, set<MemberKey>>, b: map<Text, set<MemberKey>>)
    requires n < |run|
    requires Follows(At(env, s, run, n), a, run[n].event, StepAt(env, s, run, n), run[n].now, b)
    ensures forall d, k {:trigger Listed(b, d, k)} {:trigger NamesAt(env, s, run, n + 1, d, k)} ::
              NamesAt(env, s, run, n + 1, d, k) ==>
                (Listed(b, d, k) <==>
                 || k in TouchedAt(env, s, run, n)
                 || (Listed(a, d, k) && !(d in PublishedAt(env, s, run, n) && KnownAt(env, s, run, n, d))))
    ensures forall d {:trigger NamedAt(env, s, run, n + 1, d)} :: !NamedAt(env, s, run, n + 1, d) ==>
              (d in b <==> d in PublishedAt(env, s, run, n) || (d in a && !NamedAt(env, s, run, n, d)))
    ensures forall d, k {:trigger NamesAt(env, s, run, n + 1, d, k)} :: k !in TouchedAt(env, s, run, n) ==>
              (NamesAt(env, s, run, n + 1, d, k) <==> NamesAt(env, s, run, n, d, k))
    ensures forall d {:trigger KnownAt(env, s, run, n + 1, d)} ::
              KnownAt(env, s, run, n + 1, d) <==> KnownAt(env, s, run, n, d) || d in PublishedAt(env, s, run, n)
  {
    hide Apply, DomainRefs, IsNamed, Touched;
    assert At(env, s, run, n + 1) == StepAt(env, s, run, n).state;
    forall d
      ensures KnownAt(env, s, run, n + 1, d) <==> KnownAt(env, s, run, n, d) || d in PublishedAt(env, s, run, n)
    {
      assert d in At(env, s, run, n + 1).failureDomains.Keys <==>
        d in At(env, s, run, n).failureDomains.Keys + PublishedAt(env, s, run, n);
    }
  }

  lemma PublicationTouchesNobody(env: Env, s: Core, run: seq<Timed>, n: nat, d: Text)
    requires n < |run| && d in PublishedAt(env, s, run, n)
    ensures TouchedAt(env, s, run, n) == {}
  {
    hide Apply;
  }

  lemma ListsAgreeNext(
    env: Env, s: Core, run: seq<Timed>, n: nat, a: map<Text, set<MemberKey>>, b: map<Text, set<MemberKey>>)
    requires n < |run| && ListsAgree(env, s, run, n, a)
    requires Follows(At(env, s, run, n), a, run[n].event, StepAt(env, s, run, n), run[n].now, b)
    ensures ListsAgree(env, s, run, n + 1, b)
  {
    hide Apply, Follows, TouchedAt, PublishedAt, KnownAt, NamesAt, NamedAt, Forgotten;
    FollowsAt(env, s, run, n, a, b);
    forall d, k | NamesAt(env, s, run, n + 1, d, k)
      ensures Listed(b, d, k) <==> !Forgotten(env, s, run, n + 1, d, k)
    {
      ForgottenExtends(env, s, run, n, d, k);
      if d in PublishedAt(env, s, run, n) {
        PublicationTouchesNobody(env, s, run, n, d);
      }
      assert k !in TouchedAt(env, s, run, n) ==> NamesAt(env, s, run, n, d, k);
      assert Listed(b, d, k) <==>
        || k in TouchedAt(env, s, run, n)
        || (Listed(a, d, k) && !(d in PublishedAt(env, s, run, n) && KnownAt(env, s, run, n, d)));
    }
  }

  lemma BucketsAgreeNext(
    env: Env, s: Core, run: seq<Timed>, n: nat, a: map<Text, set<MemberKey>>, b: map<Text, set<MemberKey>>)
    requires n < |run| && BucketsAgree(env, s, run, n, a)
    requires Follows(At(env, s, run, n), a, run[n].event, StepAt(env, s, run, n), run[n].now, b)
    ensures BucketsAgree(env, s, run, n + 1, b)
  {
    hide Apply, Follows, TouchedAt, PublishedAt, KnownAt, NamesAt, NamedAt, Vanished;
    FollowsAt(env, s, run, n, a, b);
    forall d | !NamedAt(env, s, run, n + 1, d)
      ensures d in b <==> KnownAt(env, s, run, n + 1, d) && !Vanished(env, s, run, n + 1, d)
    {
      VanishedExtends(env, s, run, n, d);
      assert KnownAt(env, s, run, n + 1, d) <==> KnownAt(env, s, run, n, d) || d in PublishedAt(env, s, run, n);
      if d in PublishedAt(env, s, run, n) {
        UntouchedNames(env, s, run, n, d, a, b);
      }
    }
  }

  /** The publication of a domain leaves who names it as it was. */
  lemma UntouchedNames(
    env: Env, s: Core, run: seq<Timed>, n: nat, d: Text, a: map<Text, set<MemberKey>>, b: map<Text, set<MemberKey>>)
    requires n < |run| && d in PublishedAt(env, s, run, n)
    requires Follows(At(env, s, run, n), a, run[n].event, StepAt(env, s, run, n), run[n].now, b)
    ensures NamedAt(env, s, run, n + 1, d) <==> NamedAt(env, s, run, n, d)
  {
    hide Apply, Follows, TouchedAt, PublishedAt, DomainRefs;
    FollowsAt(env, s, run, n, a, b);
    PublicationTouchesNobody(env, s, run, n, d);
    if NamedAt(env, s, run, n, d) {
      var k :| Refers(DomainRefs(At(env, s, run, n).members), k, d);
      assert NamesAt(env, s, run, n, d, k);
      assert NamesAt(env, s, run, n + 1, d, k);
    }
    if NamedAt(env, s, run, n + 1, d) {
      var k :| Refers(DomainRefs(At(env, s, run, n + 1).members), k, d);
      assert NamesAt(env, s, run, n + 1, d, k);
      assert NamesAt(env, s, run, n, d, k);
    }
  }

  /** Buckets that agree with the run are complete exactly when no member is forgotten. */
  lemma CompleteIffNoneForgotten(env: Env, s: Core, run: seq<Timed>, n: nat, b: map<Text, set<MemberKey>>)
    requires n <= |run| && ListsAgree(env, s, run, n, b)
    ensures DomainComplete(b, At(env, s, run, n).members) <==> NoneForgotten(env, s, run, n)
  {
    hide Apply, At, DomainRefs, Forgotten;
    var t := At(env, s, run, n);
    if DomainComplete(b, t.members) {
      forall d, k | NamesAt(env, s, run, n, d, k)
        ensures !Forgotten(env, s, run, n, d, k)
      {
        assert Refers(DomainRefs(t.members), k, d);
        assert Listed(b, d, k);
      }
    }
    if NoneForgotten(env, s, run, n) {
      forall d, k | Refers(DomainRefs(t.members), k, d)
        ensures Listed(b, d, k)
      {
        assert NamesAt(env, s, run, n, d, k);
      }
    }
  }

  /** They are exact exactly when nothing is lost. */
  lemma ExactIffNothingLost(env: Env, s: Core, run: seq<Timed>, n: nat, b: map<Text, set<MemberKey>>)
    requires n <= |run| && ListsAgree(env, s, run, n, b) && BucketsAgree(env, s, run, n, b)
    requires DomainSound(b, At(env, s, run, n).members)
    ensures ExactBuckets(b, At(env, s, run, n).members, At(env, s, run, n).failureDomains) <==>
              NothingLost(env, s, run, n)
  {
    hide Apply, At, DomainRefs, DomainSound, ListsAgree, NoneForgotten, Vanished;
    CompleteIffNoneForgotten(env, s, run, n, b);
    var t := At(env, s, run, n);
    if ExactBuckets(b, t.members, t.failureDomains) {
      forall d | KnownAt(env, s, run, n, d) && !NamedAt(env, s, run, n, d)
        ensures !Vanished(env, s, run, n, d)
      {
        assert d in b;
      }
    }
    if NothingLost(env, s, run, n) {
      forall d
        ensures d in b <==> d in t.failureDomains || exists k :: Refers(DomainRefs(t.members), k, d)
      {
        if k :| Refers(DomainRefs(t.members), k, d) {
          assert Listed(b, d, k);
          assert NamedAt(env, s, run, n, d);
        } else {
          assert !NamedAt(env, s, run, n, d);
        }
      }
    }
  }
}
