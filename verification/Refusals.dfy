/** Why a request is refused, and why not: every outcome of every request, from the records it finds. */
module Refusals {
  import opened Wrappers
  import opened Evidence
  import opened Model
  import opened Graph
  import opened RackReadiness
  import opened Machine
  import opened Runs
  import opened Contents
  import opened Processes
  import opened Declarations

  // ----- Validity -----

  /** The fields of a double: a sign, an exponent of 11 bits and a fraction of 52. */
  lemma DoublesMean(sign: nat, exponent: nat, fraction: nat, bits: u64)
    requires sign < 2 && exponent < 2048 && fraction < 0x10_0000_0000_0000
    requires bits == sign * 0x8000_0000_0000_0000 + exponent * 0x10_0000_0000_0000 + fraction
    ensures IsFinite(bits) <==> exponent != 2047
    ensures IsNotANumber(bits) <==> exponent == 2047 && fraction != 0
    ensures IsNegative(bits) <==> sign == 1 && !(exponent == 0 && fraction == 0)
  {
    assert bits / 0x10_0000_0000_0000 == sign * 2048 + exponent;
    assert bits % 0x10_0000_0000_0000 == fraction;
  }

  /** A quantity is valid when it is finite, not negative and in the unit asked for, and so is its margin. */
  lemma QuantitiesMean(q: Quantity, unit: QuantityUnit)
    ensures ValidQuantity(q, unit) <==>
              && q.unit == unit && !unit.NoUnit? && ValidEvidence(q.stamp) && IsFinite(q.value) && !IsNegative(q.value)
              && (q.uncertainty.None? || (IsFinite(q.uncertainty.value) && !IsNegative(q.uncertainty.value)))
  {
  }

  /** Valid evidence says when it was made exactly when it is evidence, and lives for a day at most. */
  lemma StampsMean(stamp: Stamp)
    ensures ValidEvidence(stamp) <==>
              && (stamp.provenance.Unknown? <==> stamp.observedAt <= 0)
              && (stamp.ttl == 0 ==> stamp.durability.Durable?) && 0 <= stamp.ttl <= 24 * 60 * 60 * 1000
  {
  }

  /** Valid evidence is fresh when it is made; what is not durable for good has faded a day later. */
  lemma ValidEvidenceFades(stamp: Stamp, at: i64)
    requires ValidEvidence(stamp) && !stamp.provenance.Unknown? && !stamp.revalidationRequired
    ensures stamp.IsFreshAt(stamp.observedAt)
    ensures at > stamp.observedAt + 24 * 60 * 60 * 1000 ==> (stamp.IsFreshAt(at) <==> stamp.ttl == 0)
  {
    FreshnessWindow(stamp, stamp.observedAt);
    FreshnessWindow(stamp, at);
  }

  /** What a record must be to be published, part by part. */
  lemma RecordsMean(r: MemberRecord, limits: Limits)
    ensures ValidMemberRecord(r, limits) <==>
              && IsIdentity(r.key.id) && (r.details.NoDetails? || r.details.kind == r.key.kind)
              && (r.source.None? || IsLabel(r.source.value))
              && |r.failureDomains| <= limits.maxFailureDomainsPerMember
              && |r.capabilities| <= limits.maxCapabilitiesPerMember
              && ValidEvidence(r.stamp) && (r.lifecycle.Present? ==> !r.stamp.provenance.Unknown?)
              && (forall o :: o in {r.health.stamp, r.readiness.stamp, r.reachability.stamp} ==>
                    o.provenance.Unknown? || ValidEvidence(o))
              && forall c :: c in r.capabilities ==>
                   IsIdentity(c.id) && (c.value.None? || IsLabel(c.value.value)) && ValidEvidence(c.stamp)
  {
    hide ValidEvidence, IsIdentity, IsLabel;
    assert forall c :: c in r.capabilities <==> exists i :: 0 <= i < |r.capabilities| && r.capabilities[i] == c;
  }

  /** An identity can be a file name: it has no separator, space or control character, and never goes up a directory. */
  lemma IdentitiesAreNames(id: Text)
    requires IsIdentity(id)
    ensures 0 < |id| <= 128
    ensures forall c :: c in id ==>
              0x20 < c < 0x7F && c != 0x2F && c != 0x5C && c != 0x22 && c != 0x27 && c != 0x2A && c != 0x3F
    ensures id != [0x2E] && forall i :: 0 <= i < |id| - 1 ==> !(id[i] == 0x2E && id[i + 1] == 0x2E)
  {
    forall c | c in id
      ensures IsIdentityChar(c)
    {
      var i :| 0 <= i < |id| && id[i] == c;
    }
  }

  /** Letters, digits, hyphens and underscores, up to 128 of them, always make an identity. */
  lemma NamesAreIdentities(id: Text)
    requires 0 < |id| <= 128
    requires forall c :: c in id ==>
               0x30 <= c <= 0x39 || 0x41 <= c <= 0x5A || 0x61 <= c <= 0x7A || c == 0x2D || c == 0x5F
    ensures IsIdentity(id)
  {
    forall i | 0 <= i < |id|
      ensures IsIdentityChar(id[i]) && id[i] != 0x2E
    {
      assert id[i] in id;
    }
    assert id[0] != 0x2E;
  }

  /** A label is one line of printable characters. */
  lemma LabelsArePrintable(text: Text)
    ensures IsLabel(text) <==> 1 <= |text| <= 128 && forall c :: c in text ==> 0x20 <= c < 0x7F
  {
    if IsLabel(text) {
      forall c | c in text
        ensures 0x20 <= c < 0x7F
      {
        var i :| 0 <= i < |text| && text[i] == c;
      }
    }
    assert forall i :: 0 <= i < |text| ==> text[i] in text;
  }

  // ----- Authority -----

  /** The token speaks for the present: its epoch, its rack, its process and the publication it last saw. */
  predicate TokenCause(s: Core, token: AuthorityToken, rackScoped: bool, o: Outcome) {
    var known := token.boot.Some? && token.boot.value in s.publishers;
    match o
    case RejectStaleCoordinatorEpoch =>
      || token.coordinatorEpoch != s.generations.coordinatorEpoch
      || (known && s.publishers[token.boot.value].coordinatorEpoch != s.generations.coordinatorEpoch)
    case RejectUnknownRack =>
      rackScoped && (s.rack.None? || (token.rack.Some? && token.rack.value != s.rack.value.id))
    case RejectInvalidInput => rackScoped && token.rack.None?
    case RejectRackRetired => s.rack.Some? && s.rack.value.retired
    case RejectStaleWorkerBoot =>
      || (token.boot.Some? && token.boot.value in s.fencedBoots)
      || (known && (s.publishers[token.boot.value].state.Lost? || s.publishers[token.boot.value].state.Fenced?))
    case RejectNotRegistered => token.boot.Some? && !known
    case RejectStaleGeneration =>
      known && token.publicationGeneration.Some?
      && token.publicationGeneration.value < s.publishers[token.boot.value].publicationGeneration
    case RejectConflict =>
      known && token.publicationGeneration.Some?
      && token.publicationGeneration.value > s.publishers[token.boot.value].publicationGeneration
    case _ => false
  }

  /** A request is granted its authority exactly when nothing speaks against its token. */
  lemma GrantedIff(s: Core, token: AuthorityToken, rackScoped: bool)
    ensures var a := CheckAuthority(s, token, rackScoped);
            && (a.Granted? ==> a.publisher == token.boot && forall o :: !TokenCause(s, token, rackScoped, o))
            && (a.Denied? ==> a.outcome.IsRejection() && TokenCause(s, token, rackScoped, a.outcome))
  {
  }

  /** Somebody else's: an operator may change anything, a process what is its own or nobody's. */
  predicate IsForeign(owner: Option<Text>, token: AuthorityToken) {
    owner.Some? && token.boot.Some? && owner != token.boot
  }

  // ----- Members -----

  predicate SameBesidesCounters(a: MemberRecord, b: MemberRecord) {
    a == b.(generation := a.generation, publicationGeneration := a.publicationGeneration)
  }

  /** The publication only repeats what is stored: it names no generation, or the present one, and nothing is new. */
  predicate Repeats(stored: MemberRecord, e: Event)
    requires e.PublishMember?
  {
    && e.expectedGeneration.None? && (e.record.generation == 0 || e.record.generation == stored.generation)
    && SameBesidesCounters(e.record, stored)
  }

  ghost predicate MemberCause(s: Core, limits: Limits, e: Event, o: Outcome)
    requires e.PublishMember?
  {
    var r := e.record;
    var known := r.key in s.members;
    || TokenCause(s, e.authority, true, o)
    || match o
       case RejectInvalidInput => !ValidMemberRecord(r, limits)
       case RejectNotAuthorized =>
         IsForeign(r.ownerBoot, e.authority) || (known && IsForeign(s.members[r.key].ownerBoot, e.authority))
       case RejectLimitExceeded =>
         || (!known && |s.members| >= limits.maxMembers)
         || (known && s.members[r.key].generation == U64_MAX && !Repeats(s.members[r.key], e))
       case RejectRetired => known && s.members[r.key].lifecycle.Retired? && !r.lifecycle.Retired?
       case RejectStaleGeneration =>
         known
         && (if e.expectedGeneration.Some? then e.expectedGeneration.value < s.members[r.key].generation
             else 0 < r.generation < s.members[r.key].generation)
       case RejectConflict =>
         known
         && (if e.expectedGeneration.Some? then e.expectedGeneration.value > s.members[r.key].generation
             else
               || (0 < r.generation == s.members[r.key].generation && !SameBesidesCounters(r, s.members[r.key]))
               || (r.generation > s.members[r.key].generation + 1 && !e.supersede))
       case RejectInvalidRelationship =>
         r.parent.Some? && !(known && Repeats(s.members[r.key], e))
         && (r.parent.value == r.key || Reaches(ParentGraph(s.members), r.parent.value, r.key))
       case RejectUnknownParent => !(known && Repeats(s.members[r.key], e)) && !KnowsReferences(s, r)
       case _ => false
  }

  /** Everything the record refers to is there. */
  predicate KnowsReferences(s: Core, r: MemberRecord) {
    && (r.parent.Some? ==> r.parent.value in s.members)
    && (forall d :: d in r.failureDomains ==> d in s.failureDomains)
    && (r.powerDomain.Some? ==> MemberKey(MemberKind.PowerDomain, r.powerDomain.value) in s.members)
    && (r.coolingDomain.Some? ==> MemberKey(MemberKind.CoolingDomain, r.coolingDomain.value) in s.members)
    && (r.switchDomain.Some? ==> MemberKey(MemberKind.Switch, r.switchDomain.value) in s.members)
  }

  lemma ReplacementMeans(s: Core, limits: Limits, e: Event)
    requires e.PublishMember? && e.record.key in s.members
    ensures var o, stored := JudgeReplacement(s.members[e.record.key], e), s.members[e.record.key];
            && (o.NoChange? ==> Repeats(stored, e))
            && (o.Accepted? ==> !Repeats(stored, e))
            && (o.IsRejection() ==> MemberCause(s, limits, e, o))
            && (!o.IsRejection() ==>
                  && !IsForeign(stored.ownerBoot, e.authority) && !(stored.lifecycle.Retired?
                    && !e.record.lifecycle.Retired?)
                  && forall c: Outcome :: c.RejectStaleGeneration? || c.RejectConflict? ==>
                       MemberCause(s, limits, e, c) ==> TokenCause(s, e.authority, true, c))
  {
    hide TokenCause, ValidMemberRecord, KnowsReferences, Reaches, ParentGraph;
  }

  lemma ReferencesMean(s: Core, r: MemberRecord)
    ensures var o := JudgeReferences(s, r);
            && (o.Accepted? <==>
                  && KnowsReferences(s, r)
                  && !(r.parent.Some? && (r.parent.value == r.key
                    || Reaches(ParentGraph(s.members), r.parent.value, r.key))))
            && (o.RejectUnknownParent? ==> !KnowsReferences(s, r))
            && (o.RejectInvalidRelationship? ==>
                  r.parent.Some? && (r.parent.value == r.key || Reaches(ParentGraph(s.members), r.parent.value, r.key)))
            && (o.Accepted? || o.RejectUnknownParent? || o.RejectInvalidRelationship?)
  {
    hide Reaches, ParentGraph;
    assert (exists i :: 0 <= i < |r.failureDomains| && r.failureDomains[i] !in s.failureDomains) <==>
             !(forall d :: d in r.failureDomains ==> d in s.failureDomains);
  }

  /** The outcome of a publication of a member: refused for a cause, idle when it repeats, and accepted otherwise. */
  lemma MemberOutcome(s: Core, limits: Limits, e: Event)
    requires e.PublishMember?
    ensures var o := PublishMemberStep(s, limits, e).outcome;
            && (o.IsRejection() ==> MemberCause(s, limits, e, o))
            && (!o.IsRejection() ==> forall c :: !MemberCause(s, limits, e, c))
            && (o.NoChange? <==> !o.IsRejection() && e.record.key in s.members && Repeats(s.members[e.record.key], e))
  {
    hide CheckAuthority, TokenCause, ValidMemberRecord, KnowsReferences, Reaches, ParentGraph, JudgeReplacement,
      JudgeReferences, Repeats, SameBesidesCounters, CommitMember, WithoutLiveEvidence, NoteRejection;
    GrantedIff(s, e.authority, true);
    ReferencesMean(s, Normalized(e.record));
    NormalizedRefersAlike(s, e.record);
    if e.record.key in s.members {
      ReplacementMeans(s, limits, e);
    }
    hide Normalized;
  }

  lemma NormalizedRefersAlike(s: Core, r: MemberRecord)
    ensures Normalized(r).key == r.key && Normalized(r).parent == r.parent
    ensures KnowsReferences(s, Normalized(r)) <==> KnowsReferences(s, r)
  {
  }

  /** What can speak against a change of one known member, besides the token. */
  predicate TargetCause(s: Core, token: AuthorityToken, k: MemberKey, o: Outcome) {
    match o
    case RejectUnknownMember => k !in s.members
    case RejectNotAuthorized => k in s.members && IsForeign(s.members[k].ownerBoot, token)
    case _ => false
  }

  predicate HealthCause(s: Core, e: Event, o: Outcome)
    requires e.PublishHealth?
  {
    || TokenCause(s, e.authority, true, o) || TargetCause(s, e.authority, e.member, o)
    || match o
       case RejectStaleGeneration =>
         e.member in s.members && e.expectedGeneration.Some?
           && e.expectedGeneration.value < s.members[e.member].generation
       case RejectInvalidInput =>
         !ValidEvidence(e.health.stamp) || (e.publishReadiness && !ValidEvidence(e.readiness.stamp))
       case RejectLimitExceeded => e.member in s.members && s.members[e.member].generation == U64_MAX
       case _ => false
  }

  lemma HealthOutcome(s: Core, e: Event)
    requires e.PublishHealth?
    ensures var o := HealthStep(s, e).outcome;
            && (o.IsRejection() ==> HealthCause(s, e, o))
            && (!o.IsRejection() ==> o.Accepted? && forall c :: !HealthCause(s, e, c))
  {
    hide CheckAuthority, TokenCause, ValidEvidence, NextHealth, Update, AdvancePublication, NoteRejection;
    GrantedIff(s, e.authority, true);
  }

  /** The capability is listed already, word for word, and confirmed. */
  predicate IsListed(cs: seq<CapabilityRef>, c: CapabilityRef) {
    exists i :: 0 <= i < |cs| && cs[i] == c.(stamp := c.stamp.(revalidationRequired := false))
                && forall j :: 0 <= j < i ==> cs[j].id != c.id
  }

  predicate CapabilityCause(s: Core, limits: Limits, e: Event, o: Outcome)
    requires e.PublishCapability?
  {
    || TokenCause(s, e.authority, true, o) || TargetCause(s, e.authority, e.member, o)
    || match o
       case RejectInvalidInput => e.capability.None? || !ValidCapability(e.capability.value)
       case RejectLimitExceeded =>
         e.member in s.members && e.capability.Some?
         && var r, c := s.members[e.member], e.capability.value;
            && !IsListed(r.capabilities, c)
            && (|| r.generation == U64_MAX
                || (|r.capabilities| >= limits.maxCapabilitiesPerMember
                  && forall d :: d in r.capabilities ==> d.id != c.id))
       case _ => false
  }

  lemma ListingMeans(cs: seq<CapabilityRef>, c: CapabilityRef)
    ensures var i := CapabilityIndex(cs, c.id);
            && (i == |cs| <==> forall d :: d in cs ==> d.id != c.id)
            && (IsListed(cs, c) <==> i < |cs| && cs[i] == Refreshed(c))
  {
  }

  lemma CapabilityOutcome(s: Core, limits: Limits, e: Event)
    requires e.PublishCapability?
    ensures var o := CapabilityStep(s, limits, e).outcome;
            && (o.IsRejection() ==> CapabilityCause(s, limits, e, o))
            && (!o.IsRejection() ==> forall c :: !CapabilityCause(s, limits, e, c))
            && (o.NoChange? <==>
                  && !o.IsRejection() && e.member in s.members && e.capability.Some?
                  && IsListed(s.members[e.member].capabilities, e.capability.value))
  {
    hide CheckAuthority, TokenCause, ValidCapability, NextCapabilities, Update, AdvancePublication, NoteRejection,
      IsListed;
    GrantedIff(s, e.authority, true);
    if e.member in s.members && e.capability.Some? {
      ListingMeans(s.members[e.member].capabilities, e.capability.value);
    }
    hide CapabilityIndex;
  }

  predicate WithdrawalCause(s: Core, e: Event, o: Outcome)
    requires e.WithdrawEvidence?
  {
    || TokenCause(s, e.authority, true, o) || TargetCause(s, e.authority, e.member, o)
    || (o.RejectLimitExceeded? && e.member in s.members && s.members[e.member].generation == U64_MAX)
  }

  predicate UnavailabilityCause(s: Core, e: Event, o: Outcome)
    requires e.MarkUnavailable?
  {
    || TokenCause(s, e.authority, true, o) || TargetCause(s, e.authority, e.member, o)
    || (e.member in s.members
        && var r := s.members[e.member];
           || (o.RejectRetired? && r.lifecycle.Retired?)
           || (o.RejectLimitExceeded? && r.generation == U64_MAX && !r.lifecycle.Unavailable?))
  }

  /** No owner is asked: whoever has authority may retire any member. */
  predicate RetirementCause(s: Core, e: Event, o: Outcome)
    requires e.RetireMember?
  {
    || TokenCause(s, e.authority, true, o)
    || (o.RejectUnknownMember? && e.member !in s.members)
    || (o.RejectLimitExceeded? && e.member in s.members && s.members[e.member].generation == U64_MAX
        && !s.members[e.member].lifecycle.Retired?)
  }

  lemma ChangeOutcomes(s: Core, e: Event)
    ensures e.WithdrawEvidence? ==>
              var o := WithdrawStep(s, e).outcome;
              && (o.IsRejection() ==> WithdrawalCause(s, e, o))
              && (!o.IsRejection() ==> o.Accepted? && forall c :: !WithdrawalCause(s, e, c))
    ensures e.MarkUnavailable? ==>
              var o := MarkUnavailableStep(s, e).outcome;
              && (o.IsRejection() ==> UnavailabilityCause(s, e, o))
              && (!o.IsRejection() ==> forall c :: !UnavailabilityCause(s, e, c))
              && (o.NoChange? <==>
                    !o.IsRejection() && e.member in s.members && s.members[e.member].lifecycle.Unavailable?)
    ensures e.RetireMember? ==>
              var o := RetireMemberStep(s, e).outcome;
              && (o.IsRejection() ==> RetirementCause(s, e, o))
              && (!o.IsRejection() ==> forall c :: !RetirementCause(s, e, c))
              && (o.NoChange? <==> !o.IsRejection() && e.member in s.members && s.members[e.member].lifecycle.Retired?)
  {
    hide CheckAuthority, TokenCause, Withdrawn, MadeUnavailable, RetiredMember, Retirement, Update, AdvancePublication,
      NoteRejection;
    if e.WithdrawEvidence? || e.MarkUnavailable? || e.RetireMember? {
      GrantedIff(s, e.authority, true);
    }
  }

  // ----- Topology -----

  ghost predicate RelationshipCause(s: Core, limits: Limits, e: Event, o: Outcome)
    requires e.PublishRelationship?
  {
    var r := e.relationship.(key := Canonical(e.relationship.key));
    var known := r.key in s.relationships;
    || TokenCause(s, e.authority, true, o)
    || match o
       case RejectInvalidRelationship =>
         || r.key.from == r.key.to
         || (r.key.cls.Contains?
             && (|| Reaches(ParentGraph(s.members), r.key.from, r.key.to)
                 || Reaches(ContainsGraph(s.relationships), r.key.from, r.key.to)))
       case RejectInvalidInput =>
         !ValidEvidence(r.stamp) || (r.capacity.Some? && !ValidQuantity(r.capacity.value, r.capacity.value.unit))
       case RejectUnknownParent => r.key.from !in s.members || r.key.to !in s.members
       case RejectNotAuthorized => known && IsForeign(s.relationships[r.key].ownerBoot, e.authority)
       case RejectStaleGeneration =>
         known
         && (|| (e.expectedGeneration.Some? && e.expectedGeneration.value < s.generations.topology)
             || 0 < r.generation < s.relationships[r.key].generation)
       case RejectLimitExceeded =>
         || (!known && |s.relationships| >= limits.maxRelationships)
         || (s.generations.topology == U64_MAX && !RepeatsRelationship(s, e))
       case _ => false
  }

  predicate RepeatsRelationship(s: Core, e: Event)
    requires e.PublishRelationship?
  {
    var r := e.relationship.(key := Canonical(e.relationship.key));
    r.key in s.relationships && s.relationships[r.key] == r.(generation := s.relationships[r.key].generation)
  }

  lemma RelationshipOutcome(s: Core, limits: Limits, e: Event)
    requires e.PublishRelationship?
    ensures var o := RelationshipStep(s, limits, e).outcome;
            && (o.IsRejection() ==> RelationshipCause(s, limits, e, o))
            && (!o.IsRejection() ==> forall c :: !RelationshipCause(s, limits, e, c))
            && (o.NoChange? <==> !o.IsRejection() && RepeatsRelationship(s, e))
  {
    hide CheckAuthority, TokenCause, ValidEvidence, ValidQuantity, Reaches, ParentGraph, ContainsGraph, Canonical,
      CommitRelationship, NoteRejection;
    GrantedIff(s, e.authority, true);
  }

  predicate UnrelationCause(s: Core, e: Event, o: Outcome)
    requires e.WithdrawRelationship?
  {
    || TokenCause(s, e.authority, true, o)
    || (o.RejectNotAuthorized? && Canonical(e.key) in s.relationships
        && IsForeign(s.relationships[Canonical(e.key)].ownerBoot, e.authority))
  }

  lemma UnrelationOutcome(s: Core, e: Event)
    requires e.WithdrawRelationship?
    ensures var o := WithdrawRelationshipStep(s, e).outcome;
            && (o.IsRejection() ==> UnrelationCause(s, e, o))
            && (!o.IsRejection() ==> forall c :: !UnrelationCause(s, e, c))
            && (o.NoChange? <==> !o.IsRejection() && Canonical(e.key) !in s.relationships)
  {
    hide CheckAuthority, TokenCause, Canonical, AdvancePublication, WithoutRelationship, NoteRejection;
    GrantedIff(s, e.authority, true);
  }

  ghost predicate DomainCause(s: Core, limits: Limits, e: Event, o: Outcome)
    requires e.PublishFailureDomain?
  {
    var d := e.domain;
    var known := d.id in s.failureDomains;
    || TokenCause(s, e.authority, true, o)
    || match o
       case RejectInvalidInput =>
         !IsIdentity(d.id) || (d.labelText.Some? && !IsLabel(d.labelText.value)) || !ValidEvidence(d.stamp)
       case RejectInvalidRelationship =>
         exists p :: p in d.parents && (p == d.id || Reaches(DomainGraph(s.failureDomains), p, d.id))
       case RejectUnknownParent => exists p :: p in d.parents && p !in s.failureDomains
       case RejectRetired => known && s.failureDomains[d.id].lifecycle.Retired? && !d.lifecycle.Retired?
       case RejectNotAuthorized => known && IsForeign(s.failureDomains[d.id].ownerBoot, e.authority)
       case RejectStaleGeneration =>
         known
         && (|| (e.expectedGeneration.Some? && e.expectedGeneration.value < s.generations.failureDomains)
             || 0 < d.generation < s.failureDomains[d.id].generation)
       case RejectLimitExceeded =>
         || (!known && |s.failureDomains| >= limits.maxFailureDomains)
         || (s.generations.failureDomains == U64_MAX && !RepeatsDomain(s, e))
       case _ => false
  }

  ghost predicate RepeatsDomain(s: Core, e: Event)
    requires e.PublishFailureDomain?
  {
    var d := UniqueParents(e.domain);
    d.id in s.failureDomains && s.failureDomains[d.id] == d.(generation := s.failureDomains[d.id].generation)
  }

  ghost predicate CanBeParent(domains: map<Text, FailureDomainRecord>, id: Text, p: Text) {
    p in domains && p != id && !Reaches(DomainGraph(domains), p, id)
  }

  lemma {:induction false} ParentsMean(domains: map<Text, FailureDomainRecord>, id: Text, parents: seq<Text>)
    ensures var o := JudgeParents(domains, id, parents);
            && (o.Accepted? ==> forall p :: p in parents ==> CanBeParent(domains, id, p))
            && (o.RejectUnknownParent? ==> exists p :: p in parents && p !in domains)
            && (o.RejectInvalidRelationship? ==>
                  exists p :: p in parents && (p == id || Reaches(DomainGraph(domains), p, id)))
            && (o.Accepted? || o.RejectUnknownParent? || o.RejectInvalidRelationship?)
    decreases |parents|
  {
    hide Reaches, DomainGraph;
    if parents != [] {
      var rest := JudgeParents(domains, id, parents[1..]);
      ParentsMean(domains, id, parents[1..]);
      assert parents[0] in parents;
      assert forall p :: p in parents ==> p == parents[0] || p in parents[1..];
      if CanBeParent(domains, id, parents[0]) && rest.RejectInvalidRelationship? {
        var p :| p in parents[1..] && (p == id || Reaches(DomainGraph(domains), p, id));
        assert p in parents;
      }
    }
  }

  lemma DomainOutcome(s: Core, limits: Limits, e: Event)
    requires e.PublishFailureDomain?
    ensures var o := DomainStep(s, limits, e).outcome;
            && (o.IsRejection() ==> DomainCause(s, limits, e, o))
            && (!o.IsRejection() ==> forall c :: !DomainCause(s, limits, e, c))
            && (o.NoChange? <==> !o.IsRejection() && RepeatsDomain(s, e))
  {
    hide CheckAuthority, TokenCause, ValidEvidence, Reaches, DomainGraph, IsIdentity, IsLabel, UniqueParents,
      JudgeParents,
      CommitDomain, NoteRejection;
    GrantedIff(s, e.authority, true);
    ParentsOnceInOrder(e.domain);
    ParentsMean(s.failureDomains, e.domain.id, UniqueParents(e.domain).parents);
  }

  // ----- Envelopes -----

  predicate PowerCause(s: Core, e: Event, o: Outcome)
    requires e.PublishPower?
  {
    var p := e.power;
    || TokenCause(s, e.authority, true, o)
    || match o
       case RejectInvalidInput =>
         || !ValidEvidence(p.stamp)
         || (p.rackLimit.Some? && !ValidQuantity(p.rackLimit.value, Watts))
         || (p.rackObservedDraw.Some? && !ValidQuantity(p.rackObservedDraw.value, p.rackObservedDraw.value.unit))
       case RejectStaleGeneration =>
         s.power.Some?
         && (|| (e.expectedGeneration.Some? && e.expectedGeneration.value < s.generations.power)
             || 0 < p.generation < s.power.value.generation)
       case RejectLimitExceeded => s.generations.power == U64_MAX
       case _ => false
  }

  /** A zone is a known cooling domain, and its readings are valid. */
  predicate IsReadable(z: CoolingZone) {
    && (z.designThermalLimit.Some? ==> ValidQuantity(z.designThermalLimit.value, Watts))
    && (z.coolingCapacity.Some? ==> ValidQuantity(z.coolingCapacity.value, Watts))
    && (z.observedTemperature.Some? ==> ValidQuantity(z.observedTemperature.value, Celsius))
    && (z.throttling.Some? ==> ValidEvidence(z.throttling.value.stamp))
  }

  predicate CoolingCause(s: Core, e: Event, o: Outcome)
    requires e.PublishCooling?
  {
    var c := e.cooling;
    || TokenCause(s, e.authority, true, o)
    || match o
       case RejectInvalidInput => !ValidEvidence(c.stamp) || exists z :: z in c.zones && !IsReadable(z)
       case RejectUnknownParent => exists z :: z in c.zones && MemberKey(MemberKind.CoolingDomain, z.zone) !in s.members
       case RejectStaleGeneration =>
         s.cooling.Some?
         && (|| (e.expectedGeneration.Some? && e.expectedGeneration.value < s.generations.cooling)
             || 0 < c.generation < s.cooling.value.generation)
       case RejectLimitExceeded => s.generations.cooling == U64_MAX
       case _ => false
  }

  lemma {:induction false} ZonesMean(s: Core, zones: seq<CoolingZone>)
    ensures var o := JudgeZones(s, zones);
            && (o.Accepted? <==>
                  forall z :: z in zones ==> IsReadable(z) && MemberKey(MemberKind.CoolingDomain, z.zone) in s.members)
            && (o.RejectUnknownParent? ==>
                  exists z :: z in zones && MemberKey(MemberKind.CoolingDomain, z.zone) !in s.members)
            && (o.RejectInvalidInput? ==> exists z :: z in zones && !IsReadable(z))
            && (o.Accepted? || o.RejectUnknownParent? || o.RejectInvalidInput?)
    decreases |zones|
  {
    hide ValidQuantity, ValidEvidence;
    if zones != [] {
      ZonesMean(s, zones[1..]);
      assert forall z :: z in zones <==> z == zones[0] || z in zones[1..];
    }
  }

  lemma EnvelopeOutcomes(env: Env, s: Core, e: Event, now: i64)
    ensures e.PublishPower? ==>
              var o := PowerStep(env, s, e, now).outcome;
              && (o.IsRejection() ==> PowerCause(s, e, o))
              && (!o.IsRejection() ==> o.Accepted? && forall c :: !PowerCause(s, e, c))
    ensures e.PublishCooling? ==>
              var o := CoolingStep(env, s, e, now).outcome;
              && (o.IsRejection() ==> CoolingCause(s, e, o))
              && (!o.IsRejection() ==> o.Accepted? && forall c :: !CoolingCause(s, e, c))
  {
    hide CheckAuthority, TokenCause, ValidEvidence, ValidQuantity, JudgeZones, IsReadable, CommitPower, CommitCooling,
      NoteRejection;
    if e.PublishPower? {
      GrantedIff(s, e.authority, true);
    } else if e.PublishCooling? {
      GrantedIff(s, e.authority, true);
      ZonesMean(s, e.cooling.zones);
    }
  }

  // ----- The rack and its processes -----

  predicate RegistrationCause(s: Core, limits: Limits, e: Event, o: Outcome)
    requires e.RegisterPublisher?
  {
    var known := e.boot.Some? && e.boot.value in s.publishers;
    match o
    case RejectInvalidInput =>
      || e.rack.None? || e.worker.None? || e.boot.None?
      || (!known && e.labelText.Some? && !IsLabel(e.labelText.value))
    case RejectStaleCoordinatorEpoch => e.epoch != s.generations.coordinatorEpoch
    case RejectUnknownRack => s.rack.None? || (e.rack.Some? && e.rack.value != s.rack.value.id)
    case RejectRackRetired => s.rack.Some? && s.rack.value.retired
    case RejectStaleWorkerBoot =>
      || (e.boot.Some? && e.boot.value in s.fencedBoots)
      || (known && (s.publishers[e.boot.value].state.Lost? || s.publishers[e.boot.value].state.Fenced?))
    case RejectLimitExceeded => e.boot.Some? && !known && |s.publishers| >= limits.maxConnections
    case RejectNotAuthorized => known && e.worker.Some? && s.publishers[e.boot.value].worker != e.worker.value
    case _ => false
  }

  lemma RegistrationOutcome(s: Core, limits: Limits, e: Event, now: i64)
    requires e.RegisterPublisher?
    ensures var o := Register(s, limits, e, now).outcome;
            && (o.IsRejection() ==> RegistrationCause(s, limits, e, o))
            && (!o.IsRejection() ==> forall c :: !RegistrationCause(s, limits, e, c))
            && (o.NoChange? <==> !o.IsRejection() && e.boot.Some? && e.boot.value in s.publishers)
  {
    hide IsLabel;
  }

  predicate DeclarationCause(s: Core, e: Event, o: Outcome)
    requires e.DeclareRack?
  {
    || TokenCause(s, e.authority, false, o)
    || match o
       case RejectInvalidInput =>
         || e.authority.rack.None? || e.rackEpoch.None? || !IsIdentity(e.rackEpoch.value)
         || (e.labelText.Some? && !IsLabel(e.labelText.value))
       case RejectConflict =>
         s.rack.Some?
         && (|| e.authority.rack != Some(s.rack.value.id)
             || (e.rackEpoch == Some(s.rack.value.epoch) && e.labelText.Some? && e.labelText != s.rack.value.labelText)
             || (e.rackEpoch != Some(s.rack.value.epoch) && !e.redeclare))
       case RejectLimitExceeded =>
         s.rack.Some? && e.rackEpoch != Some(s.rack.value.epoch) && s.rack.value.generation == U64_MAX
       case _ => false
  }

  lemma DeclarationOutcome(s: Core, e: Event, now: i64)
    requires e.DeclareRack?
    ensures var o := Declare(s, e, now).outcome;
            && (o.IsRejection() ==> DeclarationCause(s, e, o))
            && (!o.IsRejection() ==> forall c :: !DeclarationCause(s, e, c))
            && (o.NoChange? <==> !o.IsRejection() && s.rack.Some? && e.rackEpoch == Some(s.rack.value.epoch))
  {
    hide CheckAuthority, TokenCause, IsIdentity, IsLabel, Redeclared;
    GrantedIff(s, e.authority, false);
  }

  predicate RackRetirementCause(s: Core, e: Event, o: Outcome)
    requires e.RetireRack?
  {
    || (o.RejectUnknownRack? && s.rack.None?)
    || (s.rack.Some? && !s.rack.value.retired
        && (TokenCause(s, e.authority, true, o) || (o.RejectLimitExceeded? && s.rack.value.generation == U64_MAX)))
  }

  predicate HeartbeatCause(s: Core, e: Event, o: Outcome)
    requires e.Heartbeat?
  {
    TokenCause(s, e.authority, false, o) || (o.RejectNotRegistered? && e.authority.boot.None?)
  }

  /** Fencing takes no token but the epoch: an operator's word. */
  predicate FencingCause(s: Core, e: Event, o: Outcome)
    requires e.FencePublisher?
  {
    match o
    case RejectInvalidInput => e.boot.None?
    case RejectStaleCoordinatorEpoch => e.epoch != s.generations.coordinatorEpoch
    case RejectNotRegistered => e.boot.Some? && e.boot.value !in s.publishers && e.boot.value !in s.fencedBoots
    case _ => false
  }

  lemma ProcessOutcomes(s: Core, e: Event, now: i64)
    ensures e.RetireRack? ==>
              var o := RetireRackStep(s, e, now).outcome;
              && (o.IsRejection() ==> RackRetirementCause(s, e, o))
              && (!o.IsRejection() ==> forall c :: !RackRetirementCause(s, e, c))
              && (o.NoChange? <==> s.rack.Some? && s.rack.value.retired)
    ensures e.Heartbeat? ==>
              var o := HeartbeatStep(s, e, now).outcome;
              && (o.IsRejection() ==> HeartbeatCause(s, e, o))
              && (!o.IsRejection() ==> o.Accepted? && forall c :: !HeartbeatCause(s, e, c))
    ensures e.FencePublisher? ==>
              var o := FenceStep(s, e.epoch, e.boot, e.reason, now).outcome;
              && (o.IsRejection() ==> FencingCause(s, e, o))
              && (!o.IsRejection() ==> forall c :: !FencingCause(s, e, c))
              && (o.NoChange? <==>
                    && !o.IsRejection() && e.boot.Some?
                    && (e.boot.value !in s.publishers || s.publishers[e.boot.value].state.Fenced?))
  {
    hide CheckAuthority, RetiredRack, FenceBoot, AdvancePublication;
    if e.RetireRack? {
      GrantedIff(s, e.authority, true);
    } else if e.Heartbeat? {
      GrantedIff(s, e.authority, false);
    }
  }

  predicate SnapshotCause(s: Core, e: Event, o: Outcome)
    requires e.PublishSnapshot?
  {
    || TokenCause(s, e.authority, true, o)
    || (o.RejectLimitExceeded? && s.snapshotGeneration == U64_MAX)
    || (o.RejectInvalidInput? && s.rack.Some? && s.snapshotGeneration < U64_MAX
        && !IsIdentity(SnapshotId(s.rack.value.id, s.snapshotGeneration + 1)))
  }

  lemma SnapshotOutcome(env: Env, s: Core, e: Event, now: i64)
    requires e.PublishSnapshot?
    ensures var o := SnapshotStep(env, s, e, now).outcome;
            && (o.IsRejection() ==> SnapshotCause(s, e, o))
            && (!o.IsRejection() ==> o.Accepted? && forall c :: !SnapshotCause(s, e, c))
  {
    GrantedIff(s, e.authority, true);
    hide CheckPublisher, TokenCause, IsIdentity, SnapshotId, BuildSnapshot, Retain, AdvancePublication;
  }

  /** The first target that is missing, someone else's, or due and out of generations. */
  ghost predicate RevalidationCause(s: Core, e: Event, o: Outcome)
    requires e.RevalidateMembers?
  {
    || TokenCause(s, e.authority, true, o)
    || exists i :: 0 <= i < |Targets(s, e)| && StopsAt(s, e, i, o)
  }

  ghost predicate StopsAt(s: Core, e: Event, i: nat, o: Outcome)
    requires e.RevalidateMembers? && i < |Targets(s, e)|
  {
    var k := Targets(s, e)[i];
    && (forall h :: 0 <= h < i ==> !Blocked(s.members, Targets(s, e)[h], e.authority))
    && (|| TargetCause(s, e.authority, k, o)
        || (o.RejectLimitExceeded? && k in s.members && s.members[k].stamp.revalidationRequired
            && s.members[k].generation == U64_MAX))
  }

  lemma StopsWhereBlocked(s: Core, e: Event, i: nat, o: Outcome)
    requires e.RevalidateMembers? && i < |Targets(s, e)|
    ensures StopsAt(s, e, i, o) ==> Blocked(s.members, Targets(s, e)[i], e.authority)
  {
    hide Outstanding;
  }

  lemma RevalidationOutcome(s: Core, e: Event)
    requires e.RevalidateMembers?
    ensures var o := RevalidateStep(s, e).outcome;
            && (o.IsRejection() ==> RevalidationCause(s, e, o))
            && (!o.IsRejection() ==> forall c :: !RevalidationCause(s, e, c))
            && (o.NoChange? <==>
                  && !o.IsRejection()
                  && forall k :: k in Targets(s, e) && k in s.members ==> !s.members[k].stamp.revalidationRequired)
  {
    hide CheckAuthority, TokenCause, RevalidateEach, Outstanding, NoteRejection, AdvancePublication, Confirms;
    GrantedIff(s, e.authority, true);
    var targets := Targets(s, e);
    WalkIsExact(s.members, targets, e.authority, false);
    var n := Passed(s.members, targets, e.authority);
    var o := RevalidateEach(s.members, targets, e.authority, false).outcome;
    if n < |targets| {
      assert StopsAt(s, e, n, o);
    } else {
      forall i: nat, c | i < |targets|
        ensures !StopsAt(s, e, i, c) && targets[i] in s.members
      {
        StopsWhereBlocked(s, e, i, c);
      }
    }
    hide StopsAt, Passed, Blocked;
  }

  // ----- All requests -----

  ghost predicate Cause(env: Env, s: Core, e: Event, o: Outcome) {
    match e
    case RegisterPublisher(_, _, _, _, _) => RegistrationCause(s, env.limits, e, o)
    case DeclareRack(_, _, _, _) => DeclarationCause(s, e, o)
    case PublishMember(_, _, _, _) => MemberCause(s, env.limits, e, o)
    case PublishRelationship(_, _, _) => RelationshipCause(s, env.limits, e, o)
    case PublishFailureDomain(_, _, _) => DomainCause(s, env.limits, e, o)
    case PublishPower(_, _, _) => PowerCause(s, e, o)
    case PublishCooling(_, _, _) => CoolingCause(s, e, o)
    case PublishHealth(_, _, _, _, _, _) => HealthCause(s, e, o)
    case PublishCapability(_, _, _) => CapabilityCause(s, env.limits, e, o)
    case WithdrawEvidence(_, _, _) => WithdrawalCause(s, e, o)
    case WithdrawRelationship(_, _) => UnrelationCause(s, e, o)
    case MarkUnavailable(_, _, _) => UnavailabilityCause(s, e, o)
    case RetireMember(_, _) => RetirementCause(s, e, o)
    case RetireRack(_) => RackRetirementCause(s, e, o)
    case RevalidateMembers(_, _, _) => RevalidationCause(s, e, o)
    case Heartbeat(_) => HeartbeatCause(s, e, o)
    case FencePublisher(_, _, _) => FencingCause(s, e, o)
    case ExpirePublishers => false
    case PublishSnapshot(_) => SnapshotCause(s, e, o)
  }

  /** There is nothing to do: what is asked for is so already. */
  ghost predicate IsIdle(s: Core, e: Event, now: i64) {
    match e
    case RegisterPublisher(_, _, boot, _, _) => boot.Some? && boot.value in s.publishers
    case DeclareRack(_, rackEpoch, _, _) => s.rack.Some? && rackEpoch == Some(s.rack.value.epoch)
    case PublishMember(_, record, _, _) => record.key in s.members && Repeats(s.members[record.key], e)
    case PublishRelationship(_, _, _) => RepeatsRelationship(s, e)
    case PublishFailureDomain(_, _, _) => RepeatsDomain(s, e)
    case PublishCapability(_, k, c) => k in s.members && c.Some? && IsListed(s.members[k].capabilities, c.value)
    case WithdrawRelationship(_, key) => Canonical(key) !in s.relationships
    case MarkUnavailable(_, k, _) => k in s.members && s.members[k].lifecycle.Unavailable?
    case RetireMember(_, k) => k in s.members && s.members[k].lifecycle.Retired?
    case RetireRack(_) => s.rack.Some? && s.rack.value.retired
    case RevalidateMembers(_, _, _) =>
      forall k :: k in Targets(s, e) && k in s.members ==> !s.members[k].stamp.revalidationRequired
    case FencePublisher(_, boot, _) =>
      boot.Some? && (boot.value !in s.publishers || s.publishers[boot.value].state.Fenced?)
    case ExpirePublishers => forall b :: b in s.publishers ==> !HasLapsed(s.publishers[b], now)
    case _ => false
  }

  /** Refused only for a cause; idle exactly when nothing speaks against the request and it asks for what is so. */
  ghost predicate Answers(env: Env, s: Core, e: Event, now: i64, o: Outcome) {
    && (o.IsRejection() ==> Cause(env, s, e, o))
    && (!o.IsRejection() ==> forall c :: !Cause(env, s, e, c))
    && (o.NoChange? <==> !o.IsRejection() && IsIdle(s, e, now))
  }

  lemma MemberAnswers(env: Env, s: Core, e: Event, now: i64)
    requires e.PublishMember? || e.PublishHealth? || e.PublishCapability? || e.WithdrawEvidence? || e.MarkUnavailable?
             || e.RetireMember? || e.RevalidateMembers?
    ensures Answers(env, s, e, now, Apply(env, s, e, now).outcome)
  {
    hide PublishMemberStep, HealthStep, CapabilityStep, WithdrawStep, MarkUnavailableStep, RetireMemberStep,
      RevalidateStep,
      MemberCause, HealthCause, CapabilityCause, WithdrawalCause, UnavailabilityCause, RetirementCause,
        RevalidationCause,
      Repeats, IsListed, Outstanding;
    match e {
      case PublishMember(_, _, _, _) => MemberOutcome(s, env.limits, e);
      case PublishHealth(_, _, _, _, _, _) => HealthOutcome(s, e);
      case PublishCapability(_, _, _) => CapabilityOutcome(s, env.limits, e);
      case RevalidateMembers(_, _, _) => RevalidationOutcome(s, e);
      case _ => ChangeOutcomes(s, e);
    }
  }

  lemma OtherAnswers(env: Env, s: Core, e: Event, now: i64)
    requires e.PublishRelationship? || e.WithdrawRelationship? || e.PublishFailureDomain? || e.PublishPower?
             || e.PublishCooling? || e.PublishSnapshot?
    ensures Answers(env, s, e, now, Apply(env, s, e, now).outcome)
  {
    hide RelationshipStep, WithdrawRelationshipStep, DomainStep, PowerStep, CoolingStep, SnapshotStep, RelationshipCause,
      UnrelationCause, DomainCause, PowerCause, CoolingCause, SnapshotCause, RepeatsRelationship, RepeatsDomain,
        Canonical;
    match e {
      case PublishRelationship(_, _, _) => RelationshipOutcome(s, env.limits, e);
      case WithdrawRelationship(_, _) => UnrelationOutcome(s, e);
      case PublishFailureDomain(_, _, _) => DomainOutcome(s, env.limits, e);
      case PublishSnapshot(_) => SnapshotOutcome(env, s, e, now);
      case _ => EnvelopeOutcomes(env, s, e, now);
    }
  }

  lemma RackAnswers(env: Env, s: Core, e: Event, now: i64)
    requires e.RegisterPublisher? || e.DeclareRack? || e.RetireRack? || e.Heartbeat? || e.FencePublisher?
        || e.ExpirePublishers?
    ensures Answers(env, s, e, now, Apply(env, s, e, now).outcome)
  {
    hide Register, Declare, RetireRackStep, HeartbeatStep, FenceStep, FenceEach, RegistrationCause, DeclarationCause,
      RackRetirementCause, HeartbeatCause, FencingCause, AreFenced, HasLapsed, Expired;
    match e {
      case RegisterPublisher(_, _, _, _, _) => RegistrationOutcome(s, env.limits, e, now);
      case DeclareRack(_, _, _, _) => DeclarationOutcome(s, e, now);
      case ExpirePublishers => ExpiryAnswers(env, s, now);
      case _ => ProcessOutcomes(s, e, now);
    }
  }

  lemma ExpiryAnswers(env: Env, s: Core, now: i64)
    ensures var o := Apply(env, s, ExpirePublishers, now).outcome;
            && !o.IsRejection()
            && (o.NoChange? <==> forall b :: b in s.publishers ==> !HasLapsed(s.publishers[b], now))
  {
    hide FenceEach, AreFenced, HasLapsed, Expired;
    ExpiryIsExact(env, s, now);
    ExpiryIsNeverRefused(s, Expired(s, now), now);
    var lapsed := (set b | b in s.publishers && HasLapsed(s.publishers[b], now));
    if lapsed == {} {
      forall b | b in s.publishers
        ensures !HasLapsed(s.publishers[b], now)
      {
        assert b !in lapsed;
      }
    } else {
      var b :| b in lapsed;
    }
  }

  lemma {:induction false} ExpiryIsNeverRefused(s: Core, boots: seq<Text>, now: i64)
    ensures !FenceEach(s, boots, now).outcome.IsRejection()
    decreases |boots|
  {
    hide FenceStep;
    if boots != [] {
      ExpiryIsNeverRefused(FenceStep(s, s.generations.coordinatorEpoch, Some(boots[0]), OwnerProcessLost, now).state,
                           boots[1..], now);
    }
  }

  /** The outcome of every request, in every state. */
  lemma OutcomeIff(env: Env, s: Core, e: Event, now: i64)
    ensures Answers(env, s, e, now, Apply(env, s, e, now).outcome)
  {
    hide Apply, Answers;
    if e.PublishMember? || e.PublishHealth? || e.PublishCapability? || e.WithdrawEvidence? || e.MarkUnavailable?
       || e.RetireMember? || e.RevalidateMembers? {
      MemberAnswers(env, s, e, now);
    } else if e.PublishRelationship? || e.WithdrawRelationship? || e.PublishFailureDomain? || e.PublishPower?
              || e.PublishCooling? || e.PublishSnapshot? {
      OtherAnswers(env, s, e, now);
    } else {
      RackAnswers(env, s, e, now);
    }
  }
}
