/** Checked generation counters, and the freshness of time-stamped evidence. */
module Evidence {
  import opened Bytes
  import opened Wrappers

  const U64_MAX: nat := 0xFFFF_FFFF_FFFF_FFFF

  type u64 = n: nat | n <= U64_MAX
  type i64 = n: int | -0x8000_0000_0000_0000 <= n < 0x8000_0000_0000_0000

  /** Text is a byte string; identities, labels and values are all of this type. */
  type Text = bytes

  /** The checked increment: nothing at the largest counter, never a wrapped one. */
  function Next(generation: u64): (r: Option<u64>)
    ensures r.Some? <==> generation < U64_MAX
    ensures r.Some? ==> r.value == generation + 1
  {
    if generation == U64_MAX then None else Some(generation + 1)
  }

  /** The successor where the program keeps a counter that cannot be advanced. */
  function Advance(generation: u64): (r: u64)
    ensures generation <= r
    ensures r == generation <==> generation == U64_MAX
  {
    if generation == U64_MAX then generation else generation + 1
  }

  datatype Provenance = Unknown | Measured | Reported | Derived | Estimated | Synthetic | Reconstructed

  predicate IsPhysical(p: Provenance) {
    p.Measured? || p.Reported? || p.Derived?
  }

  datatype Freshness = Unknown | Fresh | Stale | RevalidationRequired

  datatype Durability = Durable | Ephemeral

  /** What every time-stamped observation records about itself. */
  datatype Stamp = Stamp(
    provenance: Provenance,
    observedAt: i64,
    ttl: i64,
    durability: Durability,
    revalidationRequired: bool)
  {
    predicate HasEvidence() { !provenance.Unknown? }

    function FreshnessAt(now: i64): Freshness {
      if revalidationRequired then Freshness.RevalidationRequired
      else if !HasEvidence() || observedAt <= 0 then Freshness.Unknown
      else if durability.Durable? && ttl == 0 then Freshness.Fresh
      else if ttl <= 0 then Freshness.Stale
      else if now <= 0 then Freshness.Unknown
      else
        var age: int := now - observedAt;
        if age < 0 then Freshness.Stale
        else if age <= ttl then Freshness.Fresh
        else Freshness.Stale
    }

    predicate IsFreshAt(now: i64) { FreshnessAt(now).Fresh? }
  }

  const NO_EVIDENCE := Stamp(Provenance.Unknown, 0, 0, Durable, false)

  datatype EvidenceValue<T> = EvidenceValue(value: T, stamp: Stamp)

  /** The window: evidence with a lifetime is fresh from its observation until the lifetime is over, and never besides. */
  lemma FreshnessWindow(stamp: Stamp, now: i64)
    ensures stamp.IsFreshAt(now) <==>
              && !stamp.revalidationRequired && !stamp.provenance.Unknown? && stamp.observedAt > 0
              && (|| (stamp.durability.Durable? && stamp.ttl == 0)
                  || (stamp.ttl > 0 && 0 < now && stamp.observedAt <= now <= stamp.observedAt + stamp.ttl))
    ensures stamp.FreshnessAt(now).RevalidationRequired? <==> stamp.revalidationRequired
    ensures stamp.FreshnessAt(now).Stale? <==>
              && !stamp.revalidationRequired && !stamp.provenance.Unknown? && stamp.observedAt > 0
              && (|| (stamp.ttl <= 0 && !(stamp.durability.Durable? && stamp.ttl == 0))
                  || (stamp.ttl > 0 && 0 < now && !(stamp.observedAt <= now <= stamp.observedAt + stamp.ttl)))
  {
  }

  /** Evidence that was already observed can only grow old: what is fresh later was fresh before. */
  lemma FreshnessOnlyFades(stamp: Stamp, t: i64, later: i64)
    requires stamp.observedAt <= t <= later
    requires stamp.IsFreshAt(later)
    ensures stamp.IsFreshAt(t)
  {
  }
}
