/**
 The sans-IO rules of the external compare-and-set anchor: what a claimant
 writes into the register, and how it reads the register back.
 */
module AnchorRules {
  import opened Common

  /** The anchor's whole contents. */
  datatype AnchorRecord = AnchorRecord(epoch: u64, host: NodeId, expiresAt: u64)

  /** What a claim decided to do with the anchor. */
  datatype ClaimPlan =
    | Create(record: AnchorRecord)
    | Supersede(record: AnchorRecord)
    | Yield(retryAt: u64)

  /** The record's lifetime and the extra wait before somebody else's record may be taken. */
  datatype AnchorTerms = AnchorTerms(ttl: u64, margin: u64)

  predicate Stealable(r: AnchorRecord, wall: u64, margin: u64) {
    wall >= SatAdd(r.expiresAt, margin)
  }

  predicate Entitled(me: NodeId, r: AnchorRecord, wall: u64, margin: u64) {
    r.host == me || Stealable(r, wall, margin)
  }

  function PlanClaim(terms: AnchorTerms, me: NodeId, hint: u64, loaded: Option<AnchorRecord>, wall: u64): ClaimPlan {
    var expires := SatAdd(wall, terms.ttl);
    match loaded
    case None => Create(AnchorRecord(Max(hint, 1), me, expires))
    case Some(current) =>
      if !Entitled(me, current, wall, terms.margin) then
        Yield(SatAdd(current.expiresAt, terms.margin))
      else
        Supersede(AnchorRecord(Max(SatAdd(current.epoch, 1), hint), me, expires))
  }

  function RenewalRecord(terms: AnchorTerms, me: NodeId, epoch: u64, wall: u64): AnchorRecord {
    AnchorRecord(epoch, me, SatAdd(wall, terms.ttl))
  }

  /** The pacing floor: a renewal is written only once at most half a lease is left. */
  predicate RenewalDue(terms: AnchorTerms, expiresAt: u64, wall: u64) {
    SatSub(expiresAt, wall) <= terms.ttl / 2
  }

  predicate AmbiguousApplied(me: NodeId, attempted: AnchorRecord, reread: Option<AnchorRecord>) {
    reread.Some? && reread.value.host == me && reread.value == attempted
  }

  /**
   A claim that yields comes back at the first instant it could win: planned again on the same
   record, it supersedes from the retry instant on and yields at every instant before.
   */
  lemma {:induction false} YieldRetriesWhenEntitled(terms: AnchorTerms, me: NodeId, hint: u64, current: AnchorRecord, wall: u64, later: u64)
    requires PlanClaim(terms, me, hint, Some(current), wall).Yield?
    ensures var retryAt := PlanClaim(terms, me, hint, Some(current), wall).retryAt;
            && wall < retryAt
            && (PlanClaim(terms, me, hint, Some(current), later).Supersede? <==> later >= retryAt)
  {
  }

  /**
   Superseding raises the epoch exactly when the standing epoch is below the ceiling: addition
   saturates, so a record at the greatest `u64` is superseded under its own epoch.
   */
  lemma {:induction false} SupersedeAllocatesIffBelowCeiling(terms: AnchorTerms, me: NodeId, hint: u64,
                                                             current: AnchorRecord, wall: u64)
    requires Entitled(me, current, wall, terms.margin)
    ensures var plan := PlanClaim(terms, me, hint, Some(current), wall);
            plan.Supersede?
            && (plan.record.epoch > current.epoch <==> current.epoch < U64_MAX)
            && plan.record.epoch >= hint
  {
  }

  /** A concrete ceiling collision: a thief is awarded the very epoch it steals. */
  lemma {:induction false} CeilingEpochIsReissued(terms: AnchorTerms, victim: NodeId, thief: NodeId, wall: u64)
    requires victim != thief && wall >= terms.margin
    ensures var standing := AnchorRecord(U64_MAX, victim, 0);
            var plan := PlanClaim(terms, thief, 0, Some(standing), wall);
            plan.Supersede? && plan.record.epoch == standing.epoch && plan.record.host != standing.host
  {
  }

  /**
   What a read-back tells a landed renewal apart by: a paced renewal moves the expiry strictly forward exactly when the
   old expiry is representable below the ceiling and either the lease is
   non-empty or the wall clock has already passed the old expiry.
   */
  lemma {:induction false} RenewalMovesExpiryIff(terms: AnchorTerms, me: NodeId, held: AnchorRecord, wall: u64)
    requires held.host == me
    requires RenewalDue(terms, held.expiresAt, wall)
    ensures var renewal := RenewalRecord(terms, me, held.epoch, wall);
            (renewal.expiresAt > held.expiresAt
             <==> held.expiresAt < U64_MAX && (terms.ttl > 0 || wall > held.expiresAt))
            && (AmbiguousApplied(me, renewal, Some(held)) <==> renewal.expiresAt == held.expiresAt)
  {
  }
}
