/** The first-terminal-outcome receipt of an acknowledged frame, and the configuration that bounds it. */
module Receipts {
  import opened Common

  datatype Delivery = BestEffort | Delivered | Applied

  datatype Rejection = Full | Closed | Permission | Invalid | Interrupted | Other

  datatype Outcome = WasAccepted | WasApplied | WasRejected(reason: Rejection)

  datatype ReceiptState = ReceiptState(delivery: Delivery, outcome: Option<Outcome>, retainUntil: u64, retentionMs: u64)

  function NewReceipt(delivery: Delivery, now: u64, retentionMs: u64): ReceiptState {
    ReceiptState(delivery, None, SatAdd(now, retentionMs), retentionMs)
  }

  /** The receipt has reached the boundary its sender asked for. */
  predicate Terminal(s: ReceiptState) {
    || s.outcome == Some(WasApplied)
    || (s.outcome.Some? && s.outcome.value.WasRejected?)
    || (s.delivery == Delivered && s.outcome == Some(WasAccepted))
  }

  /** Abandoned pending work becomes a terminal interruption, kept for one more window. */
  function Retired(s: ReceiptState, now: u64): ReceiptState {
    if !Terminal(s) && now >= s.retainUntil
    then s.(outcome := Some(WasRejected(Interrupted)), retainUntil := SatAdd(now, s.retentionMs))
    else s
  }

  predicate Expired(s: ReceiptState, now: u64) {
    Terminal(s) && now >= s.retainUntil
  }

  function Refreshed(s: ReceiptState, now: u64): ReceiptState {
    Retired(s, now).(retainUntil := SatAdd(now, s.retentionMs))
  }

  /** A receipt action: the first terminal outcome stays. */
  function Acted(s: ReceiptState, action: Outcome, now: u64): ReceiptState {
    if s.delivery == BestEffort then s
    else if Terminal(Refreshed(s, now)) then Refreshed(s, now)
    else Refreshed(s, now).(outcome := Some(action))
  }

  /** What a receipt held by the application does: once terminal it neither changes nor acknowledges. */
  function Handled(s: ReceiptState, action: Outcome, now: u64): (ReceiptState, Option<Outcome>) {
    var r := Retired(s, now);
    if Terminal(r) then (r, None)
    else (Acted(r, action, now), if r.delivery == BestEffort then None else Acted(r, action, now).outcome)
  }

  /** What a sweep leaves of one record. */
  function Swept(s: ReceiptState, now: u64): Option<ReceiptState> {
    if Expired(Retired(s, now), now) then None else Some(Retired(s, now))
  }

  /** Whether a matched acknowledgement resolves a send. */
  predicate Completes(delivery: Delivery, outcome: Outcome) {
    delivery == Delivered || outcome != WasAccepted
  }

  /** A send is resolved exactly by the outcomes that are terminal for its record. */
  lemma {:induction false} CompletesIffTerminal(s: ReceiptState)
    requires s.delivery != BestEffort && s.outcome.Some?
    ensures Completes(s.delivery, s.outcome.value) <==> Terminal(s)
  {
  }

  /** With a clock that does not go back, nothing done to a record brings its deadline forward. */
  lemma {:induction false} DeadlineNeverMovesBack(s: ReceiptState, action: Outcome, now: u64)
    requires s.retainUntil <= SatAdd(now, s.retentionMs)
    ensures s.retainUntil <= Retired(s, now).retainUntil <= SatAdd(now, s.retentionMs)
    ensures s.retainUntil <= Refreshed(s, now).retainUntil == SatAdd(now, s.retentionMs)
    ensures s.retainUntil <= Handled(s, action, now).0.retainUntil <= SatAdd(now, s.retentionMs)
  {
  }

  /** Nothing done at `now` brings a deadline before what both it and a refresh at `now` lie past. */
  lemma {:induction false} DeadlineStaysAhead(s: ReceiptState, action: Outcome, now: u64, floor: u64)
    requires floor <= s.retainUntil && floor <= SatAdd(now, s.retentionMs)
    ensures floor <= Retired(s, now).retainUntil && floor <= Refreshed(s, now).retainUntil
    ensures floor <= Handled(s, action, now).0.retainUntil
  {
  }

  /** What a sweep keeps is not due again, so looking at it twice changes nothing. */
  lemma {:induction false} SweptIsNotDue(s: ReceiptState, now: u64)
    ensures Swept(s, now).Some? ==> now < Swept(s, now).value.retainUntil && Swept(Swept(s, now).value, now) == Swept(s, now)
    ensures now < s.retainUntil ==> Swept(s, now) == Some(s)
    ensures Swept(s, now).None? ==> Terminal(Retired(s, now)) && now >= Retired(s, now).retainUntil
  {
  }

  /** Work nobody decided is not forgotten when its deadline passes: it becomes an interruption, kept for one more window. */
  lemma {:induction false} AbandonedIsInterrupted(s: ReceiptState, now: u64)
    requires !Terminal(s) && now < SatAdd(now, s.retentionMs)
    ensures Swept(s, now) == Some(if now < s.retainUntil then s
                                  else ReceiptState(s.delivery, Some(WasRejected(Interrupted)), SatAdd(now, s.retentionMs), s.retentionMs))
  {
  }

  /** A receipt with its terminal outcome recorded keeps that outcome under every operation. */
  lemma {:induction false} TerminalOutcomeStays(s: ReceiptState, action: Outcome, now: u64)
    requires Terminal(s)
    ensures Retired(s, now) == s
    ensures Refreshed(s, now).outcome == s.outcome && Acted(s, action, now).outcome == s.outcome
    ensures Handled(s, action, now) == (s, None)
  {
  }

  // ---- Configuration ----

  const NANOS_PER_MS: nat := 1_000_000

  /** Durations in nanoseconds; the greatest one a clock can be advanced by is the platform's. */
  datatype Config = Config(maxPayload: nat, retryInterval: nat, maxTimeout: nat, dedupRetention: nat)

  /** Whole milliseconds covering a duration, or none beyond 64 bits. */
  function TimeoutMs(nanos: nat): Option<u64> {
    var ms := DivCeil(nanos, NANOS_PER_MS);
    if ms <= U64_MAX then Some(ms) else None
  }

  predicate ValidConfig(c: Config, clockRoom: nat) {
    && 0 < c.maxPayload <= U32_MAX
    && 0 < c.retryInterval <= c.maxTimeout
    && TimeoutMs(c.retryInterval).Some? && TimeoutMs(c.maxTimeout).Some? && TimeoutMs(c.dedupRetention).Some?
    && c.retryInterval <= clockRoom && c.maxTimeout <= clockRoom && c.dedupRetention <= clockRoom
    && DivCeil(c.dedupRetention, NANOS_PER_MS) > DivCeil(c.maxTimeout, NANOS_PER_MS)
  }

  /** The retry horizon an acknowledged send puts on the wire, or none if the send is refused. */
  function RetryHorizonMs(c: Config, timeout: nat, payloadLen: nat): Option<u64> {
    if payloadLen > c.maxPayload || timeout == 0 || timeout > c.maxTimeout then None else TimeoutMs(timeout)
  }

  /**
   A send is refused exactly when it is too large or its timeout is out of bounds; otherwise its horizon
   is its timeout in whole milliseconds, rounded up.
   */
  lemma {:induction false} HorizonIsTheTimeout(c: Config, timeout: nat, payloadLen: nat)
    requires TimeoutMs(c.maxTimeout).Some?
    ensures var horizon := RetryHorizonMs(c, timeout, payloadLen);
            && (horizon.Some? <==> payloadLen <= c.maxPayload && 0 < timeout <= c.maxTimeout)
            && (horizon.Some? ==> NANOS_PER_MS * (horizon.value - 1) < timeout <= NANOS_PER_MS * horizon.value)
  {
  }

  /** Every admissible send finishes retrying strictly inside the receiver's retention window. */
  lemma {:induction false} RetentionOutlastsEverySend(c: Config, clockRoom: nat, timeout: nat, payloadLen: nat)
    requires ValidConfig(c, clockRoom) && 0 < timeout <= c.maxTimeout && payloadLen <= c.maxPayload
    ensures var horizon := RetryHorizonMs(c, timeout, payloadLen);
            && horizon.Some? && 0 < horizon.value
            && timeout <= NANOS_PER_MS * horizon.value
            && horizon.value <= TimeoutMs(c.maxTimeout).value < TimeoutMs(c.dedupRetention).value
  {
  }
}
