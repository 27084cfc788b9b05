/** When the lazy sweep does the work of a full one, over whole runs of a receiving endpoint. */
module MessagingSweeps {
  import opened Common
  import opened Receipts
  import opened Received
  import opened MessagingRuns
  import opened MessagingSafety
  import opened MessagingExact

  /** When a step read the clock. */
  function Instant(a: Action): u64 {
    match a
    case Sweep(at) => at
    case Arrive(_, _, _, at) => at
    case Act(_, _, read) => read
  }

  function LastInstant(actions: seq<Action>): u64 {
    if actions == [] then 0 else Instant(actions[|actions| - 1])
  }

  /** Every step reads the clock no earlier than the steps before it. */
  predicate Serialized(actions: seq<Action>) {
    forall i, j :: 0 <= i < j < |actions| ==> Instant(actions[i]) <= Instant(actions[j])
  }

  /** The entry is no later than the deadline it stands for, which is no later than a refresh at `now` would make it. */
  predicate Early(p: Limits, c: Cell, now: u64) {
    c.queuedAt <= c.state.retainUntil <= SatAdd(now, p.retentionMs)
  }

  ghost predicate AllEarly(p: Limits, w: World, now: u64) {
    forall g :: 0 <= g < |w.cells| ==> Early(p, w.cells[g].cell, now)
  }

  lemma {:induction false} SweepKeepsEarly(p: Limits, w: World, now: u64, at: u64)
    requires Sound(p, w) && AllEarly(p, w, now) && now <= at
    ensures AllEarly(p, AfterSweep(w, at), at)
  {
    var r := AfterSweep(w, at);
    forall g | 0 <= g < |r.cells| ensures Early(p, r.cells[g].cell, at) {
      assert SoundCell(p, w, g) && r.cells[g] == SweptCell(w, g, at) && Early(p, w.cells[g].cell, now);
    }
  }

  /** A refresh no earlier than any before it only moves a deadline back. */
  lemma {:induction false} ChangeKeepsEarly(p: Limits, w: World, g: nat, s: ReceiptState, now: u64, at: u64)
    requires AllEarly(p, w, now) && now <= at && g < |w.cells|
    requires w.cells[g].cell.state.retainUntil <= s.retainUntil <= SatAdd(at, p.retentionMs)
    ensures AllEarly(p, w.(cells := WithState(w, g, s)), at)
  {
    var r := w.(cells := WithState(w, g, s));
    forall h | 0 <= h < |r.cells| ensures Early(p, r.cells[h].cell, at) {
      assert Early(p, w.cells[h].cell, now);
    }
  }

  lemma {:induction false} MeetKeepsEarly(p: Limits, w: World, key: Key, meta: Meta)
    requires Sound(p, w) && AllEarly(p, w, w.clock)
    ensures AllEarly(p, Meet(p, w, key, meta), w.clock)
  {
    if Admits(p, w, key) {
      var r := Meet(p, w, key, meta);
      forall h | 0 <= h < |r.cells| ensures Early(p, r.cells[h].cell, w.clock) {
        if h < |w.cells| {
          assert Early(p, w.cells[h].cell, w.clock);
        }
      }
    } else if key in w.table {
      var g := w.table[key];
      assert SoundCell(p, w, g) && Early(p, w.cells[g].cell, w.clock);
      DeadlineNeverMovesBack(w.cells[g].cell.state, WasAccepted, w.clock);
      ChangeKeepsEarly(p, w, g, Refreshed(w.cells[g].cell.state, w.clock), w.clock, w.clock);
    }
  }

  lemma {:induction false} NextKeepsEarly(p: Limits, w: World, a: Action, now: u64)
    requires Sound(p, w) && Enabled(w, a) && AllEarly(p, w, now) && now <= Instant(a)
    ensures AllEarly(p, Next(p, w, a), Instant(a))
  {
    match a
    case Sweep(at) => SweepKeepsEarly(p, w, now, at);
    case Arrive(key, meta, payloadLen, at) =>
      forall g | 0 <= g < |w.cells| ensures Early(p, w.cells[g].cell, at) {
        assert Early(p, w.cells[g].cell, now);
      }
      if Acceptable(p, meta, payloadLen) {
        MeetKeepsEarly(p, w, key, meta);
      }
    case Act(g, action, read) =>
      assert SoundCell(p, w, g) && Early(p, w.cells[g].cell, now);
      DeadlineNeverMovesBack(w.cells[g].cell.state, action, read);
      ChangeKeepsEarly(p, w, g, Handled(w.cells[g].cell.state, action, read).0, now, read);
  }

  lemma {:induction false} SerializedRunIsEarly(p: Limits, actions: seq<Action>)
    requires Runs(p, actions) && Serialized(actions)
    ensures AllEarly(p, After(p, actions), LastInstant(actions))
  {
    if actions != [] {
      var front := actions[..|actions| - 1];
      SerializedRunIsEarly(p, front);
      RunKeepsSafe(p, front);
      NextKeepsEarly(p, After(p, front), actions[|actions| - 1], LastInstant(front));
    }
  }

  /** Over every run whose clock reads come in order, each sweep leaves what retiring and expiring every record would. */
  lemma {:induction false} SerializedSweepsAreFull(p: Limits, actions: seq<Action>, now: u64)
    requires Runs(p, actions) && Serialized(actions)
    ensures SameStates(LazySweep(Rows(After(p, actions)), now), FullSweep(Rows(After(p, actions)), now))
  {
    var w := After(p, actions);
    SerializedRunIsEarly(p, actions);
    forall k | k in w.table ensures Rows(w)[k].queuedAt <= Rows(w)[k].state.retainUntil {
      assert Early(p, w.cells[w.table[k]].cell, LastInstant(actions));
    }
    LazyIsFullIff(Rows(w), now);
  }

  // ---- The action that lands too late ----

  /** The frame's entry comes due and is queued again; then its record is acted on with the first arrival's clock read. */
  lemma {:induction false} RequeuedThenActedOn(p: Limits, w: World, key: Key, meta: Meta, a: u64, b: u64, c: u64)
    returns (met: World, acted: World)
    requires p.capacity > 0 && meta.delivery != BestEffort && WellFormed(w) && w.clock <= c
    requires Waiting(p, w, key, meta, [a, b]) && a < b < c == SatAdd(a, p.retentionMs) < SatAdd(b, p.retentionMs)
    ensures met == Meet(p, AfterSweep(w, c), key, meta) && met.clock == c && |met.cells| == 1 && met.cells[0].since == a
    ensures acted == Next(p, met, Act(0, WasApplied, a)) && WellFormed(acted)
    ensures acted.table == map[key := 0] && |acted.cells| == 1
    ensures acted.cells[0].cell.state.retainUntil == c < acted.cells[0].cell.queuedAt == SatAdd(b, p.retentionMs)
  {
    var s := AfterSweep(w, c);
    assert Live(w, 0) && s.cells[0] == SweptCell(w, 0, c);
    assert s.table == w.table;
    met := Meet(p, s, key, meta);
    acted := ActAlone(p, met, key, meta, a);
  }

  lemma {:induction false} Overlooked(w: World, key: Key, now: u64)
    requires WellFormed(w) && key in w.table
    requires w.cells[w.table[key]].cell.state.retainUntil <= now < w.cells[w.table[key]].cell.queuedAt
    ensures !SameStates(LazySweep(Rows(w), now), FullSweep(Rows(w), now))
  {
    assert key in Rows(w);
    LazyIsFullIff(Rows(w), now);
  }

  /** A run in which the clock is read out of order, and a sweep then overlooks a record a full one would drop. */
  lemma {:induction false} LateActionHidesARecord(p: Limits, key: Key, meta: Meta, a: u64, b: u64, c: u64) returns (script: seq<Action>)
    requires p.capacity > 0 && Acceptable(p, meta, 0)
    requires a < b < c == SatAdd(a, p.retentionMs) < SatAdd(b, p.retentionMs)
    ensures Runs(p, script) && Times(script, key) == [a, b, c]
    ensures !SameStates(LazySweep(Rows(After(p, script)), c), FullSweep(Rows(After(p, script)), c))
  {
    var before, w := RaceScript(p, key, meta, [a, b]);
    WithinHandsOnOnce(p, before, key);
    var met, acted := RequeuedThenActedOn(p, w, key, meta, a, b, c);
    script := OneMoreArrival(p, before, key, meta, c);
    assert Times(script, key) == [a, b, c];
    RunsOneMore(p, script, Act(0, WasApplied, a));
    TimesOneMore(script, Act(0, WasApplied, a), key);
    script := script + [Act(0, WasApplied, a)];
    Overlooked(acted, key, c);
  }
}
