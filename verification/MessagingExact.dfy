/** Exactly which arrival schedules of one frame are safe from a second hand-off. */
module MessagingExact {
  import opened Common
  import opened Receipts
  import opened Received
  import opened MessagingRuns
  import opened MessagingSafety

  predicate HandsOn(e: Entry, key: Key) {
    e.Arrived? && e.key == key && e.admitted.Some?
  }

  function HandOffsUpTo(log: seq<Entry>, n: nat, key: Key): nat
    requires n <= |log|
  {
    if n == 0 then 0 else HandOffsUpTo(log, n - 1, key) + if HandsOn(log[n - 1], key) then 1 else 0
  }

  /** How often an identity was handed on. */
  function HandOffs(log: seq<Entry>, key: Key): nat {
    HandOffsUpTo(log, |log|, key)
  }

  /** When an identity arrived. */
  function Times(actions: seq<Action>, key: Key): seq<u64> {
    if actions == [] then []
    else
      var a := actions[|actions| - 1];
      Times(actions[..|actions| - 1], key) + if a.Arrive? && a.key == key then [a.at] else []
  }

  /** Every arrival of the identity is the same acceptable frame. */
  predicate Uniform(p: Limits, actions: seq<Action>, key: Key, meta: Meta) {
    forall i :: 0 <= i < |actions| && actions[i].Arrive? && actions[i].key == key ==>
                  actions[i].meta == meta && Acceptable(p, meta, actions[i].payloadLen)
  }

  /** Every action's clock read is no earlier than the sweeps before it. */
  predicate Prompt(actions: seq<Action>) {
    forall i, j :: 0 <= i < j < |actions| && actions[i].Sweep? && actions[j].Act? ==> actions[i].at <= actions[j].read
  }

  /** Each arrival follows the one before within a retention window. */
  predicate ShortGaps(ts: seq<u64>, retentionMs: u64) {
    forall i :: 0 < i < |ts| ==> ts[i] < SatAdd(ts[i - 1], retentionMs)
  }

  /** All arrivals follow the first within one retention window. */
  predicate Within(ts: seq<u64>, retentionMs: u64) {
    |ts| > 1 ==> ts[|ts| - 1] < SatAdd(ts[0], retentionMs)
  }

  predicate Rising(ts: seq<u64>) {
    forall i, j :: 0 <= i < j < |ts| ==> ts[i] <= ts[j]
  }

  lemma {:induction false} SamePrefixSameHandOffs(a: seq<Entry>, b: seq<Entry>, n: nat, key: Key)
    requires n <= |a| && n <= |b| && forall i :: 0 <= i < n ==> a[i] == b[i]
    ensures HandOffsUpTo(a, n, key) == HandOffsUpTo(b, n, key)
  {
    if n > 0 {
      SamePrefixSameHandOffs(a, b, n - 1, key);
    }
  }

  lemma {:induction false} OneMore(log: seq<Entry>, e: Entry, key: Key)
    ensures HandOffs(log + [e], key) == HandOffs(log, key) + if HandsOn(e, key) then 1 else 0
  {
    SamePrefixSameHandOffs(log, log + [e], |log|, key);
  }

  lemma {:induction false} AckHandsNothingOn(log: seq<Entry>, k: Key, g: nat, outcome: Option<Outcome>, key: Key)
    ensures HandOffs(log + Ack(k, g, outcome), key) == HandOffs(log, key)
  {
    if outcome.Some? {
      OneMore(log, Acked(k, g, outcome.value), key);
    } else {
      assert log + Ack(k, g, outcome) == log;
    }
  }

  lemma {:induction false} MeetHandOffs(p: Limits, w: World, k: Key, meta: Meta, key: Key)
    requires WellFormed(w)
    ensures HandOffs(Meet(p, w, k, meta).log, key) == HandOffs(w.log, key) + if k == key && Admits(p, w, key) then 1 else 0
  {
    var e := Arrived(k, meta, w.clock, if Admits(p, w, k) then Some(|w.cells|) else None);
    OneMore(w.log, e, key);
    if k in w.table {
      AckHandsNothingOn(w.log + [e], k, w.table[k], Refreshed(w.cells[w.table[k]].cell.state, w.clock).outcome, key);
    }
  }

  // ---- Arrivals within one window of the first ----

  predicate IsArrival(e: Entry, key: Key) {
    e.Arrived? && e.key == key
  }

  /** After `n` arrivals of the identity, the log's lie between the first and the last of them. */
  ghost predicate Timed(w: World, key: Key, n: nat, first: u64, last: u64) {
    && HandOffs(w.log, key) <= n && (n > 0 ==> first <= last <= w.clock)
    && forall i :: 0 <= i < |w.log| && IsArrival(w.log[i], key) ==> n > 0 && first <= w.log[i].at <= last
  }

  /** Nothing of the identity is added to the log. */
  lemma {:induction false} OthersKeepTimed(w: World, r: World, key: Key, n: nat, first: u64, last: u64)
    requires Timed(w, key, n, first, last) && w.clock <= r.clock
    requires |w.log| <= |r.log| && HandOffs(r.log, key) <= HandOffs(w.log, key)
    requires forall i :: 0 <= i < |w.log| ==> r.log[i] == w.log[i]
    requires forall i :: |w.log| <= i < |r.log| ==> !IsArrival(r.log[i], key)
    ensures Timed(r, key, n, first, last)
  {
    forall i | 0 <= i < |r.log| && IsArrival(r.log[i], key) ensures IsArrival(w.log[i], key) {
    }
  }

  lemma {:induction false} OwnKeepsTimed(w: World, r: World, key: Key, n: nat, first: u64, last: u64)
    requires Timed(w, key, n, first, last) && w.clock <= r.clock
    requires |w.log| <= |r.log| && HandOffs(r.log, key) <= HandOffs(w.log, key) + 1
    requires forall i :: 0 <= i < |w.log| ==> r.log[i] == w.log[i]
    requires forall i :: |w.log| <= i < |r.log| && IsArrival(r.log[i], key) ==> r.log[i].at == r.clock
    ensures Timed(r, key, n + 1, if n == 0 then r.clock else first, r.clock)
  {
    forall i | 0 <= i < |w.log| && IsArrival(r.log[i], key) ensures IsArrival(w.log[i], key) {
    }
  }

  lemma {:induction false} MeetKeepsTimed(p: Limits, w: World, k: Key, meta: Meta, key: Key, n: nat, first: u64, last: u64)
    requires WellFormed(w) && Timed(w, key, n, first, last)
    ensures var r := Meet(p, w, k, meta);
            if k == key then Timed(r, key, n + 1, if n == 0 then r.clock else first, r.clock) else Timed(r, key, n, first, last)
  {
    var r := Meet(p, w, k, meta);
    MeetHandOffs(p, w, k, meta, key);
    if k == key {
      OwnKeepsTimed(w, r, key, n, first, last);
    } else {
      OthersKeepTimed(w, r, key, n, first, last);
    }
  }

  lemma {:induction false} NextKeepsTimed(p: Limits, w: World, a: Action, key: Key, n: nat, first: u64, last: u64)
    requires WellFormed(w) && Enabled(w, a) && Timed(w, key, n, first, last)
    ensures var r := Next(p, w, a);
            if a.Arrive? && a.key == key then Timed(r, key, n + 1, if n == 0 then a.at else first, a.at) else Timed(r, key, n, first, last)
  {
    match a
    case Sweep(at) =>
    case Arrive(k, meta, payloadLen, at) =>
      if Acceptable(p, meta, payloadLen) {
        MeetKeepsTimed(p, w, k, meta, key, n, first, last);
      }
    case Act(g, action, read) =>
      AckHandsNothingOn(w.log, w.cells[g].key, g, Handled(w.cells[g].cell.state, action, read).1, key);
      OthersKeepTimed(w, Next(p, w, a), key, n, first, last);
  }

  lemma {:induction false} RunIsTimed(p: Limits, actions: seq<Action>, key: Key, ts: seq<u64>)
    requires Runs(p, actions) && ts == Times(actions, key)
    ensures Timed(After(p, actions), key, |ts|, if ts == [] then 0 else ts[0], if ts == [] then 0 else ts[|ts| - 1])
  {
    if actions != [] {
      var front, a := actions[..|actions| - 1], actions[|actions| - 1];
      var before := Times(front, key);
      RunIsTimed(p, front, key, before);
      NextKeepsTimed(p, After(p, front), a, key, |before|, if before == [] then 0 else before[0],
                     if before == [] then 0 else before[|before| - 1]);
      assert ts == before + if a.Arrive? && a.key == key then [a.at] else [];
    }
  }

  lemma {:induction false} OneHandOff(log: seq<Entry>, n: nat, key: Key) returns (i: nat)
    requires n <= |log| && HandOffsUpTo(log, n, key) >= 1
    ensures i < n && HandsOn(log[i], key)
  {
    if HandsOn(log[n - 1], key) {
      i := n - 1;
    } else {
      i := OneHandOff(log, n - 1, key);
    }
  }

  lemma {:induction false} TwoHandOffs(log: seq<Entry>, n: nat, key: Key) returns (i: nat, j: nat)
    requires n <= |log| && HandOffsUpTo(log, n, key) >= 2
    ensures i < j < n && HandsOn(log[i], key) && HandsOn(log[j], key)
  {
    if HandsOn(log[n - 1], key) {
      i := OneHandOff(log, n - 1, key);
      j := n - 1;
    } else {
      i, j := TwoHandOffs(log, n - 1, key);
    }
  }

  /** However late actions land, arrivals within one window of the first hand a frame on at most once. */
  lemma {:induction false} WithinHandsOnOnce(p: Limits, actions: seq<Action>, key: Key)
    requires Runs(p, actions) && Within(Times(actions, key), p.retentionMs)
    ensures HandOffs(After(p, actions).log, key) <= 1
  {
    var log, ts := After(p, actions).log, Times(actions, key);
    if HandOffs(log, key) >= 2 {
      var i, j := TwoHandOffs(log, |log|, key);
      RunIsTimed(p, actions, key, ts);
      HandOffsAreARetentionApart(p, actions, i, j);
      assert false;
    }
  }

  // ---- Arrivals a window apart at most, and prompt actions ----

  /** Handed on at most once, and if so still remembered until a window after its last arrival. */
  ghost predicate Once(p: Limits, w: World, key: Key, meta: Meta, ts: seq<u64>) {
    && HandOffs(w.log, key) <= 1
    && (HandOffs(w.log, key) == 0 ==> key !in w.table)
    && (HandOffs(w.log, key) == 1 ==> ts != [] && Remembered(p, w, key, meta, ts[|ts| - 1]))
  }

  ghost predicate Remembered(p: Limits, w: World, key: Key, meta: Meta, last: u64) {
    && last <= w.clock
    && (|| SatAdd(last, p.retentionMs) <= w.clock
        || (&& key in w.table && w.table[key] < |w.cells| && w.cells[w.table[key]].cell.meta == meta
            && SatAdd(last, p.retentionMs) <= w.cells[w.table[key]].cell.state.retainUntil))
  }

  lemma {:induction false} SweepKeepsOnce(p: Limits, w: World, key: Key, meta: Meta, ts: seq<u64>, now: u64)
    requires Sound(p, w) && Once(p, w, key, meta, ts) && w.clock <= now
    ensures Once(p, AfterSweep(w, now), key, meta, ts)
  {
    if key in w.table {
      var g := w.table[key];
      assert SoundCell(p, w, g) && AfterSweep(w, now).cells[g] == SweptCell(w, g, now);
    }
  }

  /** Another identity arrives. */
  lemma {:induction false} OtherKeepsOnce(p: Limits, w: World, key: Key, meta: Meta, ts: seq<u64>, other: Key, its: Meta)
    requires WellFormed(w) && Once(p, w, key, meta, ts) && other != key
    ensures Once(p, Meet(p, w, other, its), key, meta, ts)
  {
    MeetHandOffs(p, w, other, its, key);
  }

  /** The identity itself arrives again, in time. */
  lemma {:induction false} SameKeepsOnce(p: Limits, w: World, key: Key, meta: Meta, ts: seq<u64>)
    requires Sound(p, w) && Once(p, w, key, meta, ts)
    requires ts != [] ==> w.clock < SatAdd(ts[|ts| - 1], p.retentionMs)
    ensures Once(p, Meet(p, w, key, meta), key, meta, ts + [w.clock])
  {
    MeetHandOffs(p, w, key, meta, key);
    if key in w.table {
      assert SoundCell(p, w, w.table[key]);
    }
  }

  lemma {:induction false} ActKeepsOnce(p: Limits, w: World, key: Key, meta: Meta, ts: seq<u64>, a: Action)
    requires Sound(p, w) && Once(p, w, key, meta, ts) && a.Act? && Enabled(w, a) && w.clock <= a.read
    ensures Once(p, Next(p, w, a), key, meta, ts)
  {
    var state := w.cells[a.record].cell.state;
    AckHandsNothingOn(w.log, w.cells[a.record].key, a.record, Handled(state, a.action, a.read).1, key);
    assert SoundCell(p, w, a.record);
    if ts != [] {
      var floor := SatAdd(ts[|ts| - 1], p.retentionMs);
      if floor <= state.retainUntil && ts[|ts| - 1] <= a.read {
        DeadlineStaysAhead(state, a.action, a.read, floor);
      }
    }
  }

  /** Any action keeps the account, provided the identity's own arrivals come in time. */
  lemma {:induction false} NextKeepsOnce(p: Limits, w: World, key: Key, meta: Meta, ts: seq<u64>, a: Action)
    requires Sound(p, w) && Once(p, w, key, meta, ts) && Enabled(w, a)
    requires a.Arrive? && a.key == key ==> a.meta == meta && Acceptable(p, meta, a.payloadLen)
    requires a.Arrive? && a.key == key && ts != [] ==> a.at < SatAdd(ts[|ts| - 1], p.retentionMs)
    requires a.Act? ==> w.clock <= a.read
    ensures Once(p, Next(p, w, a), key, meta, if a.Arrive? && a.key == key then ts + [a.at] else ts)
  {
    if a.Act? {
      ActKeepsOnce(p, w, key, meta, ts, a);
    } else if a.Sweep? {
      SweepKeepsOnce(p, w, key, meta, ts, a.at);
    } else if a.key == key {
      SameKeepsOnce(p, w, key, meta, ts);
    } else if Acceptable(p, a.meta, a.payloadLen) {
      OtherKeepsOnce(p, w, key, meta, ts, a.key, a.meta);
    }
  }

  /** The clock stands where the last sweep put it. */
  lemma {:induction false} ClockIsOfASweep(p: Limits, actions: seq<Action>)
    requires Runs(p, actions)
    ensures After(p, actions).clock == 0 || exists i :: 0 <= i < |actions| && actions[i].Sweep? && actions[i].at == After(p, actions).clock
  {
    if actions != [] {
      var front := actions[..|actions| - 1];
      ClockIsOfASweep(p, front);
      if i :| 0 <= i < |front| && front[i].Sweep? && front[i].at == After(p, front).clock {
        assert actions[i] == front[i];
      }
    }
  }

  /** Prompt actions and arrivals that follow each other within the retention window hand a frame on at most once. */
  lemma {:induction false} ShortGapsHandOnOnce(p: Limits, actions: seq<Action>, key: Key, meta: Meta)
    requires Runs(p, actions) && Prompt(actions) && Uniform(p, actions, key, meta) && ShortGaps(Times(actions, key), p.retentionMs)
    ensures Once(p, After(p, actions), key, meta, Times(actions, key))
  {
    if actions != [] {
      var front, a := actions[..|actions| - 1], actions[|actions| - 1];
      var ts, all := Times(front, key), Times(actions, key);
      assert ts <= all;
      ShortGapsHandOnOnce(p, front, key, meta);
      RunKeepsSafe(p, front);
      if a.Arrive? && a.key == key && ts != [] {
        assert all[|ts|] == a.at && all[|ts| - 1] == ts[|ts| - 1];
      }
      ClockIsOfASweep(p, front);
      NextKeepsOnce(p, After(p, front), key, meta, ts, a);
    }
  }

  // ---- The gap that is too long ----

  /** Either already handed on twice, or one terminal record that expires a window after the last arrival. */
  ghost predicate Cornered(p: Limits, w: World, key: Key, meta: Meta, ts: seq<u64>) {
    || HandOffs(w.log, key) >= 2
    || (&& HandOffs(w.log, key) == 1 && ts != [] && ShortGaps(ts, p.retentionMs) && Alone(p, w, key, meta)
        && Terminal(w.cells[0].cell.state)
        && w.cells[0].cell.queuedAt <= w.cells[0].cell.state.retainUntil == SatAdd(ts[|ts| - 1], p.retentionMs))
  }

  /** The identity's record is the only one there ever was. */
  predicate Alone(p: Limits, w: World, key: Key, meta: Meta) {
    && w.table == map[key := 0] && |w.cells| == 1 && w.cells[0].key == key && w.cells[0].cell.meta == meta
    && w.cells[0].cell.state.retentionMs == p.retentionMs
  }

  lemma {:induction false} TimesOneMore(actions: seq<Action>, a: Action, key: Key)
    ensures Times(actions + [a], key) == Times(actions, key) + if a.Arrive? && a.key == key then [a.at] else []
  {
  }

  /** The frame arrives at an endpoint that knows nothing yet. */
  lemma {:induction false} FirstArrival(p: Limits, key: Key, meta: Meta, t: u64) returns (met: World)
    requires p.capacity > 0
    ensures met == Meet(p, AfterSweep(IDLE, t), key, meta) && HandOffs(met.log, key) == 1 && met.clock == t
    ensures met.table == map[key := 0] && met.cells == [Held(key, t, NewCell(meta, t, p.retentionMs))]
  {
    var swept := AfterSweep(IDLE, t);
    assert swept.table == map[] && swept.cells == [] && swept.log == [];
    met := Meet(p, swept, key, meta);
    MeetHandOffs(p, swept, key, meta, key);
  }

  /** All arrivals of the identity are the same acceptable frame, and every action is prompt. */
  predicate Orderly(p: Limits, actions: seq<Action>, key: Key, meta: Meta) {
    Uniform(p, actions, key, meta) && Prompt(actions)
  }

  lemma {:induction false} OrderlyOneMore(p: Limits, actions: seq<Action>, a: Action, key: Key, meta: Meta)
    requires Orderly(p, actions, key, meta)
    requires a.Arrive? && a.key == key ==> a.meta == meta && Acceptable(p, meta, a.payloadLen)
    requires a.Act? ==> forall i :: 0 <= i < |actions| && actions[i].Sweep? ==> actions[i].at <= a.read
    ensures Orderly(p, actions + [a], key, meta)
  {
  }

  lemma {:induction false} ArrivalRuns(p: Limits, script: seq<Action>, swept: seq<Action>, arrive: Action)
    requires Runs(p, script) && arrive.Arrive? && After(p, script).clock <= arrive.at && Acceptable(p, arrive.meta, arrive.payloadLen)
    requires swept == script + [Sweep(arrive.at)]
    ensures Runs(p, swept + [arrive])
    ensures After(p, swept + [arrive]) == Meet(p, AfterSweep(After(p, script), arrive.at), arrive.key, arrive.meta)
  {
    RunsOneMore(p, script, Sweep(arrive.at));
    RunsOneMore(p, swept, arrive);
  }

  lemma {:induction false} ArrivalIsOrderly(p: Limits, script: seq<Action>, swept: seq<Action>, arrive: Action)
    requires arrive.Arrive? && Acceptable(p, arrive.meta, arrive.payloadLen) && swept == script + [Sweep(arrive.at)]
    requires Orderly(p, script, arrive.key, arrive.meta)
    ensures Orderly(p, swept + [arrive], arrive.key, arrive.meta)
  {
    OrderlyOneMore(p, script, Sweep(arrive.at), arrive.key, arrive.meta);
    OrderlyOneMore(p, swept, arrive, arrive.key, arrive.meta);
  }

  /** One more arrival of the frame: a sweep, and the frame meets the swept table. */
  lemma {:induction false} OneMoreArrival(p: Limits, script: seq<Action>, key: Key, meta: Meta, t: u64) returns (longer: seq<Action>)
    requires Runs(p, script) && After(p, script).clock <= t && Acceptable(p, meta, 0)
    ensures longer == script + [Sweep(t)] + [Arrive(key, meta, 0, t)]
    ensures Runs(p, longer) && After(p, longer) == Meet(p, AfterSweep(After(p, script), t), key, meta)
    ensures Times(longer, key) == Times(script, key) + [t]
    ensures Orderly(p, script, key, meta) ==> Orderly(p, longer, key, meta)
  {
    var swept, arrive := script + [Sweep(t)], Arrive(key, meta, 0, t);
    longer := swept + [arrive];
    ArrivalRuns(p, script, swept, arrive);
    TimesOneMore(script, Sweep(t), key);
    TimesOneMore(swept, arrive, key);
    if Orderly(p, script, key, meta) {
      ArrivalIsOrderly(p, script, swept, arrive);
    }
  }

  lemma {:induction false} FirstRun(p: Limits, key: Key, meta: Meta, t: u64) returns (script: seq<Action>, met: World)
    requires p.capacity > 0 && Acceptable(p, meta, 0)
    ensures script == [Sweep(t), Arrive(key, meta, 0, t)] && Runs(p, script) && After(p, script) == met && Times(script, key) == [t]
    ensures Orderly(p, script, key, meta)
    ensures HandOffs(met.log, key) == 1 && met.clock == t
    ensures met.table == map[key := 0] && met.cells == [Held(key, t, NewCell(meta, t, p.retentionMs))]
  {
    met := FirstArrival(p, key, meta, t);
    script := OneMoreArrival(p, [], key, meta, t);
    assert [] + [Sweep(t)] + [Arrive(key, meta, 0, t)] == [Sweep(t), Arrive(key, meta, 0, t)];
  }

  /** Acting on the only record hands nothing on. */
  lemma {:induction false} ActAlone(p: Limits, w: World, key: Key, meta: Meta, read: u64) returns (r: World)
    requires WellFormed(w) && Alone(p, w, key, meta) && w.cells[0].since <= read && w.cells[0].cell.state.delivery != BestEffort
    ensures r == Next(p, w, Act(0, WasApplied, read)) && WellFormed(r) && r.clock == w.clock && HandOffs(r.log, key) == HandOffs(w.log, key)
    ensures Alone(p, r, key, meta) && r.cells[0].cell == w.cells[0].cell.(state := Handled(w.cells[0].cell.state, WasApplied, read).0)
  {
    r := Next(p, w, Act(0, WasApplied, read));
    AckHandsNothingOn(w.log, key, 0, Handled(w.cells[0].cell.state, WasApplied, read).1, key);
  }

  /** The frame arrives, and is applied at once. */
  lemma {:induction false} StartIsCornered(p: Limits, key: Key, meta: Meta, t: u64) returns (script: seq<Action>, w: World)
    requires p.capacity > 0 && Acceptable(p, meta, 0)
    ensures Runs(p, script) && After(p, script) == w && w.clock == t && Cornered(p, w, key, meta, [t])
    ensures Orderly(p, script, key, meta) && Times(script, key) == [t]
  {
    var act := Act(0, WasApplied, t);
    var first, met := FirstRun(p, key, meta, t);
    w := ActAlone(p, met, key, meta, t);
    script := first + [act];
    RunsOneMore(p, first, act);
    TimesOneMore(first, act, key);
    OrderlyOneMore(p, first, act, key, meta);
  }

  lemma {:induction false} ArrivalKeepsCornered(p: Limits, w: World, key: Key, meta: Meta, ts: seq<u64>, t: u64)
    requires p.capacity > 0 && WellFormed(w) && w.clock <= t
    requires Cornered(p, w, key, meta, ts) && (ts != [] ==> ts[|ts| - 1] <= t)
    ensures Cornered(p, Meet(p, AfterSweep(w, t), key, meta), key, meta, ts + [t])
  {
    var s := AfterSweep(w, t);
    MeetHandOffs(p, s, key, meta, key);
    if HandOffs(w.log, key) == 1 {
      assert Live(w, 0) && s.cells[0] == SweptCell(w, 0, t);
      if t < SatAdd(ts[|ts| - 1], p.retentionMs) {
        assert s.table == w.table;
      } else {
        assert s.table == map[];
      }
    }
  }

  /** One more arrival. */
  lemma {:induction false} ScriptOn(p: Limits, script: seq<Action>, w: World, key: Key, meta: Meta, ts: seq<u64>, t: u64)
    returns (longer: seq<Action>, r: World)
    requires p.capacity > 0 && Acceptable(p, meta, 0) && ts != [] && ts[|ts| - 1] <= t
    requires Runs(p, script) && After(p, script) == w && w.clock == ts[|ts| - 1] && Times(script, key) == ts
    requires Cornered(p, w, key, meta, ts) && Orderly(p, script, key, meta)
    ensures Runs(p, longer) && After(p, longer) == r && r.clock == t && Times(longer, key) == ts + [t]
    ensures Cornered(p, r, key, meta, ts + [t]) && Orderly(p, longer, key, meta)
  {
    ArrivalKeepsCornered(p, w, key, meta, ts, t);
    longer := OneMoreArrival(p, script, key, meta, t);
    r := Meet(p, AfterSweep(w, t), key, meta);
  }

  /** The frame arrives at the given times and is applied as soon as it is first handed on. */
  lemma {:induction false} Script(p: Limits, key: Key, meta: Meta, ts: seq<u64>) returns (script: seq<Action>, w: World)
    requires p.capacity > 0 && Acceptable(p, meta, 0) && Rising(ts) && ts != []
    ensures Runs(p, script) && After(p, script) == w && w.clock == ts[|ts| - 1] && Times(script, key) == ts
    ensures Cornered(p, w, key, meta, ts) && Orderly(p, script, key, meta)
  {
    var front, t := ts[..|ts| - 1], ts[|ts| - 1];
    assert front + [t] == ts;
    if front == [] {
      assert ts == [t];
      script, w := StartIsCornered(p, key, meta, t);
    } else {
      script, w := Script(p, key, meta, front);
      script, w := ScriptOn(p, script, w, key, meta, front, t);
    }
  }

  /**
   When every action's clock read is as late as the arrivals before it: a frame arriving at times
   `ts` is handed on at most once in every run, whatever else arrives and whatever the application
   does, exactly when no two consecutive arrivals are a retention window or more apart.
   */
  lemma {:induction false} PromptAtMostOnceIffGapsAreShort(p: Limits, key: Key, meta: Meta, ts: seq<u64>)
    requires p.capacity > 0 && Acceptable(p, meta, 0) && Rising(ts)
    ensures (forall actions :: Runs(p, actions) && Prompt(actions) && Uniform(p, actions, key, meta) && Times(actions, key) == ts
                               ==> HandOffs(After(p, actions).log, key) <= 1)
            <==> ShortGaps(ts, p.retentionMs)
  {
    if ShortGaps(ts, p.retentionMs) {
      forall actions | Runs(p, actions) && Prompt(actions) && Uniform(p, actions, key, meta) && Times(actions, key) == ts
        ensures HandOffs(After(p, actions).log, key) <= 1
      {
        ShortGapsHandOnOnce(p, actions, key, meta);
      }
    } else {
      var script, w := Script(p, key, meta, ts);
      assert HandOffs(After(p, script).log, key) >= 2;
    }
  }

  // ---- The action that lands too late ----

  /** One undecided record, refreshed by every arrival, whose heap entry still stands at the first one's deadline. */
  ghost predicate Waiting(p: Limits, w: World, key: Key, meta: Meta, ts: seq<u64>) {
    && HandOffs(w.log, key) == 1 && ts != [] && Alone(p, w, key, meta)
    && w.cells[0].since == ts[0]
    && w.cells[0].cell == Cell(meta, NewReceipt(meta.delivery, ts[|ts| - 1], p.retentionMs), SatAdd(ts[0], p.retentionMs))
  }

  lemma {:induction false} FirstIsWaiting(p: Limits, w: World, key: Key, meta: Meta, t: u64)
    requires HandOffs(w.log, key) == 1
    requires w.table == map[key := 0] && w.cells == [Held(key, t, NewCell(meta, t, p.retentionMs))]
    ensures Waiting(p, w, key, meta, [t])
  {
  }

  /** One more arrival within a window of the first. */
  lemma {:induction false} ArrivalKeepsWaiting(p: Limits, w: World, key: Key, meta: Meta, ts: seq<u64>, t: u64)
    requires WellFormed(w) && w.clock <= t && Waiting(p, w, key, meta, ts) && Rising(ts)
    requires t < SatAdd(ts[0], p.retentionMs)
    ensures Waiting(p, Meet(p, AfterSweep(w, t), key, meta), key, meta, ts + [t])
  {
    var s := AfterSweep(w, t);
    assert Live(w, 0) && s.cells[0] == SweptCell(w, 0, t) == w.cells[0];
    assert s.table == w.table;
    MeetHandOffs(p, s, key, meta, key);
  }

  /** An action with the first arrival's clock read brings the deadline back, and the next arrival finds the record gone. */
  lemma {:induction false} LateActionLosesTheRecord(p: Limits, w: World, key: Key, meta: Meta, ts: seq<u64>, t: u64) returns (acted: World)
    requires p.capacity > 0 && meta.delivery != BestEffort
    requires WellFormed(w) && w.clock <= t && Waiting(p, w, key, meta, ts) && SatAdd(ts[0], p.retentionMs) <= t
    ensures acted == Next(p, w, Act(0, WasApplied, ts[0])) && WellFormed(acted) && acted.clock == w.clock
    ensures HandOffs(Meet(p, AfterSweep(acted, t), key, meta).log, key) == 2
  {
    acted := ActAlone(p, w, key, meta, ts[0]);
    var s := AfterSweep(acted, t);
    assert Looked(acted.cells[0].cell, t).None?;
    assert s.table == map[];
    MeetHandOffs(p, s, key, meta, key);
  }

  lemma {:induction false} ArrivalKeepsHandOffs(p: Limits, w: World, key: Key, meta: Meta, t: u64)
    requires WellFormed(w) && w.clock <= t
    ensures HandOffs(Meet(p, AfterSweep(w, t), key, meta).log, key) >= HandOffs(w.log, key)
  {
    MeetHandOffs(p, AfterSweep(w, t), key, meta, key);
  }

  /** One more arrival, after one late action if that loses the record. */
  lemma {:induction false} RaceOn(p: Limits, script: seq<Action>, w: World, key: Key, meta: Meta, ts: seq<u64>, t: u64)
    returns (longer: seq<Action>, r: World)
    requires p.capacity > 0 && Acceptable(p, meta, 0) && Rising(ts + [t]) && ts != []
    requires Runs(p, script) && After(p, script) == w && w.clock == ts[|ts| - 1] && Times(script, key) == ts
    requires HandOffs(w.log, key) >= 2 || Waiting(p, w, key, meta, ts)
    ensures Runs(p, longer) && After(p, longer) == r && r.clock == t && Times(longer, key) == ts + [t]
    ensures HandOffs(r.log, key) >= 2 || (t < SatAdd(ts[0], p.retentionMs) && Waiting(p, r, key, meta, ts + [t]))
  {
    var act := Act(0, WasApplied, ts[0]);
    assert ts[|ts| - 1] <= t by {
      assert (ts + [t])[|ts| - 1] <= (ts + [t])[|ts|];
    }
    longer, r := script, w;
    if HandOffs(w.log, key) < 2 && SatAdd(ts[0], p.retentionMs) <= t {
      r := LateActionLosesTheRecord(p, w, key, meta, ts, t);
      RunsOneMore(p, script, act);
      TimesOneMore(script, act, key);
      longer := script + [act];
    } else if HandOffs(w.log, key) < 2 {
      assert Rising(ts) by {
        assert forall i :: 0 <= i < |ts| ==> (ts + [t])[i] == ts[i];
      }
      ArrivalKeepsWaiting(p, w, key, meta, ts, t);
    } else {
      ArrivalKeepsHandOffs(p, w, key, meta, t);
    }
    longer := OneMoreArrival(p, longer, key, meta, t);
    r := Meet(p, AfterSweep(r, t), key, meta);
  }

  /** The frame arrives at the given times, and its first receipt is acted on as late as it takes. */
  lemma {:induction false} RaceScript(p: Limits, key: Key, meta: Meta, ts: seq<u64>) returns (script: seq<Action>, w: World)
    requires p.capacity > 0 && Acceptable(p, meta, 0) && Rising(ts) && ts != []
    ensures Runs(p, script) && After(p, script) == w && w.clock == ts[|ts| - 1] && Times(script, key) == ts
    ensures HandOffs(w.log, key) >= 2 || (Within(ts, p.retentionMs) && Waiting(p, w, key, meta, ts))
  {
    var front, t := ts[..|ts| - 1], ts[|ts| - 1];
    assert front + [t] == ts;
    if front == [] {
      assert ts == [t];
      script, w := FirstRun(p, key, meta, t);
      FirstIsWaiting(p, w, key, meta, t);
    } else {
      script, w := RaceScript(p, key, meta, front);
      script, w := RaceOn(p, script, w, key, meta, front, t);
    }
  }

  /**
   A frame arriving at times `ts` is handed on at most once in every run, whatever else arrives,
   whatever the application does and however stale the clock it does it with, exactly when the last
   arrival comes within a retention window of the first.
   */
  lemma {:induction false} AtMostOnceIffWithin(p: Limits, key: Key, meta: Meta, ts: seq<u64>)
    requires p.capacity > 0 && Acceptable(p, meta, 0) && Rising(ts)
    ensures (forall actions :: Runs(p, actions) && Times(actions, key) == ts ==> HandOffs(After(p, actions).log, key) <= 1)
            <==> Within(ts, p.retentionMs)
  {
    if Within(ts, p.retentionMs) {
      forall actions | Runs(p, actions) && Times(actions, key) == ts ensures HandOffs(After(p, actions).log, key) <= 1 {
        WithinHandsOnOnce(p, actions, key);
      }
    } else {
      var script, w := RaceScript(p, key, meta, ts);
      assert HandOffs(After(p, script).log, key) >= 2;
    }
  }
}
