/**
 One receiving endpoint over a whole run: acknowledged frames arrive in any order and any
 number of times, and the application acts on the receipts it was handed, even on those whose
 records have long left the table. The log is what an observer outside the endpoint sees.
 */
module MessagingRuns {
  import opened Common
  import opened Receipts
  import opened Received

  datatype Limits = Limits(maxPayload: nat, maxTimeoutMs: u64, capacity: nat, retentionMs: u64)

  /** A record with the identity and the instant it was admitted under. */
  datatype Held = Held(key: Key, since: u64, cell: Cell)

  datatype Entry =
    | Arrived(key: Key, meta: Meta, at: u64, admitted: Option<nat>)
    | Acked(key: Key, record: nat, outcome: Outcome)

  /** `cells` are all records ever admitted, `table` the ones the endpoint still knows. */
  datatype World = World(clock: u64, table: map<Key, nat>, cells: seq<Held>, log: seq<Entry>)

  /**
   An arriving frame reads the clock under the endpoint's lock, sweeps the table and then meets it; the
   application may act on a record in between. The application reads the clock before it takes the
   record's lock, so other steps may come between the instant `read` and the action itself.
   */
  datatype Action =
    | Sweep(at: u64)
    | Arrive(key: Key, meta: Meta, payloadLen: nat, at: u64)
    | Act(record: nat, action: Outcome, read: u64)

  const IDLE := World(0, map[], [], [])

  predicate Live(w: World, g: nat) {
    g < |w.cells| && w.cells[g].key in w.table && w.table[w.cells[g].key] == g
  }

  predicate WellFormed(w: World) {
    forall k :: k in w.table ==> w.table[k] < |w.cells| && w.cells[w.table[k]].key == k
  }

  /** The endpoint's table as its own code sees it. */
  function Rows(w: World): Table
    requires WellFormed(w)
  {
    map k | k in w.table :: w.cells[w.table[k]].cell
  }

  /** What a sweep makes of a record: due entries of the table are looked at, everything else is left alone. */
  function SweptCell(w: World, g: nat, now: u64): Held
    requires g < |w.cells|
  {
    var c := w.cells[g].cell;
    if Live(w, g) && c.queuedAt <= now then
      var s := Retired(c.state, now);
      w.cells[g].(cell := Cell(c.meta, s, s.retainUntil))
    else w.cells[g]
  }

  function AfterSweep(w: World, now: u64): (r: World)
    requires WellFormed(w)
    ensures WellFormed(r) && r.log == w.log && |r.cells| == |w.cells| && r.clock == now
    ensures forall g :: 0 <= g < |w.cells| ==> r.cells[g] == SweptCell(w, g, now)
    ensures forall k :: k in r.table <==> k in w.table && Looked(w.cells[w.table[k]].cell, now).Some?
    ensures forall k :: k in r.table ==> r.table[k] == w.table[k]
  {
    World(now,
          map k | k in w.table && Looked(w.cells[w.table[k]].cell, now).Some? :: w.table[k],
          seq(|w.cells|, g requires 0 <= g < |w.cells| => SweptCell(w, g, now)),
          w.log)
  }

  function Ack(key: Key, g: nat, outcome: Option<Outcome>): seq<Entry> {
    if outcome.Some? then [Acked(key, g, outcome.value)] else []
  }

  /** A frame is handed on exactly when its identity is unknown and there is room for its record. */
  predicate Admits(p: Limits, w: World, key: Key) {
    key !in w.table && |w.table.Keys| < p.capacity
  }

  /** The world with record `g` in state `s`. */
  function WithState(w: World, g: nat, s: ReceiptState): seq<Held>
    requires g < |w.cells|
  {
    w.cells[g := w.cells[g].(cell := w.cells[g].cell.(state := s))]
  }

  /** A frame for a table just swept. */
  function Meet(p: Limits, w: World, key: Key, meta: Meta): (r: World)
    requires WellFormed(w)
    ensures WellFormed(r) && r.clock == w.clock
  {
    var seen := w.log + [Arrived(key, meta, w.clock, if Admits(p, w, key) then Some(|w.cells|) else None)];
    if Admits(p, w, key) then
      World(w.clock, w.table[key := |w.cells|], w.cells + [Held(key, w.clock, NewCell(meta, w.clock, p.retentionMs))], seen)
    else if key in w.table && w.cells[w.table[key]].cell.meta == meta then
      var g := w.table[key];
      var s := Refreshed(w.cells[g].cell.state, w.clock);
      w.(cells := WithState(w, g, s), log := seen + Ack(key, g, s.outcome))
    else w.(log := seen)
  }

  predicate Acceptable(p: Limits, meta: Meta, payloadLen: nat) {
    payloadLen <= p.maxPayload && meta.horizonMs <= p.maxTimeoutMs && meta.delivery != BestEffort
  }

  /**
   Sweeps come in time order, a frame meets the table at the instant of the last one, and a receipt
   can be acted on with any clock read since it was handed out.
   */
  predicate Enabled(w: World, a: Action) {
    match a
    case Sweep(at) => w.clock <= at
    case Arrive(_, _, _, at) => w.clock == at
    case Act(g, _, read) => g < |w.cells| && w.cells[g].since <= read
  }

  function Next(p: Limits, w: World, a: Action): (r: World)
    requires WellFormed(w) && Enabled(w, a)
    ensures WellFormed(r) && r.clock == if a.Sweep? then a.at else w.clock
  {
    match a
    case Sweep(at) => AfterSweep(w, at)
    case Arrive(key, meta, payloadLen, _) => if Acceptable(p, meta, payloadLen) then Meet(p, w, key, meta) else w
    case Act(g, action, read) =>
      var (s, ack) := Handled(w.cells[g].cell.state, action, read);
      w.(cells := WithState(w, g, s), log := w.log + Ack(w.cells[g].key, g, ack))
  }

  predicate Runs(p: Limits, actions: seq<Action>)
    decreases |actions|, 0
  {
    actions != [] ==>
      var front := actions[..|actions| - 1];
      Runs(p, front) && Enabled(After(p, front), actions[|actions| - 1])
  }

  /** The endpoint after a run from the start. */
  function After(p: Limits, actions: seq<Action>): (w: World)
    requires Runs(p, actions)
    ensures WellFormed(w)
    decreases |actions|, 1
  {
    if actions == [] then IDLE
    else Next(p, After(p, actions[..|actions| - 1]), actions[|actions| - 1])
  }

  lemma {:induction false} RunsOneMore(p: Limits, actions: seq<Action>, a: Action)
    requires Runs(p, actions) && Enabled(After(p, actions), a)
    ensures Runs(p, actions + [a]) && After(p, actions + [a]) == Next(p, After(p, actions), a)
  {
  }

  /** Sweeping the run's table is sweeping the endpoint's. */
  lemma {:induction false} SweepIsLazySweep(w: World, at: u64)
    requires WellFormed(w)
    ensures Rows(AfterSweep(w, at)) == LazySweep(Rows(w), at)
  {
  }

  lemma {:induction false} ChangedRow(w: World, key: Key, state: ReceiptState)
    requires WellFormed(w) && key in w.table
    ensures var changed := w.(cells := WithState(w, w.table[key], state));
            WellFormed(changed) && Rows(changed) == Rows(w)[key := Rows(w)[key].(state := state)]
  {
  }

  lemma {:induction false} AddedRow(w: World, key: Key, cell: Cell)
    requires WellFormed(w) && key !in w.table
    ensures var added := w.(table := w.table[key := |w.cells|], cells := w.cells + [Held(key, w.clock, cell)]);
            WellFormed(added) && Rows(added) == Rows(w)[key := cell]
  {
  }

  /** Meeting a swept table is what the endpoint's tracking decides. */
  lemma {:induction false} MeetIsDecided(p: Limits, w: World, key: Key, meta: Meta)
    requires WellFormed(w)
    ensures Rows(Meet(p, w, key, meta)) == Decided(Rows(w), key, meta, w.clock, p.capacity, p.retentionMs).0
  {
    assert Rows(w).Keys == w.table.Keys;
    if key in w.table {
      ChangedRow(w, key, Refreshed(w.cells[w.table[key]].cell.state, w.clock));
    } else {
      AddedRow(w, key, NewCell(meta, w.clock, p.retentionMs));
    }
  }

  /**
   What a decision shows outside: an admitted frame is handed on under a new record, a replayed outcome is
   acknowledged again, and everything else is silent.
   */
  function Logged(w: World, key: Key, meta: Meta, d: Decision): seq<Entry>
    requires d.Replayed? ==> key in w.table
  {
    match d
    case Admitted => [Arrived(key, meta, w.clock, Some(|w.cells|))]
    case Replayed(Some(outcome)) => [Arrived(key, meta, w.clock, None), Acked(key, w.table[key], outcome)]
    case Replayed(None) => [Arrived(key, meta, w.clock, None)]
    case Mismatched => [Arrived(key, meta, w.clock, None)]
    case NoRoom => [Arrived(key, meta, w.clock, None)]
  }

  lemma {:induction false} MeetLogsTheDecision(p: Limits, w: World, key: Key, meta: Meta)
    requires WellFormed(w)
    ensures var d := Decided(Rows(w), key, meta, w.clock, p.capacity, p.retentionMs).1;
            (d.Replayed? ==> key in w.table) && Meet(p, w, key, meta).log == w.log + Logged(w, key, meta, d)
  {
    assert Rows(w).Keys == w.table.Keys;
    if key in w.table && w.cells[w.table[key]].cell.meta == meta {
      var ack := Ack(key, w.table[key], Refreshed(w.cells[w.table[key]].cell.state, w.clock).outcome);
      var arrived := [Arrived(key, meta, w.clock, None)];
      assert w.log + arrived + ack == w.log + (arrived + ack);
      assert arrived + [] == arrived;
    }
  }

  /** The run steps treat the table exactly as `Records.Track` does, and log exactly what its decision calls for. */
  lemma {:induction false} ArrivalIsTracked(p: Limits, w: World, key: Key, meta: Meta, at: u64)
    requires WellFormed(w)
    ensures var (table, d) := Tracked(Rows(w), key, meta, at, p.capacity, p.retentionMs);
            var swept := AfterSweep(w, at);
            && Rows(Meet(p, swept, key, meta)) == table
            && (d.Replayed? ==> key in swept.table) && Meet(p, swept, key, meta).log == w.log + Logged(swept, key, meta, d)
  {
    SweepIsLazySweep(w, at);
    MeetIsDecided(p, AfterSweep(w, at), key, meta);
    MeetLogsTheDecision(p, AfterSweep(w, at), key, meta);
  }

  /** Acting changes the record's own row as `Records.HandleAt` does, and none once the record left the table. */
  lemma {:induction false} ActionIsHandled(p: Limits, w: World, g: nat, action: Outcome, read: u64)
    requires WellFormed(w) && Enabled(w, Act(g, action, read))
    ensures var r := Next(p, w, Act(g, action, read));
            var key := w.cells[g].key;
            if Live(w, g) then Rows(r) == Rows(w)[key := Rows(w)[key].(state := Handled(Rows(w)[key].state, action, read).0)]
            else Rows(r) == Rows(w)
  {
    if Live(w, g) {
      ChangedRow(w, w.cells[g].key, Handled(w.cells[g].cell.state, action, read).0);
    }
  }
}
