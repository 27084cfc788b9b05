/** The table of receive records, and the heap of deadlines that is brought up to date only when it is swept. */
module Received {
  import opened Common
  import opened Receipts

  /** A sender-scoped frame identity. */
  datatype Key = Key(from: NodeId, id: Bytes)

  /** What a duplicate must repeat exactly; the payload is represented by its digest. */
  datatype Meta = Meta(delivery: Delivery, horizonMs: u64, group: Option<Bytes>, fingerprint: Bytes)

  datatype Deadline = Deadline(at: u64, key: Key)

  /** A record and the instant its heap entry was last queued for. */
  datatype Cell = Cell(meta: Meta, state: ReceiptState, queuedAt: u64)

  type Table = map<Key, Cell>

  /** Retiring and expiring every record of the table, one by one. */
  function FullSweep(t: Table, now: u64): Table {
    map k | k in t && Swept(t[k].state, now).Some? :: t[k].(state := Swept(t[k].state, now).value)
  }

  /** A record whose entry is due is retired, then dropped or queued again; others are not looked at. */
  function Looked(c: Cell, now: u64): Option<Cell> {
    if now < c.queuedAt then Some(c)
    else
      match Swept(c.state, now)
      case None => None
      case Some(s) => Some(Cell(c.meta, s, s.retainUntil))
  }

  function LazySweep(t: Table, now: u64): Table {
    map k | k in t && Looked(t[k], now).Some? :: Looked(t[k], now).value
  }

  /** The tables hold the same records in the same states. */
  ghost predicate SameStates(a: Table, b: Table) {
    a.Keys == b.Keys && forall k :: k in a && k in b ==> a[k].meta == b[k].meta && a[k].state == b[k].state
  }

  /** No record's own deadline has passed while its entry is still ahead. */
  predicate NoneOverlooked(t: Table, now: u64) {
    forall k :: k in t && now < t[k].queuedAt ==> now < t[k].state.retainUntil
  }

  /** Looking only at due entries does the work of looking at every record, exactly when none is overlooked. */
  lemma {:induction false} LazyIsFullIff(t: Table, now: u64)
    ensures SameStates(LazySweep(t, now), FullSweep(t, now)) <==> NoneOverlooked(t, now)
  {
    forall k | k in t ensures now < t[k].state.retainUntil ==> Swept(t[k].state, now) == Some(t[k].state) {
      SweptIsNotDue(t[k].state, now);
    }
    if k :| k in t && now < t[k].queuedAt && t[k].state.retainUntil <= now {
      assert k in LazySweep(t, now) && LazySweep(t, now)[k] == t[k];
      SweptIsNotDue(t[k].state, now);
    }
  }

  datatype Decision = Mismatched | Replayed(outcome: Option<Outcome>) | NoRoom | Admitted

  /** An acknowledged frame meets a table just swept. */
  function Decided(t: Table, key: Key, meta: Meta, now: u64, capacity: nat, retentionMs: u64): (Table, Decision) {
    if key in t then
      if t[key].meta != meta then (t, Mismatched)
      else
        var s := Refreshed(t[key].state, now);
        (t[key := t[key].(state := s)], Replayed(s.outcome))
    else if |t.Keys| >= capacity then (t, NoRoom)
    else (t[key := NewCell(meta, now, retentionMs)], Admitted)
  }

  function NewCell(meta: Meta, now: u64, retentionMs: u64): Cell {
    var s := NewReceipt(meta.delivery, now, retentionMs);
    Cell(meta, s, s.retainUntil)
  }

  function Tracked(t: Table, key: Key, meta: Meta, now: u64, capacity: nat, retentionMs: u64): (Table, Decision) {
    Decided(LazySweep(t, now), key, meta, now, capacity, retentionMs)
  }

  /** The heap holds exactly one entry per record, at the instant it was last queued for. */
  ghost predicate Lists(ds: seq<Deadline>, t: Table) {
    && (forall i :: 0 <= i < |ds| ==> ds[i].key in t && ds[i].at == t[ds[i].key].queuedAt)
    && (forall i, j :: 0 <= i < j < |ds| ==> ds[i].key != ds[j].key)
    && (forall k :: k in t ==> HasEntry(ds, k))
  }

  predicate HasEntry(ds: seq<Deadline>, k: Key) {
    exists i :: 0 <= i < |ds| && ds[i].key == k
  }

  lemma {:induction false} PushLists(ds: seq<Deadline>, t: Table, k: Key, c: Cell)
    requires Lists(ds, t) && k !in t
    ensures Lists(ds + [Deadline(c.queuedAt, k)], t[k := c])
  {
    var new_ := ds + [Deadline(c.queuedAt, k)];
    assert new_[|ds|].key == k;
    forall j | j in t ensures HasEntry(new_, j) {
      var i :| 0 <= i < |ds| && ds[i].key == j;
      assert new_[i].key == j;
    }
  }

  lemma {:induction false} ChangeLists(ds: seq<Deadline>, t: Table, k: Key, s: ReceiptState)
    requires Lists(ds, t) && k in t
    ensures Lists(ds, t[k := t[k].(state := s)])
  {
  }

  lemma {:induction false} RequeueLists(ds: seq<Deadline>, t: Table, i: nat, c: Cell)
    requires Lists(ds, t) && i < |ds|
    ensures Lists(ds[i := Deadline(c.queuedAt, ds[i].key)], t[ds[i].key := c])
  {
    var new_ := ds[i := Deadline(c.queuedAt, ds[i].key)];
    forall k | k in t ensures HasEntry(new_, k) {
      var j :| 0 <= j < |ds| && ds[j].key == k;
      assert new_[j].key == k;
    }
  }

  lemma {:induction false} RemoveLists(ds: seq<Deadline>, t: Table, i: nat)
    requires Lists(ds, t) && i < |ds|
    ensures Lists(ds[..i] + ds[i + 1..], t - {ds[i].key})
  {
    var new_ := ds[..i] + ds[i + 1..];
    assert forall j :: 0 <= j < |new_| ==> new_[j] == ds[if j < i then j else j + 1];
    forall k | k in t && k != ds[i].key ensures HasEntry(new_, k) {
      var j :| 0 <= j < |ds| && ds[j].key == k;
      assert new_[if j < i then j else j - 1].key == k;
    }
  }

  /** One record, shared by the table and every receipt handed to the application. */
  class Record {
    const meta: Meta
    var state: ReceiptState

    constructor (meta: Meta, now: u64, retentionMs: u64)
      ensures this.meta == meta && state == NewReceipt(meta.delivery, now, retentionMs)
    {
      this.meta := meta;
      state := NewReceipt(meta.delivery, now, retentionMs);
    }

    method Retire(now: u64)
      modifies this
      ensures state == Retired(old(state), now)
    {
      if !Terminal(state) && now >= state.retainUntil {
        state := state.(outcome := Some(WasRejected(Interrupted)));
        state := state.(retainUntil := SatAdd(now, state.retentionMs));
      }
    }

    method Act(action: Outcome, now: u64) returns (ack: Option<Outcome>)
      modifies this
      ensures state == Acted(old(state), action, now)
      ensures ack == if state.delivery == BestEffort then None else state.outcome
    {
      if state.delivery == BestEffort {
        return None;
      }
      Retire(now);
      state := state.(retainUntil := SatAdd(now, state.retentionMs));
      if !Terminal(state) {
        state := state.(outcome := Some(action));
      }
      return state.outcome;
    }

    method Replay(now: u64) returns (ack: Option<Outcome>)
      modifies this
      ensures state == Refreshed(old(state), now) && ack == state.outcome
    {
      Retire(now);
      state := state.(retainUntil := SatAdd(now, state.retentionMs));
      return state.outcome;
    }

    /** A receipt action of the application: records first, then acknowledges. */
    method Handle(action: Outcome, now: u64) returns (ack: Option<Outcome>)
      modifies this
      ensures (state, ack) == Handled(old(state), action, now)
    {
      Retire(now);
      if Terminal(state) {
        return None;
      }
      ack := Act(action, now);
    }
  }

  /** The table shows every record as it is, and no two identities share one. */
  ghost predicate Shown(records: map<Key, Record>, owned: set<Record>, t: Table)
    reads owned
  {
    && records.Keys == t.Keys
    && (forall k :: k in records ==> records[k] in owned && records[k].meta == t[k].meta && records[k].state == t[k].state)
    && (forall j, k :: j in records && k in records && j != k ==> records[j] != records[k])
  }

  lemma {:induction false} ShownWithout(records: map<Key, Record>, owned: set<Record>, t: Table, key: Key)
    requires Shown(records, owned, t)
    ensures Shown(records - {key}, owned, t - {key})
  {
  }

  class Records {
    var records: map<Key, Record>
    /** The heap's entries; it is ordered by time alone, so equal deadlines come off in any order. */
    var deadlines: seq<Deadline>

    /** Every record ever admitted. */
    ghost var owned: set<Record>
    ghost var table: Table

    constructor ()
      ensures Valid() && table == map[] && owned == {}
    {
      records, deadlines, owned, table := map[], [], {}, map[];
    }

    /** The table shows every record, and the heap lists them all. */
    ghost predicate Valid()
      reads this, owned
    {
      Shown(records, owned, table) && Lists(deadlines, table)
    }

    method Insert(key: Key, record: Record)
      requires Valid() && key !in records && record !in owned
      modifies this
      ensures Valid() && owned == old(owned) + {record} && records == old(records)[key := record]
      ensures table == old(table)[key := Cell(record.meta, record.state, record.state.retainUntil)]
    {
      ghost var cell := Cell(record.meta, record.state, record.state.retainUntil);
      PushLists(deadlines, table, key, cell);
      deadlines := deadlines + [Deadline(record.state.retainUntil, key)];
      records, owned, table := records[key := record], owned + {record}, table[key := cell];
    }

    /** The heap's top: some entry with the earliest deadline. */
    method Peek() returns (top: nat)
      requires deadlines != []
      ensures top < |deadlines|
      ensures forall i :: 0 <= i < |deadlines| ==> deadlines[top].at <= deadlines[i].at
    {
      top := 0;
      for i := 1 to |deadlines|
        invariant top < |deadlines|
        invariant forall j :: 0 <= j < i ==> deadlines[top].at <= deadlines[j].at
      {
        if deadlines[i].at < deadlines[top].at {
          top := i;
        }
      }
    }

    /** Takes a due entry off the heap together with its record. */
    method Drop(top: nat, now: u64)
      requires Valid() && top < |deadlines| && deadlines[top].at <= now
      modifies this`records, this`deadlines, this`table
      ensures Valid() && table == old(table) - {old(deadlines)[top].key}
      ensures DueCount(deadlines, now) < old(DueCount(deadlines, now))
    {
      RemoveLists(deadlines, table, top);
      RemovalLowersDue(deadlines, top, now);
      var key := deadlines[top].key;
      ShownWithout(records, owned, table, key);
      deadlines := deadlines[..top] + deadlines[top + 1..];
      records, table := records - {key}, table - {key};
    }

    /** Queues a due entry again, at its record's current deadline. */
    method Requeue(top: nat, now: u64)
      requires Valid() && top < |deadlines| && deadlines[top].at <= now < records[deadlines[top].key].state.retainUntil
      modifies this`deadlines, this`table
      ensures Valid()
      ensures var key := old(deadlines)[top].key;
              table == old(table)[key := old(table)[key].(queuedAt := old(table)[key].state.retainUntil)]
      ensures DueCount(deadlines, now) < old(DueCount(deadlines, now))
    {
      var key := deadlines[top].key;
      var at := records[key].state.retainUntil;
      RequeueLists(deadlines, table, top, table[key].(queuedAt := at));
      RequeueLowersDue(deadlines, top, at, now);
      deadlines, table := deadlines[top := Deadline(at, key)], table[key := table[key].(queuedAt := at)];
    }

    method RetireAt(key: Key, now: u64)
      requires Valid() && key in records
      modifies this`table, records[key]
      ensures Valid() && table == old(table)[key := old(table)[key].(state := Retired(old(table)[key].state, now))]
    {
      records[key].Retire(now);
      ChangeLists(deadlines, table, key, records[key].state);
      table := table[key := table[key].(state := records[key].state)];
    }

    /** Replays the receipt of a record in the table, leaving its heap entry where it was. */
    method ReplayAt(key: Key, now: u64) returns (ack: Option<Outcome>)
      requires Valid() && key in records
      modifies this`table, records[key]
      ensures Valid() && table == old(table)[key := old(table)[key].(state := Refreshed(old(table)[key].state, now))]
      ensures ack == table[key].state.outcome
    {
      ack := records[key].Replay(now);
      ChangeLists(deadlines, table, key, records[key].state);
      table := table[key := table[key].(state := records[key].state)];
    }

    /** The application acts on a receipt while its record is in the table, with a clock read at any time. */
    method HandleAt(key: Key, action: Outcome, now: u64) returns (ack: Option<Outcome>)
      requires Valid() && key in records
      modifies this`table, records[key]
      ensures Valid()
      ensures var (s, a) := Handled(old(table)[key].state, action, now);
              table == old(table)[key := old(table)[key].(state := s)] && ack == a
    {
      ack := records[key].Handle(action, now);
      ChangeLists(deadlines, table, key, records[key].state);
      table := table[key := table[key].(state := records[key].state)];
    }

    /** The application acts on a receipt it kept after its record left the table. */
    method HandleLate(record: Record, action: Outcome, now: u64) returns (ack: Option<Outcome>)
      requires Valid() && record in owned && forall k :: k in records ==> records[k] != record
      modifies record
      ensures (record.state, ack) == Handled(old(record.state), action, now)
      ensures Valid()
    {
      ack := record.Handle(action, now);
    }

    method Admit(key: Key, meta: Meta, now: u64, retentionMs: u64)
      requires Valid() && key !in records
      modifies this
      ensures Valid() && key in records && fresh(records[key]) && fresh(owned - old(owned))
      ensures table == old(table)[key := NewCell(meta, now, retentionMs)]
    {
      var record := new Record(meta, now, retentionMs);
      Insert(key, record);
    }

    method Decide(key: Key, meta: Meta, now: u64, capacity: nat, retentionMs: u64) returns (decision: Decision)
      requires Valid()
      modifies this, owned
      ensures Valid() && (table, decision) == Decided(old(table), key, meta, now, capacity, retentionMs)
      ensures fresh(owned - old(owned)) && (decision == Admitted ==> key in records && fresh(records[key]))
    {
      if key in records {
        if records[key].meta != meta {
          return Mismatched;
        }
        var ack := ReplayAt(key, now);
        return Replayed(ack);
      }
      if |records.Keys| >= capacity {
        return NoRoom;
      }
      Admit(key, meta, now, retentionMs);
      return Admitted;
    }

    /** What an acknowledged frame does to the table, sweeping it first. */
    method Track(key: Key, meta: Meta, now: u64, capacity: nat, retentionMs: u64) returns (decision: Decision)
      requires Valid()
      modifies this, owned
      ensures Valid() && (table, decision) == Tracked(old(table), key, meta, now, capacity, retentionMs)
      ensures fresh(owned - old(owned)) && (decision == Admitted ==> key in records && fresh(records[key]))
    {
      Sweep(now);
      decision := Decide(key, meta, now, capacity, retentionMs);
    }

    /** Looks at one due entry: its record is retired, then dropped or queued again at its own deadline. */
    method Settle(top: nat, now: u64, ghost goal: Table)
      requires Valid() && top < |deadlines| && deadlines[top].at <= now
      requires LazySweep(table, now) == goal
      modifies this`records, this`deadlines, this`table, owned
      ensures Valid() && LazySweep(table, now) == goal
      ensures DueCount(deadlines, now) < old(DueCount(deadlines, now))
    {
      var key := deadlines[top].key;
      SettlesRight(table, key, now, goal);
      RetireAt(key, now);
      if Expired(records[key].state, now) {
        Drop(top, now);
      } else {
        Requeue(top, now);
      }
    }

    /** The heap's top and whether it is due; if it is not, no entry is. */
    method Due(now: u64) returns (due: bool, top: nat)
      requires Valid()
      ensures if due then top < |deadlines| && deadlines[top].at <= now else LazySweep(table, now) == table
    {
      due, top := false, 0;
      if deadlines != [] {
        top := Peek();
        due := deadlines[top].at <= now;
      }
      if !due {
        NothingDueNothingSwept(deadlines, table, now);
      }
    }

    /** One turn of the sweep: stops at an entry that is not due, else settles it. */
    method Turn(now: u64, ghost goal: Table) returns (more: bool)
      requires Valid() && LazySweep(table, now) == goal
      modifies this`records, this`deadlines, this`table, owned
      ensures Valid() && LazySweep(table, now) == goal
      ensures if more then DueCount(deadlines, now) < old(DueCount(deadlines, now)) else table == goal
    {
      var top: nat;
      more, top := Due(now);
      if more {
        Settle(top, now, goal);
      }
    }

    /** Retires abandoned records and evicts expired ones, touching only those whose entry is due. */
    method Sweep(now: u64)
      requires Valid()
      modifies this`records, this`deadlines, this`table, owned
      ensures Valid() && table == LazySweep(old(table), now)
    {
      ghost var goal := LazySweep(table, now);
      var more := true;
      while more
        invariant Valid() && LazySweep(table, now) == goal
        invariant !more ==> table == goal
        decreases more, DueCount(deadlines, now)
      {
        more := Turn(now, goal);
      }
    }
  }

  /** The table after one entry was looked at. */
  function Settled(t: Table, k: Key, now: u64): Table
    requires k in t
  {
    match Looked(t[k], now)
    case None => t - {k}
    case Some(c) => t[k := c]
  }

  function DueCount(ds: seq<Deadline>, now: u64): nat {
    if ds == [] then 0
    else DueCount(ds[..|ds| - 1], now) + if ds[|ds| - 1].at <= now then 1 else 0
  }

  lemma {:induction false} DueConcat(a: seq<Deadline>, b: seq<Deadline>, now: u64)
    ensures DueCount(a + b, now) == DueCount(a, now) + DueCount(b, now)
    decreases |b|
  {
    if b == [] {
      assert a + b == a;
    } else {
      assert (a + b)[..|a + b| - 1] == a + b[..|b| - 1];
      DueConcat(a, b[..|b| - 1], now);
    }
  }

  lemma {:induction false} DueSplits(ds: seq<Deadline>, i: nat, now: u64)
    requires i < |ds|
    ensures DueCount(ds, now) == DueCount(ds[..i], now) + (if ds[i].at <= now then 1 else 0) + DueCount(ds[i + 1..], now)
  {
    assert ds == ds[..i + 1] + ds[i + 1..];
    assert ds[..i + 1][..i] == ds[..i];
    DueConcat(ds[..i + 1], ds[i + 1..], now);
  }

  lemma {:induction false} RequeueLowersDue(ds: seq<Deadline>, i: nat, at: u64, now: u64)
    requires i < |ds| && ds[i].at <= now < at
    ensures DueCount(ds[i := Deadline(at, ds[i].key)], now) < DueCount(ds, now)
  {
    var new_ := ds[i := Deadline(at, ds[i].key)];
    DueSplits(ds, i, now);
    DueSplits(new_, i, now);
    assert new_[..i] == ds[..i] && new_[i + 1..] == ds[i + 1..];
  }

  lemma {:induction false} RemovalLowersDue(ds: seq<Deadline>, i: nat, now: u64)
    requires i < |ds| && ds[i].at <= now
    ensures DueCount(ds[..i] + ds[i + 1..], now) < DueCount(ds, now)
  {
    DueSplits(ds, i, now);
    DueConcat(ds[..i], ds[i + 1..], now);
  }

  /** Settling one entry does not change what the sweep leaves. */
  lemma {:induction false} SettlingKeepsTheSweep(t: Table, k: Key, now: u64)
    requires k in t
    ensures LazySweep(Settled(t, k, now), now) == LazySweep(t, now)
  {
    SweptIsNotDue(t[k].state, now);
  }

  /** Retiring a due record, then dropping it or queueing it again, settles its entry. */
  lemma {:induction false} SettlesRight(t: Table, k: Key, now: u64, goal: Table)
    requires k in t && t[k].queuedAt <= now && LazySweep(t, now) == goal
    ensures var c := t[k].(state := Retired(t[k].state, now));
            var retired := t[k := c];
            if Expired(c.state, now) then LazySweep(retired - {k}, now) == goal
            else now < c.state.retainUntil && LazySweep(retired[k := c.(queuedAt := c.state.retainUntil)], now) == goal
  {
    var c := t[k].(state := Retired(t[k].state, now));
    SettlingKeepsTheSweep(t, k, now);
    SweptIsNotDue(t[k].state, now);
    if Expired(c.state, now) {
      assert t[k := c] - {k} == Settled(t, k, now);
    } else {
      assert t[k := c][k := c.(queuedAt := c.state.retainUntil)] == Settled(t, k, now);
    }
  }

  lemma {:induction false} NothingDueNothingSwept(ds: seq<Deadline>, t: Table, now: u64)
    requires Lists(ds, t) && forall i :: 0 <= i < |ds| ==> now < ds[i].at
    ensures LazySweep(t, now) == t
  {
    forall k | k in t ensures now < t[k].queuedAt {
      assert HasEntry(ds, k);
    }
  }
}
