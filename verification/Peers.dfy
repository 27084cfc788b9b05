/** The subscriber half of a write feed: peers' frames turned into ordered events. */
module Peers {
  import opened Common
  import opened FeedWire

  /** How far one peer's feed has been read: everything of life `epoch` before `next`, and the seal if `sealed`. */
  datatype Cursor = Cursor(epoch: u64, next: nat, sealed: bool)

  datatype Event<+K> =
    | Wrote(peer: NodeId, token: WriteToken, key: K)
    | Gap(peer: NodeId, missedThrough: WriteToken)
    | SealedAt(peer: NodeId, token: WriteToken)
    | Renewed(peer: NodeId, sealed: WriteToken, epoch: u64)

  /** A cursor and the queue it has filled so far. */
  datatype Outcome<+K> = Outcome(cursor: Cursor, events: seq<Event<K>>)

  /** Where a subscriber attaching to `f` starts: at its end, or past its seal. */
  function Attached(f: Frame): Cursor {
    Cursor(f.epoch, End(f) + (if f.sealed then 1 else 0), f.sealed)
  }

  /** Where a peer first met in a scan starts: at the oldest write still visible. */
  function Replaying(f: Frame): Cursor {
    Cursor(f.epoch, f.firstSeq, false)
  }

  /** A copy of a previous life, or a repetition of a life already delivered through its seal. */
  predicate Stale(c: Cursor, f: Frame) {
    f.epoch < c.epoch || (f.epoch == c.epoch && c.sealed)
  }

  /** Crossing into the frame's window, reporting a restart or a lapped ring. */
  function Enter<K>(node: NodeId, o: Outcome<K>, f: Frame): (r: Outcome<K>)
    requires !Stale(o.cursor, f)
    ensures f.firstSeq <= r.cursor.next && r.cursor.epoch == f.epoch && !r.cursor.sealed
  {
    var c := o.cursor;
    var gap := Gap(node, WriteToken(f.epoch, f.firstSeq - 1));
    if f.epoch > c.epoch then
      Outcome(Cursor(f.epoch, f.firstSeq, false),
              o.events + [if c.sealed && f.firstSeq == 1 then Renewed(node, WriteToken(c.epoch, c.next - 1), f.epoch) else gap])
    else if c.next < f.firstSeq then Outcome(c.(next := f.firstSeq), o.events + [gap])
    else o
  }

  /** The event of the write at position `at`, or none if the subscriber cannot decode its key. */
  function WroteAt<K>(node: NodeId, f: Frame, at: nat, decode: Bytes -> Option<K>): seq<Event<K>>
    requires f.firstSeq <= at < End(f)
  {
    match decode(f.keys[at - f.firstSeq])
    case Some(key) => [Wrote(node, WriteToken(f.epoch, at), key)]
    case None => []
  }

  /** Queues every visible write from the cursor up to position `until`. */
  function Drained<K>(node: NodeId, o: Outcome<K>, f: Frame, until: nat, decode: Bytes -> Option<K>): (r: Outcome<K>)
    requires f.firstSeq <= o.cursor.next && until <= Max(o.cursor.next, End(f))
    ensures r.cursor == o.cursor.(next := Max(o.cursor.next, until))
    decreases until
  {
    if until <= o.cursor.next then o
    else
      var before := Drained(node, o, f, until - 1, decode);
      Outcome(before.cursor.(next := until), before.events + WroteAt(node, f, until - 1, decode))
  }

  /** The seal comes last: after the frame's final write was delivered. */
  function SealedOff<K>(node: NodeId, o: Outcome<K>, f: Frame): Outcome<K> {
    if f.sealed && o.cursor.next == End(f)
    then Outcome(Cursor(f.epoch, o.cursor.next + 1, true), o.events + [SealedAt(node, WriteToken(f.epoch, o.cursor.next))])
    else o
  }

  function Reconciled<K>(node: NodeId, o: Outcome<K>, f: Frame, decode: Bytes -> Option<K>): Outcome<K> {
    if Stale(o.cursor, f) then o
    else
      var entered := Enter(node, o, f);
      SealedOff(node, Drained(node, entered, f, Max(entered.cursor.next, End(f)), decode), f)
  }

  /** Any sequence of frames: lossy, repeated and reordered as it may be. */
  function Delivered<K>(node: NodeId, start: Cursor, frames: seq<Frame>, decode: Bytes -> Option<K>): Outcome<K> {
    if frames == [] then Outcome(start, [])
    else Reconciled(node, Delivered(node, start, frames[..|frames| - 1], decode), frames[|frames| - 1], decode)
  }

  /** Whether reconciling reports provably missed writes. */
  predicate RaisesGap(c: Cursor, f: Frame) {
    if f.epoch > c.epoch then !(c.sealed && f.firstSeq == 1)
    else f.epoch == c.epoch && !c.sealed && c.next < f.firstSeq
  }

  /** A whole subscription: a cursor for every peer met, and one queue for all of them. */
  datatype Subscription<+K> = Subscription(cursors: map<NodeId, Cursor>, queue: seq<Event<K>>)

  /** One peer's frame, scanned; a peer met for the first time replays its visible window. */
  function Scanned<K>(s: Subscription<K>, node: NodeId, f: Frame, decode: Bytes -> Option<K>): Subscription<K> {
    var from := if node in s.cursors then s.cursors[node] else Replaying(f);
    var r := Reconciled(node, Outcome(from, s.queue), f, decode);
    Subscription(s.cursors[node := r.cursor], r.events)
  }

  class PeerWrites<K> {
    const decode: Bytes -> Option<K>
    var cursors: map<NodeId, Cursor>
    var pending: seq<Event<K>>
    var gapsSeen: nat

    constructor (decode: Bytes -> Option<K>)
      ensures this.decode == decode && cursors == map[] && pending == [] && gapsSeen == 0
    {
      this.decode := decode;
      cursors, pending, gapsSeen := map[], [], 0;
    }

    /** Moves into the frame's window, reporting what the move skips. */
    method Cross(node: NodeId, c: Cursor, f: Frame) returns (cursor: Cursor)
      requires !Stale(c, f)
      modifies this`pending, this`gapsSeen
      ensures Outcome(cursor, pending) == Enter(node, Outcome(c, old(pending)), f)
      ensures gapsSeen == old(gapsSeen) + if RaisesGap(c, f) then 1 else 0
    {
      cursor := c;
      if f.epoch > c.epoch {
        if c.sealed && f.firstSeq == 1 {
          pending := pending + [Renewed(node, WriteToken(c.epoch, c.next - 1), f.epoch)];
        } else {
          pending := pending + [Gap(node, WriteToken(f.epoch, f.firstSeq - 1))];
          gapsSeen := gapsSeen + 1;
        }
        cursor := Cursor(f.epoch, f.firstSeq, false);
      } else if c.next < f.firstSeq {
        pending := pending + [Gap(node, WriteToken(f.epoch, f.firstSeq - 1))];
        gapsSeen := gapsSeen + 1;
        cursor := cursor.(next := f.firstSeq);
      }
    }

    /** Queues the visible writes from the cursor on; a key that does not decode is skipped silently. */
    method Drain(node: NodeId, c: Cursor, f: Frame) returns (cursor: Cursor)
      requires f.firstSeq <= c.next
      modifies this`pending
      ensures Outcome(cursor, pending) == Drained(node, Outcome(c, old(pending)), f, Max(c.next, End(f)), decode)
    {
      cursor := c;
      ghost var entered := Outcome(c, pending);
      while cursor.next < End(f)
        invariant c.next <= cursor.next <= Max(c.next, End(f))
        invariant Outcome(cursor, pending) == Drained(node, entered, f, cursor.next, decode)
      {
        var key := decode(f.keys[cursor.next - f.firstSeq]);
        if key.Some? {
          pending := pending + [Wrote(node, WriteToken(f.epoch, cursor.next), key.value)];
        }
        cursor := cursor.(next := cursor.next + 1);
      }
    }

    /** Brings `c` up to the frame, leaving in `pending` an event for every step of the way. */
    method Reconcile(node: NodeId, c: Cursor, f: Frame) returns (cursor: Cursor)
      modifies this`pending, this`gapsSeen
      ensures Outcome(cursor, pending) == Reconciled(node, Outcome(c, old(pending)), f, decode)
      ensures gapsSeen == old(gapsSeen) + if RaisesGap(c, f) then 1 else 0
    {
      cursor := c;
      if f.epoch < c.epoch || (f.epoch == c.epoch && c.sealed) {
        return;
      }
      cursor := Cross(node, c, f);
      cursor := Drain(node, cursor, f);
      if f.sealed && cursor.next == End(f) {
        pending := pending + [SealedAt(node, WriteToken(f.epoch, cursor.next))];
        cursor := Cursor(f.epoch, cursor.next + 1, true);
      }
    }

    /** Reads a peer's advertised entry, if it has one that decodes. */
    method Scan(node: NodeId, entry: Option<Bytes>)
      modifies this
      ensures var f := if entry.None? then None else Decoded(entry.value);
              if f.None? then cursors == old(cursors) && pending == old(pending) && gapsSeen == old(gapsSeen)
              else
                var was := Subscription(old(cursors), old(pending));
                && Subscription(cursors, pending) == Scanned(was, node, f.value, decode)
                && gapsSeen == old(gapsSeen) + if node in was.cursors && RaisesGap(was.cursors[node], f.value) then 1 else 0
    {
      if entry.None? {
        return;
      }
      var f := FeedWire.Decode(entry.value);
      if f.None? {
        return;
      }
      var from := if node in cursors then cursors[node] else Replaying(f.value);
      var cursor := Reconcile(node, from, f.value);
      cursors := cursors[node := cursor];
    }
  }
}
