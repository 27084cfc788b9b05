/**
 What it means for a subscriber's events to account for a writer's whole history
 of lives.
 */
module FeedAccount {
  import opened Common
  import opened FeedWire
  import opened Feed
  import opened Peers

  /** A writer's lives by epoch, each with every write it will ever publish. */
  type History = map<u64, Life>

  predicate IsWrite(h: History, t: WriteToken) {
    t.epoch in h && 1 <= t.at <= |h[t.epoch].writes|
  }

  function KeyAt(h: History, t: WriteToken): Bytes
    requires IsWrite(h, t)
  {
    h[t.epoch].writes[t.at - 1]
  }

  predicate Genuine(h: History, f: Frame) {
    f.epoch in h && FrameOf(h[f.epoch], f)
  }

  function Position(c: Cursor): WriteToken {
    WriteToken(c.epoch, c.next)
  }

  /** The cursor stands inside a life of `h`, or just past its seal. */
  predicate AtLife(h: History, c: Cursor) {
    && c.epoch in h
    && if c.sealed then h[c.epoch].sealed && c.next == |h[c.epoch].writes| + 2
       else 1 <= c.next <= |h[c.epoch].writes| + 1
  }

  /** The position an event lets the frontier advance to. */
  function Reach<K>(e: Event<K>): WriteToken {
    match e
    case Wrote(_, token, _) => token
    case Gap(_, missed) => missed
    case SealedAt(_, token) => token
    case Renewed(_, _, epoch) => WriteToken(epoch, 0)
  }

  predicate SentBy<K>(e: Event<K>, t: WriteToken) {
    e.Wrote? && e.token == t
  }

  predicate GappedBy<K>(e: Event<K>, t: WriteToken) {
    e.Gap? && AtMost(t, e.missedThrough)
  }

  /** `t` belongs to a life strictly between the two a renewal connects. */
  predicate SkippedBy<K>(e: Event<K>, t: WriteToken) {
    e.Renewed? && e.sealed.epoch < t.epoch < e.epoch
  }

  predicate AccountedBy<K>(e: Event<K>, t: WriteToken) {
    SentBy(e, t) || GappedBy(e, t) || SkippedBy(e, t)
  }

  predicate Sent<K>(events: seq<Event<K>>, t: WriteToken) {
    exists i :: 0 <= i < |events| && SentBy(events[i], t)
  }

  predicate Gapped<K>(events: seq<Event<K>>, t: WriteToken) {
    exists i :: 0 <= i < |events| && GappedBy(events[i], t)
  }

  predicate Skipped<K>(events: seq<Event<K>>, t: WriteToken) {
    exists i :: 0 <= i < |events| && SkippedBy(events[i], t)
  }

  /** One of the first `n` events accounts for `t`. */
  predicate AccountedEarly<K>(events: seq<Event<K>>, n: nat, t: WriteToken)
    requires n <= |events|
  {
    exists i :: 0 <= i < n && AccountedBy(events[i], t)
  }

  predicate Accounted<K>(events: seq<Event<K>>, t: WriteToken) {
    AccountedEarly(events, |events|, t)
  }

  /** A write the subscriber can decode and its start position did not already lie behind. */
  predicate Owed<K>(h: History, decode: Bytes -> Option<K>, start: Cursor, t: WriteToken) {
    IsWrite(h, t) && AtMost(Position(start), t) && decode(KeyAt(h, t)).Some?
  }

  /** An event says only true things about the writer. */
  predicate Faithful<K(==)>(h: History, decode: Bytes -> Option<K>, e: Event<K>) {
    match e
    case Wrote(_, token, key) => IsWrite(h, token) && decode(KeyAt(h, token)) == Some(key)
    case Gap(_, _) => true
    case SealedAt(_, token) => token.epoch in h && h[token.epoch].sealed && token.at == |h[token.epoch].writes| + 1
    case Renewed(_, sealed, epoch) =>
      && sealed.epoch in h && h[sealed.epoch].sealed && sealed.at == |h[sealed.epoch].writes| + 1
      && sealed.epoch < epoch && epoch in h
  }

  /** Everything owed before the cursor, and before each event's reach, is accounted for in time. */
  ghost predicate Complete<K(!new)>(h: History, decode: Bytes -> Option<K>, start: Cursor, c: Cursor,
                                    events: seq<Event<K>>) {
    && (forall t :: Owed(h, decode, start, t) && Before(t, Position(c)) ==> Accounted(events, t))
    && (forall k, t :: 0 <= k < |events| && Owed(h, decode, start, t) && AtMost(t, Reach(events[k])) ==> AccountedEarly(events, k + 1, t))
  }

  /** Events come in strictly increasing order between the start and the cursor. */
  ghost predicate Ordered<K(!new)>(start: Cursor, c: Cursor, events: seq<Event<K>>) {
    && AtMost(Position(start), Position(c))
    && (forall i, j :: 0 <= i < j < |events| ==> Before(Reach(events[i]), Reach(events[j])))
    && (forall i :: 0 <= i < |events| ==> AtMost(Position(start), Reach(events[i])) && Before(Reach(events[i]), Position(c)))
    && (forall i, j :: 0 <= i < j < |events| && events[j].Renewed? ==> Reach(events[i]).epoch <= events[j].sealed.epoch)
  }

  ghost predicate Tracked<K(!new)>(h: History, decode: Bytes -> Option<K>, start: Cursor, o: Outcome<K>) {
    && AtLife(h, o.cursor)
    && Complete(h, decode, start, o.cursor, o.events)
    && Ordered(start, o.cursor, o.events)
    && (forall i :: 0 <= i < |o.events| ==> Faithful(h, decode, o.events[i]))
  }
}
