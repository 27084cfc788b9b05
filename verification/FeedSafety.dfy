/**
 What a subscriber learns from any lossy, repeated and reordered sequence of one
 writer's frames, over the writer's whole history of lives.
 */
module FeedSafety {
  import opened Common
  import opened FeedWire
  import opened Feed
  import opened Peers
  import opened FeedAccount

  lemma {:induction false} AccountedGrows<K(!new)>(events: seq<Event<K>>, n: nat, e: Event<K>, t: WriteToken)
    requires n <= |events|
    ensures AccountedEarly(events, n, t) ==> AccountedEarly(events + [e], n, t) && Accounted(events + [e], t)
    ensures AccountedBy(e, t) ==> Accounted(events + [e], t)
  {
    var all := events + [e];
    if AccountedEarly(events, n, t) {
      var i :| 0 <= i < n && AccountedBy(events[i], t);
      assert AccountedBy(all[i], t);
    }
    assert all[|events|] == e;
  }

  /** One more event that accounts for everything the cursor moves over. */
  lemma {:induction false} EventKeepsTracked<K(!new)>(h: History, decode: Bytes -> Option<K>, start: Cursor,
                                                      o: Outcome<K>, e: Event<K>, c: Cursor)
    requires Tracked(h, decode, start, o) && AtLife(h, c) && Faithful(h, decode, e)
    requires AtMost(Position(o.cursor), Reach(e)) && Before(Reach(e), Position(c))
    requires forall t :: IsWrite(h, t) && AtMost(Position(o.cursor), t) && Before(t, Position(c)) ==> AccountedBy(e, t)
    requires e.Renewed? ==> e.sealed.epoch == o.cursor.epoch
    ensures Tracked(h, decode, start, Outcome(c, o.events + [e]))
  {
    var all := o.events + [e];
    forall t | Owed(h, decode, start, t) && Before(t, Position(c)) ensures Accounted(all, t) {
      AccountedGrows(o.events, |o.events|, e, t);
    }
    forall k, t | 0 <= k < |all| && Owed(h, decode, start, t) && AtMost(t, Reach(all[k])) ensures AccountedEarly(all, k + 1, t) {
      if k < |o.events| {
        AccountedGrows(o.events, k + 1, e, t);
      }
    }
  }

  /** Moving over writes whose keys do not decode needs no event. */
  lemma {:induction false} SilentStepKeepsTracked<K(!new)>(h: History, decode: Bytes -> Option<K>, start: Cursor,
                                                           o: Outcome<K>, c: Cursor)
    requires Tracked(h, decode, start, o) && AtLife(h, c) && AtMost(Position(o.cursor), Position(c))
    requires forall t :: Owed(h, decode, start, t) && AtMost(Position(o.cursor), t) ==> AtMost(Position(c), t)
    ensures Tracked(h, decode, start, Outcome(c, o.events))
  {
  }

  lemma {:induction false} EnterKeepsTracked<K(!new)>(h: History, decode: Bytes -> Option<K>, node: NodeId,
                                                      start: Cursor, o: Outcome<K>, f: Frame)
    requires Tracked(h, decode, start, o) && Genuine(h, f) && !Stale(o.cursor, f)
    ensures Tracked(h, decode, start, Enter(node, o, f))
  {
    var r := Enter(node, o, f);
    if |o.events| < |r.events| {
      EventKeepsTracked(h, decode, start, o, r.events[|o.events|], r.cursor);
    }
  }

  /** The visible write at the cursor is queued and stepped over. */
  lemma {:induction false} WriteKeepsTracked<K(!new)>(h: History, decode: Bytes -> Option<K>, node: NodeId,
                                                      start: Cursor, o: Outcome<K>, f: Frame)
    returns (r: Outcome<K>)
    requires Tracked(h, decode, start, o) && Genuine(h, f)
    requires o.cursor.epoch == f.epoch && !o.cursor.sealed && f.firstSeq <= o.cursor.next < End(f)
    ensures r == Outcome(o.cursor.(next := o.cursor.next + 1), o.events + WroteAt(node, f, o.cursor.next, decode))
    ensures Tracked(h, decode, start, r)
  {
    var t := WriteToken(f.epoch, o.cursor.next);
    var next := o.cursor.(next := o.cursor.next + 1);
    assert IsWrite(h, t) && KeyAt(h, t) == f.keys[o.cursor.next - f.firstSeq];
    if decode(KeyAt(h, t)).Some? {
      var e := Wrote(node, t, decode(KeyAt(h, t)).value);
      EventKeepsTracked(h, decode, start, o, e, next);
      r := Outcome(next, o.events + [e]);
    } else {
      SilentStepKeepsTracked(h, decode, start, o, next);
      r := Outcome(next, o.events);
      assert o.events + [] == o.events;
    }
  }

  lemma {:induction false} DrainKeepsTracked<K(!new)>(h: History, decode: Bytes -> Option<K>, node: NodeId,
                                                      start: Cursor, o: Outcome<K>, f: Frame, until: nat)
    returns (r: Outcome<K>)
    requires Tracked(h, decode, start, o) && Genuine(h, f)
    requires o.cursor.epoch == f.epoch && !o.cursor.sealed && f.firstSeq <= o.cursor.next && until <= Max(o.cursor.next, End(f))
    ensures r == Drained(node, o, f, until, decode)
    ensures Tracked(h, decode, start, r)
    decreases until
  {
    r := o;
    if until > o.cursor.next {
      r := DrainKeepsTracked(h, decode, node, start, o, f, until - 1);
      r := WriteKeepsTracked(h, decode, node, start, r, f);
    }
  }

  lemma {:induction false} SealKeepsTracked<K(!new)>(h: History, decode: Bytes -> Option<K>, node: NodeId,
                                                     start: Cursor, o: Outcome<K>, f: Frame)
    requires Tracked(h, decode, start, o) && Genuine(h, f) && o.cursor.epoch == f.epoch && !o.cursor.sealed
    ensures Tracked(h, decode, start, SealedOff(node, o, f))
  {
    if f.sealed && o.cursor.next == End(f) {
      EventKeepsTracked(h, decode, start, o, SealedAt(node, WriteToken(f.epoch, End(f))), Cursor(f.epoch, End(f) + 1, true));
    }
  }

  /** One genuine frame, however stale, keeps the subscriber's account complete. */
  lemma {:induction false} ReconcileKeepsTracked<K(!new)>(h: History, decode: Bytes -> Option<K>, node: NodeId,
                                                          start: Cursor, o: Outcome<K>, f: Frame)
    requires Tracked(h, decode, start, o) && Genuine(h, f)
    ensures Tracked(h, decode, start, Reconciled(node, o, f, decode))
  {
    if !Stale(o.cursor, f) {
      var entered := Enter(node, o, f);
      var until := Max(entered.cursor.next, End(f));
      EnterKeepsTracked(h, decode, node, start, o, f);
      var drained := DrainKeepsTracked(h, decode, node, start, entered, f, until);
      SealKeepsTracked(h, decode, node, start, drained, f);
    }
  }

  lemma {:induction false} DeliveryIsTracked<K(!new)>(h: History, decode: Bytes -> Option<K>, node: NodeId,
                                                      start: Cursor, frames: seq<Frame>)
    requires AtLife(h, start)
    requires forall i :: 0 <= i < |frames| ==> Genuine(h, frames[i])
    ensures Tracked(h, decode, start, Delivered(node, start, frames, decode))
  {
    if frames != [] {
      var front := frames[..|frames| - 1];
      DeliveryIsTracked(h, decode, node, start, front);
      ReconcileKeepsTracked(h, decode, node, start, Delivered(node, start, front, decode), frames[|frames| - 1]);
    }
  }

  /** An event list that accounts for `t` sent it, gapped it or skipped it. */
  lemma {:induction false} AccountedMeans<K(!new)>(events: seq<Event<K>>, t: WriteToken)
    requires Accounted(events, t)
    ensures Sent(events, t) || Gapped(events, t) || Skipped(events, t)
  {
  }

  /** A write of a life that a renewal jumped over is never sent: events only move forward. */
  lemma {:induction false} SkippedIsNeverSent<K(!new)>(h: History, decode: Bytes -> Option<K>, start: Cursor,
                                                       o: Outcome<K>, t: WriteToken)
    requires Tracked(h, decode, start, o) && Skipped(o.events, t)
    ensures !Sent(o.events, t)
  {
  }

  // ---- Where the cursor ends ----

  function Later(a: WriteToken, b: WriteToken): WriteToken {
    if Before(a, b) then b else a
  }

  /** A genuine frame moves the cursor to the later of where it stood and the frame's own end. */
  lemma {:induction false} ReconcileMovesToLater<K>(h: History, decode: Bytes -> Option<K>, node: NodeId,
                                                    o: Outcome<K>, f: Frame)
    requires AtLife(h, o.cursor) && Genuine(h, f)
    ensures var r := Reconciled(node, o, f, decode);
            AtLife(h, r.cursor) && Position(r.cursor) == Later(Position(o.cursor), Position(Attached(f)))
  {
  }

  lemma {:induction false} DeliveryEndsAtLatest<K(!new)>(h: History, decode: Bytes -> Option<K>, node: NodeId,
                                                         start: Cursor, frames: seq<Frame>)
    requires AtLife(h, start)
    requires forall i :: 0 <= i < |frames| ==> Genuine(h, frames[i])
    ensures var end := Delivered(node, start, frames, decode).cursor;
            && AtLife(h, end)
            && AtMost(Position(start), Position(end))
            && (forall i :: 0 <= i < |frames| ==> AtMost(Position(Attached(frames[i])), Position(end)))
            && (Position(end) == Position(start)
                || exists i :: 0 <= i < |frames| && Position(end) == Position(Attached(frames[i])))
  {
    if frames != [] {
      var front := frames[..|frames| - 1];
      DeliveryEndsAtLatest(h, decode, node, start, front);
      var mid := Delivered(node, start, front, decode).cursor;
      ReconcileMovesToLater(h, decode, node, Delivered(node, start, front, decode), frames[|frames| - 1]);
      forall i | 0 <= i < |frames|
        ensures AtMost(Position(Attached(frames[i])), Later(Position(mid), Position(Attached(frames[|frames| - 1]))))
      {
        if i < |front| {
          assert front[i] == frames[i];
        }
      }
      if Position(mid) != Position(start) {
        var i :| 0 <= i < |front| && Position(mid) == Position(Attached(front[i]));
        assert front[i] == frames[i];
      }
    }
  }

  /** Two subscribers that saw the same frames, in whatever order and however often, end at one cursor. */
  lemma {:induction false} OrderAndRepetitionDoNotMatter<K(!new)>(h: History, decode: Bytes -> Option<K>,
                                                                  node: NodeId, start: Cursor, a: seq<Frame>,
                                                                  b: seq<Frame>)
    requires AtLife(h, start)
    requires forall i :: 0 <= i < |a| ==> Genuine(h, a[i]) && a[i] in b
    requires forall i :: 0 <= i < |b| ==> Genuine(h, b[i]) && b[i] in a
    ensures Delivered(node, start, a, decode).cursor == Delivered(node, start, b, decode).cursor
  {
    DeliveryEndsAtLatest(h, decode, node, start, a);
    DeliveryEndsAtLatest(h, decode, node, start, b);
    EndsAgree(h, start, a, b, Delivered(node, start, a, decode).cursor, Delivered(node, start, b, decode).cursor);
  }

  /** An upper bound of `b`'s frames that one of `b`'s frames attains is no later than one of `a`'s. */
  lemma {:induction false} EndsAgree(h: History, start: Cursor, a: seq<Frame>, b: seq<Frame>, endA: Cursor, endB: Cursor)
    requires AtLife(h, endA) && AtLife(h, endB)
    requires forall i :: 0 <= i < |a| ==> a[i] in b
    requires forall i :: 0 <= i < |b| ==> b[i] in a
    requires AtMost(Position(start), Position(endA)) && AtMost(Position(start), Position(endB))
    requires forall i :: 0 <= i < |a| ==> AtMost(Position(Attached(a[i])), Position(endA))
    requires forall i :: 0 <= i < |b| ==> AtMost(Position(Attached(b[i])), Position(endB))
    requires Position(endA) == Position(start) || exists i :: 0 <= i < |a| && Position(endA) == Position(Attached(a[i]))
    requires Position(endB) == Position(start) || exists i :: 0 <= i < |b| && Position(endB) == Position(Attached(b[i]))
    ensures endA == endB
  {
  }
}
