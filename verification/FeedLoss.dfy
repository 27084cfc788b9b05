/**
 Which writes a subscriber can lose. A renewal connects a sealed life with the next one the
 subscriber happens to see, so what was written in between is neither sent nor reported.
 */
module FeedLoss {
  import opened Common
  import opened FeedWire
  import opened Feed
  import opened Peers
  import opened FeedAccount
  import opened FeedSafety

  ghost predicate AllGenuine(h: History, frames: seq<Frame>) {
    forall i :: 0 <= i < |frames| ==> Genuine(h, frames[i])
  }

  // ---- What the events say, read off the frames alone ----

  /** Where a subscriber stands after these frames: the latest of its start and their ends. */
  function Latest(start: Cursor, frames: seq<Frame>): Cursor {
    if frames == [] then start
    else
      var c, end := Latest(start, frames[..|frames| - 1]), Attached(frames[|frames| - 1]);
      if Before(Position(c), Position(end)) then end else c
  }

  /** From `c` the frame would be entered by a renewal that jumps over `t`'s life. */
  predicate Jumps(c: Cursor, f: Frame, t: WriteToken) {
    c.sealed && f.firstSeq == 1 && c.epoch < t.epoch < f.epoch
  }

  /** From `c` the frame would be entered by a gap that covers `t`. */
  predicate Misses(c: Cursor, f: Frame, t: WriteToken) {
    RaisesGap(c, f) && AtMost(t, WriteToken(f.epoch, f.firstSeq - 1))
  }

  predicate JumpedOver(start: Cursor, frames: seq<Frame>, t: WriteToken) {
    exists k :: 0 <= k < |frames| && Jumps(Latest(start, frames[..k]), frames[k], t)
  }

  predicate MissedBy(start: Cursor, frames: seq<Frame>, t: WriteToken) {
    exists k :: 0 <= k < |frames| && Misses(Latest(start, frames[..k]), frames[k], t)
  }

  lemma {:induction false} DeliveryStandsAtLatest<K(!new)>(h: History, decode: Bytes -> Option<K>, node: NodeId,
                                                           start: Cursor, frames: seq<Frame>)
    requires AtLife(h, start) && AllGenuine(h, frames)
    ensures AtLife(h, Latest(start, frames)) && Delivered(node, start, frames, decode).cursor == Latest(start, frames)
  {
    if frames != [] {
      var front := frames[..|frames| - 1];
      DeliveryStandsAtLatest(h, decode, node, start, front);
      ReconcileMovesToLater(h, decode, node, Delivered(node, start, front, decode), frames[|frames| - 1]);
    }
  }

  /** Draining queues writes only. */
  lemma {:induction false} DrainOnlySends<K(!new)>(node: NodeId, o: Outcome<K>, f: Frame, until: nat,
                                                   decode: Bytes -> Option<K>, t: WriteToken)
    requires f.firstSeq <= o.cursor.next && until <= Max(o.cursor.next, End(f))
    ensures var r := Drained(node, o, f, until, decode).events;
            (Skipped(r, t) <==> Skipped(o.events, t)) && (Gapped(r, t) <==> Gapped(o.events, t))
    decreases until
  {
    if until > o.cursor.next {
      DrainOnlySends(node, o, f, until - 1, decode, t);
      var before := Drained(node, o, f, until - 1, decode).events;
      SendsAddNothing(before, WroteAt(node, f, until - 1, decode), t);
    }
  }

  lemma {:induction false} SendsAddNothing<K(!new)>(events: seq<Event<K>>, more: seq<Event<K>>, t: WriteToken)
    requires forall i :: 0 <= i < |more| ==> more[i].Wrote? || more[i].SealedAt?
    ensures Skipped(events + more, t) <==> Skipped(events, t)
    ensures Gapped(events + more, t) <==> Gapped(events, t)
  {
    var all := events + more;
    assert forall i :: 0 <= i < |events| ==> all[i] == events[i];
  }

  lemma {:induction false} OneMoreEvent<K(!new)>(events: seq<Event<K>>, e: Event<K>, t: WriteToken)
    ensures Skipped(events + [e], t) <==> Skipped(events, t) || SkippedBy(e, t)
    ensures Gapped(events + [e], t) <==> Gapped(events, t) || GappedBy(e, t)
  {
    var all := events + [e];
    assert all[|events|] == e;
    assert forall i :: 0 <= i < |events| ==> all[i] == events[i];
  }

  lemma {:induction false} EnterAdds<K(!new)>(node: NodeId, o: Outcome<K>, f: Frame, t: WriteToken)
    requires !Stale(o.cursor, f)
    ensures var r := Enter(node, o, f).events;
            && (Skipped(r, t) <==> Skipped(o.events, t) || Jumps(o.cursor, f, t))
            && (Gapped(r, t) <==> Gapped(o.events, t) || Misses(o.cursor, f, t))
  {
    var c := o.cursor;
    var gap := Gap(node, WriteToken(f.epoch, f.firstSeq - 1));
    if f.epoch > c.epoch {
      OneMoreEvent(o.events, if c.sealed && f.firstSeq == 1 then Renewed(node, WriteToken(c.epoch, c.next - 1), f.epoch) else gap, t);
    } else if c.next < f.firstSeq {
      OneMoreEvent(o.events, gap, t);
    }
  }

  /** What one frame adds to what was jumped over and gapped. */
  lemma {:induction false} ReconcileAdds<K(!new)>(node: NodeId, o: Outcome<K>, f: Frame, decode: Bytes -> Option<K>, t: WriteToken)
    ensures var r := Reconciled(node, o, f, decode).events;
            && (Skipped(r, t) <==> Skipped(o.events, t) || Jumps(o.cursor, f, t))
            && (Gapped(r, t) <==> Gapped(o.events, t) || Misses(o.cursor, f, t))
  {
    if !Stale(o.cursor, f) {
      EnterAdds(node, o, f, t);
      var entered := Enter(node, o, f);
      var until := Max(entered.cursor.next, End(f));
      DrainOnlySends(node, entered, f, until, decode, t);
      var drained := Drained(node, entered, f, until, decode);
      SendsAddNothing(drained.events, [SealedAt(node, WriteToken(f.epoch, drained.cursor.next))], t);
    }
  }

  lemma {:induction false} OneMoreFrame(start: Cursor, front: seq<Frame>, f: Frame, t: WriteToken)
    ensures JumpedOver(start, front + [f], t) <==> JumpedOver(start, front, t) || Jumps(Latest(start, front), f, t)
    ensures MissedBy(start, front + [f], t) <==> MissedBy(start, front, t) || Misses(Latest(start, front), f, t)
  {
    var frames, n := front + [f], |front|;
    assert frames[..n] == front && frames[n] == f;
    assert forall k :: 0 <= k < n ==> frames[..k] == front[..k] && frames[k] == front[k];
  }

  /** What was jumped over and gapped is decided by the start and the frames. */
  lemma {:induction false} EventsFollowFrames<K(!new)>(h: History, decode: Bytes -> Option<K>, node: NodeId,
                                                       start: Cursor, frames: seq<Frame>, t: WriteToken)
    requires AtLife(h, start) && AllGenuine(h, frames)
    ensures var r := Delivered(node, start, frames, decode).events;
            (Skipped(r, t) <==> JumpedOver(start, frames, t)) && (Gapped(r, t) <==> MissedBy(start, frames, t))
  {
    if frames != [] {
      var front, f := frames[..|frames| - 1], frames[|frames| - 1];
      EventsFollowFrames(h, decode, node, start, front, t);
      DeliveryStandsAtLatest(h, decode, node, start, front);
      ReconcileAdds(node, Delivered(node, start, front, decode), f, decode, t);
      OneMoreFrame(start, front, f, t);
      assert frames == front + [f];
    }
  }

  /**
   Whatever frames were lost, repeated or reordered: a decodable write between the start and
   the end that no gap covers was sent exactly when the frames did not take the subscriber
   from a delivered seal straight past its life. Events strictly increase, so it was sent
   once, with its own key.
   */
  lemma {:induction false} WritesAreSentExactly<K(!new)>(h: History, decode: Bytes -> Option<K>, node: NodeId,
                                                         start: Cursor, frames: seq<Frame>)
    requires AtLife(h, start) && AllGenuine(h, frames)
    ensures var events := Delivered(node, start, frames, decode).events;
            && (forall t :: Owed(h, decode, start, t) && Before(t, Position(Latest(start, frames))) && !MissedBy(start, frames, t)
                            ==> (Sent(events, t) <==> !JumpedOver(start, frames, t)))
            && (forall i, j :: 0 <= i < j < |events| ==> Before(Reach(events[i]), Reach(events[j])))
            && (forall i :: 0 <= i < |events| && events[i].Wrote? ==>
                              IsWrite(h, events[i].token) && decode(KeyAt(h, events[i].token)) == Some(events[i].key))
  {
    var r := Delivered(node, start, frames, decode);
    DeliveryIsTracked(h, decode, node, start, frames);
    DeliveryStandsAtLatest(h, decode, node, start, frames);
    forall t | Owed(h, decode, start, t) && Before(t, Position(r.cursor)) && !MissedBy(start, frames, t)
      ensures Sent(r.events, t) <==> !JumpedOver(start, frames, t)
    {
      EventsFollowFrames(h, decode, node, start, frames, t);
      AccountedMeans(r.events, t);
      if Skipped(r.events, t) {
        SkippedIsNeverSent(h, decode, start, r, t);
      }
    }
    forall i | 0 <= i < |r.events| && r.events[i].Wrote?
      ensures IsWrite(h, r.events[i].token) && decode(KeyAt(h, r.events[i].token)) == Some(r.events[i].key)
    {
      assert Faithful(h, decode, r.events[i]);
    }
  }

  // ---- Which histories lose nothing ----

  /** Every life sits under its own epoch. */
  predicate Rooted(h: History) {
    forall e :: e in h ==> h[e].epoch == e
  }

  /** The decodable write `t` lies between a sealed life and a later one. */
  predicate Exposed<K>(h: History, decode: Bytes -> Option<K>, sealed: u64, t: WriteToken, later: u64) {
    && sealed in h && h[sealed].sealed && later in h && sealed < t.epoch < later
    && IsWrite(h, t) && decode(KeyAt(h, t)).Some?
  }

  /** No sealed life is followed by a life with a write and one more. */
  ghost predicate Unbroken<K(!new)>(h: History, decode: Bytes -> Option<K>) {
    forall sealed, t, later :: !Exposed(h, decode, sealed, t, later)
  }

  /** In this delivery every owed write before the end was sent or lies under a gap. */
  ghost predicate LosesNothing<K(!new)>(h: History, decode: Bytes -> Option<K>, node: NodeId, start: Cursor, frames: seq<Frame>) {
    AtLife(h, start) && AllGenuine(h, frames) ==>
      var r := Delivered(node, start, frames, decode);
      forall t :: Owed(h, decode, start, t) && Before(t, Position(r.cursor)) ==> Sent(r.events, t) || Gapped(r.events, t)
  }

  /** A renewal that skips a write shows its history to be broken. */
  lemma {:induction false} UnbrokenSkipsNothing<K(!new)>(h: History, decode: Bytes -> Option<K>, events: seq<Event<K>>, t: WriteToken)
    requires forall i :: 0 <= i < |events| ==> Faithful(h, decode, events[i])
    requires Unbroken(h, decode) && IsWrite(h, t) && decode(KeyAt(h, t)).Some?
    ensures !Skipped(events, t)
  {
    forall i | 0 <= i < |events| ensures !SkippedBy(events[i], t) {
      if events[i].Renewed? {
        assert !Exposed(h, decode, events[i].sealed.epoch, t, events[i].epoch);
      }
    }
  }

  lemma {:induction false} UnbrokenLosesNothing<K(!new)>(h: History, decode: Bytes -> Option<K>, node: NodeId,
                                                         start: Cursor, frames: seq<Frame>)
    requires Unbroken(h, decode)
    ensures LosesNothing(h, decode, node, start, frames)
  {
    if AtLife(h, start) && AllGenuine(h, frames) {
      var r := Delivered(node, start, frames, decode);
      DeliveryIsTracked(h, decode, node, start, frames);
      forall t | Owed(h, decode, start, t) && Before(t, Position(r.cursor)) ensures Sent(r.events, t) || Gapped(r.events, t) {
        AccountedMeans(r.events, t);
        UnbrokenSkipsNothing(h, decode, r.events, t);
      }
    }
  }

  /** The two frames that lose an exposed write: the whole sealed life, then the later one as it begins. */
  function LosingFrames(h: History, sealed: u64, later: u64): seq<Frame>
    requires sealed in h
  {
    [Frame(sealed, 1, h[sealed].writes, true)] + [Frame(later, 1, [], false)]
  }

  /** They are genuine, and take the subscriber from the seal straight past the write. */
  lemma {:induction false} ExposedIsJumpedOver<K(!new)>(h: History, decode: Bytes -> Option<K>, sealed: u64, t: WriteToken, later: u64)
    requires Rooted(h) && Exposed(h, decode, sealed, t, later)
    ensures var start, frames := Cursor(sealed, 1, false), LosingFrames(h, sealed, later);
            && AtLife(h, start) && AllGenuine(h, frames) && Owed(h, decode, start, t)
            && Latest(start, frames) == Cursor(later, 1, false)
            && JumpedOver(start, frames, t) && !MissedBy(start, frames, t)
  {
    var start := Cursor(sealed, 1, false);
    var first, second := Frame(sealed, 1, h[sealed].writes, true), Frame(later, 1, [], false);
    var frames := [first] + [second];
    assert frames[..0] == [] && frames[..1] == [first] && [first][..0] == [];
    assert Latest(start, frames[..0]) == start;
    assert Latest(start, frames[..1]) == Attached(first);
    assert Jumps(Latest(start, frames[..1]), frames[1], t);
    assert !Misses(Latest(start, frames[..0]), frames[0], t) && !Misses(Latest(start, frames[..1]), frames[1], t);
  }

  lemma {:induction false} ExposedIsLost<K(!new)>(h: History, decode: Bytes -> Option<K>, node: NodeId, sealed: u64, t: WriteToken, later: u64)
    requires Rooted(h) && Exposed(h, decode, sealed, t, later)
    ensures var start, frames := Cursor(sealed, 1, false), LosingFrames(h, sealed, later);
            var events := Delivered(node, start, frames, decode).events;
            !Sent(events, t) && !Gapped(events, t) && !LosesNothing(h, decode, node, start, frames)
  {
    var start, frames := Cursor(sealed, 1, false), LosingFrames(h, sealed, later);
    ExposedIsJumpedOver(h, decode, sealed, t, later);
    DeliveryStandsAtLatest(h, decode, node, start, frames);
    EventsFollowFrames(h, decode, node, start, frames, t);
    DeliveryIsTracked(h, decode, node, start, frames);
    SkippedIsNeverSent(h, decode, start, Delivered(node, start, frames, decode), t);
  }

  /**
   No subscriber of a writer ever loses a write, from any start and over any frames, exactly when
   none of the writer's sealed lives is followed by a life with a write and one more.
   */
  lemma {:induction false} NoWriteIsLostIff<K(!new)>(h: History, decode: Bytes -> Option<K>, node: NodeId)
    requires Rooted(h)
    ensures (forall start, frames :: LosesNothing(h, decode, node, start, frames)) <==> Unbroken(h, decode)
  {
    if Unbroken(h, decode) {
      forall start, frames ensures LosesNothing(h, decode, node, start, frames) {
        UnbrokenLosesNothing(h, decode, node, start, frames);
      }
    } else {
      var sealed, t, later :| Exposed(h, decode, sealed, t, later);
      ExposedIsLost(h, decode, node, sealed, t, later);
    }
  }

  /** One such history: life 8's only write vanishes between a sealed life and the next one seen. */
  lemma {:induction false} UnseenLifeIsLost(node: NodeId)
    ensures var h := map[7 := Life(7, [], true), 8 := Life(8, [[1]], false), 9 := Life(9, [], false)];
            var decode := (k: Bytes) => Some(k);
            var frames := [Frame(7, 1, [], true), Frame(9, 1, [], false)];
            var start := Cursor(7, 1, false);
            var r := Delivered(node, start, frames, decode);
            var lost := WriteToken(8, 1);
            && AtLife(h, start) && Genuine(h, frames[0]) && Genuine(h, frames[1])
            && Owed(h, decode, start, lost) && Before(lost, Position(r.cursor))
            && !Sent(r.events, lost) && !Gapped(r.events, lost)
  {
    var decode := (k: Bytes) => Some(k);
    var start := Cursor(7, 1, false);
    var first, second := Frame(7, 1, [], true), Frame(9, 1, [], false);
    assert Delivered(node, start, [], decode) == Outcome(start, []);
    assert [first][..0] == [];
    assert Delivered(node, start, [first], decode)
        == Outcome(Cursor(7, 2, true), [SealedAt(node, WriteToken(7, 1))]);
    assert [first, second][..1] == [first];
    assert Delivered(node, start, [first, second], decode)
        == Outcome(Cursor(9, 1, false), [SealedAt(node, WriteToken(7, 1)), Renewed(node, WriteToken(7, 1), 9)]);
  }
}
