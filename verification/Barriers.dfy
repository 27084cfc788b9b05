/**
 What the read barrier and the write barrier mean. An application applies the queued
 events of all peers in order and raises its watermark after each; other nodes see
 that ledger late, through gossip.
 */
module Barriers {
  import opened Common
  import opened FeedWire
  import opened Peers
  import opened FeedAccount
  import opened FeedSafety
  import opened FeedLoss
  import opened Subscriptions
  import opened Ids
  import opened Acks

  /** The watermarks after applying `log`, oldest event first. */
  function MarksOf<K>(log: seq<Event<K>>): Watermarks {
    if log == [] then map[]
    else
      var last := log[|log| - 1];
      Raised(MarksOf(log[..|log| - 1]), last.peer, Reach(last))
  }

  /** An apply loop: takes the queue front to back and raises the frontier after each event. */
  method ApplyAll<K>(queue: seq<Event<K>>, frontier: Frontier)
    requires frontier.applied == map[]
    modifies frontier
    ensures frontier.applied == MarksOf(queue)
  {
    for i := 0 to |queue|
      invariant frontier.applied == MarksOf(queue[..i])
    {
      assert queue[..i + 1][..i] == queue[..i];
      frontier.Advance(queue[i].peer, Reach(queue[i]));
    }
    assert queue[..|queue|] == queue;
  }

  /** Other peers' events leave a watermark alone; the peer's own raise it one after the other. */
  lemma {:induction false} MarkIsOfPeer<K(!new)>(log: seq<Event<K>>, peer: NodeId)
    ensures Lookup(MarksOf(log), peer) == Lookup(MarksOf(OfPeer(log, peer)), peer)
    ensures AllOf(OfPeer(log, peer), peer)
  {
    if log != [] {
      var front := log[..|log| - 1];
      var last := log[|log| - 1];
      MarkIsOfPeer(front, peer);
      if last.peer == peer {
        assert OfPeer(log, peer)[..|OfPeer(front, peer)|] == OfPeer(front, peer);
      }
    }
  }

  /** With increasing events the watermark is the reach of the last one applied. */
  lemma {:induction false} MarkIsLastReach<K(!new)>(start: Cursor, end: Cursor, events: seq<Event<K>>, peer: NodeId, k: nat)
    requires Ordered(start, end, events) && k <= |events|
    requires AllOf(events, peer)
    ensures Lookup(MarksOf(events[..k]), peer) == if k == 0 then None else Some(Reach(events[k - 1]))
  {
    if k > 0 {
      MarkIsLastReach(start, end, events, peer, k - 1);
      assert events[..k][..k - 1] == events[..k - 1];
      if k > 1 {
        assert Before(Reach(events[k - 2]), Reach(events[k - 1]));
      }
      assert AtMost(Position(start), Reach(events[k - 1]));
    }
  }

  /** A node following its peers: where it attached, what it scanned, and how much of its queue it has applied. */
  datatype Follower = Follower(attached: map<NodeId, Cursor>, arrivals: seq<Arrival>, applied: nat)

  function Queue<K>(x: Follower, decode: Bytes -> Option<K>): seq<Event<K>> {
    Subscribed(x.attached, x.arrivals, decode).queue
  }

  /** The events applied so far, of every peer, in queue order. */
  function Log<K>(x: Follower, decode: Bytes -> Option<K>): seq<Event<K>> {
    Queue(x, decode)[..Min(x.applied, |Queue(x, decode)|)]
  }

  /** Of `writer` it attached to a real position and scanned only genuine frames. */
  ghost predicate Follows(h: History, writer: NodeId, x: Follower) {
    && (writer in x.attached ==> AtLife(h, x.attached[writer]))
    && forall i :: 0 <= i < |FramesOf(x.arrivals, writer)| ==> Genuine(h, FramesOf(x.arrivals, writer)[i])
  }

  /** A write of `writer` that this follower must apply: decodable and not before it started. */
  predicate OwedTo<K>(h: History, decode: Bytes -> Option<K>, writer: NodeId, x: Follower, t: WriteToken) {
    match StartOf(x.attached, FramesOf(x.arrivals, writer), writer)
    case None => false
    case Some(start) => Owed(h, decode, start, t)
  }

  lemma {:induction false} PrefixOfPeer<K(!new)>(log: seq<Event<K>>, peer: NodeId, j: nat)
    requires j <= |log|
    ensures OfPeer(log[..j], peer) <= OfPeer(log, peer)
    decreases |log|
  {
    if j < |log| {
      PrefixOfPeer(log[..|log| - 1], peer, j);
      assert log[..|log| - 1][..j] == log[..j];
    } else {
      assert log[..j] == log;
    }
  }

  /** One of these events applied `t`, or told of a gap over it. */
  predicate AppliedOrGapped<K>(events: seq<Event<K>>, t: WriteToken) {
    Sent(events, t) || Gapped(events, t)
  }

  /**
   The read barrier: once a follower's frontier reached `token`, every write of the
   writer up to `token` that it was owed has been applied or remediated under a gap,
   if the writer's history is unbroken; otherwise a renewal may have jumped over its life.
   */
  lemma {:induction false} ReachedMeansApplied<K(!new)>(h: History, decode: Bytes -> Option<K>, writer: NodeId,
                                                        x: Follower, token: WriteToken, t: WriteToken)
    requires Follows(h, writer, x)
    requires Reached(MarksOf(Log(x, decode)), writer, token)
    requires OwedTo(h, decode, writer, x, t) && AtMost(t, token)
    ensures Accounted(OfPeer(Log(x, decode), writer), t)
    ensures Unbroken(h, decode) ==> AppliedOrGapped(OfPeer(Log(x, decode), writer), t)
  {
    var frames := FramesOf(x.arrivals, writer);
    var start := StartOf(x.attached, frames, writer).value;
    var all := Delivered(writer, start, frames, decode);
    var applied := OfPeer(Log(x, decode), writer);
    QueueSplitsByPeer(x.attached, x.arrivals, decode, writer);
    PrefixOfPeer(Queue(x, decode), writer, |Log(x, decode)|);
    MarkIsOfPeer(Log(x, decode), writer);
    DeliveredIsOfPeer(writer, start, frames, decode);
    ReachedPrefix(h, decode, writer, start, frames, applied, token, t);
  }

  /** The same for the events of one peer followed alone. */
  lemma {:induction false} ReachedPrefix<K(!new)>(h: History, decode: Bytes -> Option<K>, writer: NodeId,
                                                  start: Cursor, frames: seq<Frame>,
                                                  applied: seq<Event<K>>, token: WriteToken, t: WriteToken)
    requires AtLife(h, start) && AllGenuine(h, frames)
    requires applied <= Delivered(writer, start, frames, decode).events
    requires AllOf(Delivered(writer, start, frames, decode).events, writer)
    requires Reached(MarksOf(applied), writer, token)
    requires Owed(h, decode, start, t) && AtMost(t, token)
    ensures Accounted(applied, t)
    ensures Unbroken(h, decode) ==> AppliedOrGapped(applied, t)
  {
    var all := Delivered(writer, start, frames, decode);
    var k := |applied|;
    DeliveryIsTracked(h, decode, writer, start, frames);
    assert applied == all.events[..k];
    MarkIsLastReach(start, all.cursor, all.events, writer, k);
    assert AtMost(t, Reach(all.events[k - 1]));
    var i :| 0 <= i < k && AccountedBy(all.events[i], t);
    assert AccountedBy(applied[i], t);
    if Unbroken(h, decode) {
      UnbrokenSkipsNothing(h, decode, applied, t);
    }
  }

  lemma {:induction false} AccountedInPrefix<K(!new)>(a: seq<Event<K>>, b: seq<Event<K>>, t: WriteToken)
    requires a <= b
    ensures Accounted(a, t) ==> Accounted(b, t)
    ensures AppliedOrGapped(a, t) ==> AppliedOrGapped(b, t)
  {
    assert forall i :: 0 <= i < |a| ==> a[i] == b[i];
  }

  // ---- When the read barrier holds ----

  /** Reaching `token` meant, for this follower, that `t` was applied or gapped. */
  ghost predicate BarrierHolds<K(!new)>(h: History, decode: Bytes -> Option<K>, writer: NodeId,
                                        x: Follower, token: WriteToken, t: WriteToken) {
    Follows(h, writer, x) && Reached(MarksOf(Log(x, decode)), writer, token) && OwedTo(h, decode, writer, x, t) && AtMost(t, token)
    ==> AppliedOrGapped(OfPeer(Log(x, decode), writer), t)
  }

  /** Attached to a sealed life, then shown all of it and the beginning of a later one, with everything applied. */
  function Bypassed<K>(h: History, decode: Bytes -> Option<K>, writer: NodeId, sealed: u64, later: u64): Follower
    requires sealed in h
  {
    var frames := LosingFrames(h, sealed, later);
    var x := Follower(map[writer := Cursor(sealed, 1, false)], [Arrival(writer, frames[0])] + [Arrival(writer, frames[1])], 0);
    x.(applied := |Queue(x, decode)|)
  }

  lemma {:induction false} BypassedFrames<K(!new)>(h: History, decode: Bytes -> Option<K>, writer: NodeId, sealed: u64, later: u64)
    requires sealed in h
    ensures FramesOf(Bypassed(h, decode, writer, sealed, later).arrivals, writer) == LosingFrames(h, sealed, later)
  {
    var frames := LosingFrames(h, sealed, later);
    var first, second := Arrival(writer, frames[0]), Arrival(writer, frames[1]);
    assert ([first] + [second])[..1] == [first] && [first][..0] == [];
    assert FramesOf([first], writer) == [frames[0]];
  }

  /** The last of its events is the renewal. */
  lemma {:induction false} LosingFramesEndInRenewal<K(!new)>(h: History, decode: Bytes -> Option<K>, writer: NodeId, sealed: u64, later: u64)
    requires Rooted(h) && sealed in h && h[sealed].sealed && later in h && sealed < later
    ensures var events := Delivered(writer, Cursor(sealed, 1, false), LosingFrames(h, sealed, later), decode).events;
            events != [] && Reach(events[|events| - 1]) == WriteToken(later, 0)
  {
    var start, frames := Cursor(sealed, 1, false), LosingFrames(h, sealed, later);
    assert frames[..1] == [frames[0]] && [frames[0]][..0] == [];
    DeliveryStandsAtLatest(h, decode, writer, start, frames[..1]);
    assert Latest(start, frames[..1]) == Attached(frames[0]);
  }

  /** What it applied of the writer is what the two frames deliver. */
  lemma {:induction false} BypassedLog<K(!new)>(h: History, decode: Bytes -> Option<K>, writer: NodeId, sealed: u64, later: u64)
    requires sealed in h
    ensures var x := Bypassed(h, decode, writer, sealed, later);
            OfPeer(Log(x, decode), writer)
            == Delivered(writer, Cursor(sealed, 1, false), LosingFrames(h, sealed, later), decode).events
  {
    var x := Bypassed(h, decode, writer, sealed, later);
    BypassedFrames(h, decode, writer, sealed, later);
    QueueSplitsByPeer(x.attached, x.arrivals, decode, writer);
    assert Log(x, decode) == Queue(x, decode);
  }

  /** Everything delivered of a peer leaves its watermark at the last event. */
  lemma {:induction false} DeliveredMark<K(!new)>(h: History, decode: Bytes -> Option<K>, writer: NodeId, start: Cursor, frames: seq<Frame>)
    requires AtLife(h, start) && AllGenuine(h, frames)
    ensures var events := Delivered(writer, start, frames, decode).events;
            events != [] ==> Lookup(MarksOf(events), writer) == Some(Reach(events[|events| - 1]))
  {
    var all := Delivered(writer, start, frames, decode);
    DeliveryIsTracked(h, decode, writer, start, frames);
    DeliveredIsOfPeer(writer, start, frames, decode);
    MarkIsLastReach(start, all.cursor, all.events, writer, |all.events|);
    assert all.events[..|all.events|] == all.events;
  }

  lemma {:induction false} BypassedReaches<K(!new)>(h: History, decode: Bytes -> Option<K>, writer: NodeId, sealed: u64, later: u64)
    requires Rooted(h) && sealed in h && h[sealed].sealed && later in h && sealed < later
    ensures Reached(MarksOf(Log(Bypassed(h, decode, writer, sealed, later), decode)), writer, WriteToken(later, 0))
  {
    var start, frames := Cursor(sealed, 1, false), LosingFrames(h, sealed, later);
    BypassedLog(h, decode, writer, sealed, later);
    MarkIsOfPeer(Log(Bypassed(h, decode, writer, sealed, later), decode), writer);
    LosingFramesEndInRenewal(h, decode, writer, sealed, later);
    DeliveredMark(h, decode, writer, start, frames);
  }

  lemma {:induction false} BypassedIsOwed<K(!new)>(h: History, decode: Bytes -> Option<K>, writer: NodeId,
                                                   sealed: u64, t: WriteToken, later: u64)
    requires Rooted(h) && Exposed(h, decode, sealed, t, later)
    ensures var x := Bypassed(h, decode, writer, sealed, later); Follows(h, writer, x) && OwedTo(h, decode, writer, x, t)
  {
    BypassedFrames(h, decode, writer, sealed, later);
    ExposedIsJumpedOver(h, decode, sealed, t, later);
  }

  lemma {:induction false} BypassedMisses<K(!new)>(h: History, decode: Bytes -> Option<K>, writer: NodeId,
                                                   sealed: u64, t: WriteToken, later: u64)
    requires Rooted(h) && Exposed(h, decode, sealed, t, later)
    ensures !AppliedOrGapped(OfPeer(Log(Bypassed(h, decode, writer, sealed, later), decode), writer), t)
  {
    BypassedLog(h, decode, writer, sealed, later);
    ExposedIsLost(h, decode, writer, sealed, t, later);
  }

  lemma {:induction false} BypassedBreaksBarrier<K(!new)>(h: History, decode: Bytes -> Option<K>, writer: NodeId,
                                                          sealed: u64, t: WriteToken, later: u64) returns (x: Follower)
    requires Rooted(h) && Exposed(h, decode, sealed, t, later)
    ensures !BarrierHolds(h, decode, writer, x, WriteToken(later, 0), t)
  {
    x := Bypassed(h, decode, writer, sealed, later);
    BypassedIsOwed(h, decode, writer, sealed, t, later);
    BypassedReaches(h, decode, writer, sealed, later);
    BypassedMisses(h, decode, writer, sealed, t, later);
  }

  /** Reaching a token means having applied what is owed, for every follower, exactly when the history is unbroken. */
  lemma {:induction false} ReadBarrierHoldsIff<K(!new)>(h: History, decode: Bytes -> Option<K>, writer: NodeId)
    requires Rooted(h)
    ensures (forall x, token, t :: BarrierHolds(h, decode, writer, x, token, t)) <==> Unbroken(h, decode)
  {
    if Unbroken(h, decode) {
      forall x, token, t ensures BarrierHolds(h, decode, writer, x, token, t) {
        if Follows(h, writer, x) && Reached(MarksOf(Log(x, decode)), writer, token)
           && OwedTo(h, decode, writer, x, t) && AtMost(t, token) {
          ReachedMeansApplied(h, decode, writer, x, token, t);
        }
      }
    } else {
      var sealed, t, later :| Exposed(h, decode, sealed, t, later);
      var x := BypassedBreaksBarrier(h, decode, writer, sealed, t, later);
    }
  }

  // ---- The write barrier ----

  /** Gossip shows the ledger of some earlier moment, listed in some order. */
  ghost predicate StaleLedger<K(!new)>(bytes: Bytes, log: seq<Event<K>>) {
    exists j :: 0 <= j <= |log| && LedgerOf(bytes, MarksOf(log[..j]))
  }

  /** Every peer named in the log has a name whose length fits its prefix. */
  predicate PeersFit<K>(log: seq<Event<K>>) {
    forall i :: 0 <= i < |log| ==> |log[i].peer| <= U32_MAX
  }

  /** Every sequence number in the log is a machine word. */
  predicate ReachesFit<K>(log: seq<Event<K>>) {
    forall i :: 0 <= i < |log| ==> 0 <= Reach(log[i]).at <= U64_MAX
  }

  lemma {:induction false} MarksFit<K(!new)>(log: seq<Event<K>>)
    ensures PeersFit(log) ==> NamesFit(MarksOf(log))
    ensures ReachesFit(log) ==> TokensFit(MarksOf(log))
  {
    if log != [] {
      MarksFit(log[..|log| - 1]);
    }
  }

  /** The last ledger gossiped shows the current watermark of every writer that has one above the origin. */
  ghost predicate UpToDate(published: seq<Bytes>, m: Watermarks) {
    forall w :: w in m && m[w] != ORIGIN ==> published != [] && FirstMark(published[|published| - 1], w) == Some(m[w])
  }

  lemma {:induction false} LedgerIsUpToDate(published: seq<Bytes>, m: Watermarks)
    requires published != [] && LedgerOf(published[|published| - 1], m) && NamesFit(m)
    ensures UpToDate(published, m)
  {
    forall w | w in m ensures FirstMark(published[|published| - 1], w) == Some(m[w]) {
      LedgerReadsBack(published[|published| - 1], m, w);
    }
  }

  /** A token already covered leaves what was gossiped last as good as it was. */
  lemma {:induction false} StaysUpToDate(published: seq<Bytes>, m: Watermarks, writer: NodeId, token: WriteToken)
    requires UpToDate(published, m) && AtMost(token, if writer in m then m[writer] else ORIGIN)
    ensures UpToDate(published, Raised(m, writer, token))
  {
  }

  /** Every ledger gossiped shows some earlier moment. */
  ghost predicate AllStale<K(!new)>(published: seq<Bytes>, log: seq<Event<K>>) {
    forall k :: 0 <= k < |published| ==> StaleLedger(published[k], log)
  }

  /** One more ledger, of the first `n` events. */
  lemma {:induction false} OneMoreLedger<K(!new)>(published: seq<Bytes>, queue: seq<Event<K>>, n: nat, bytes: Bytes)
    requires AllStale(published, queue) && n <= |queue| && LedgerOf(bytes, MarksOf(queue[..n]))
    ensures AllStale(published + [bytes], queue)
    ensures PeersFit(queue) ==> UpToDate(published + [bytes], MarksOf(queue[..n]))
  {
    if PeersFit(queue) {
      assert PeersFit(queue[..n]);
      MarksFit(queue[..n]);
      LedgerIsUpToDate(published + [bytes], MarksOf(queue[..n]));
    }
  }

  /** An apply loop that records every event in its ledger and gossips the ledger when a watermark advanced. */
  method RecordAll<K(!new)>(queue: seq<Event<K>>, ledger: AckLedger) returns (published: seq<Bytes>)
    requires ledger.applied == map[] && ReachesFit(queue)
    modifies ledger
    ensures ledger.applied == MarksOf(queue)
    ensures AllStale(published, queue)
    ensures PeersFit(queue) ==> UpToDate(published, MarksOf(queue))
  {
    published := [];
    for i := 0 to |queue|
      invariant ledger.applied == MarksOf(queue[..i]) && TokensFit(ledger.applied)
      invariant AllStale(published, queue)
      invariant PeersFit(queue) ==> UpToDate(published, ledger.applied)
    {
      ghost var before := ledger.applied;
      assert queue[..i + 1][..i] == queue[..i];
      var gossip := ledger.RecordAndPublish(queue[i].peer, Reach(queue[i]));
      if gossip.Some? {
        OneMoreLedger(published, queue, i + 1, gossip.value);
        published := published + [gossip.value];
      } else if PeersFit(queue) {
        StaysUpToDate(published, before, queue[i].peer, Reach(queue[i]));
      }
    }
    assert queue[..|queue|] == queue;
  }

  /** An acknowledgement read off a stale ledger was true of the moment the ledger shows. */
  lemma {:induction false} ShownWasReached<K(!new)>(bytes: Bytes, log: seq<Event<K>>, writer: NodeId, token: WriteToken) returns (j: nat)
    requires StaleLedger(bytes, log) && PeersFit(log)
    requires FirstMark(bytes, writer).Some? && AtMost(token, FirstMark(bytes, writer).value)
    ensures j <= |log| && Reached(MarksOf(log[..j]), writer, token)
  {
    var moment :| 0 <= moment <= |log| && LedgerOf(bytes, MarksOf(log[..moment]));
    MarksFit(log[..moment]);
    LedgerReadsBack(bytes, MarksOf(log[..moment]), writer);
    j := moment;
  }

  /** The follower as it was when it had applied the first `j` of its events. */
  lemma {:induction false} EarlierFollower<K(!new)>(x: Follower, decode: Bytes -> Option<K>, j: nat) returns (earlier: Follower)
    requires j <= |Log(x, decode)|
    ensures earlier == x.(applied := j) && Log(earlier, decode) == Log(x, decode)[..j]
  {
    earlier := x.(applied := j);
  }

  /** What a follower had applied when a ledger showed it past `token` is part of what it has applied by now. */
  lemma {:induction false} LedgerMeansApplied<K(!new)>(h: History, decode: Bytes -> Option<K>, writer: NodeId, bytes: Bytes,
                                                       token: WriteToken, x: Follower, t: WriteToken)
    requires Follows(h, writer, x) && StaleLedger(bytes, Log(x, decode)) && PeersFit(Log(x, decode))
    requires FirstMark(bytes, writer).Some? && AtMost(token, FirstMark(bytes, writer).value)
    requires OwedTo(h, decode, writer, x, t) && AtMost(t, token)
    ensures Accounted(OfPeer(Log(x, decode), writer), t)
    ensures Unbroken(h, decode) ==> AppliedOrGapped(OfPeer(Log(x, decode), writer), t)
  {
    var log := Log(x, decode);
    var j := ShownWasReached(bytes, log, writer, token);
    var earlier := EarlierFollower(x, decode, j);
    PrefixOfPeer(log, writer, j);
    ReachedMeansApplied(h, decode, writer, earlier, token, t);
    AccountedInPrefix(OfPeer(log[..j], writer), OfPeer(log, writer), t);
  }

  /**
   The write barrier: when a roster wait completes for `token`, every selected member
   has applied or remediated every write up to `token` that it was owed, however old
   the ledger that gossip showed, if the writer's history is unbroken.
   */
  lemma {:induction false} CompleteRosterHasApplied<K(!new)>(h: History, decode: Bytes -> Option<K>, writer: NodeId,
                                                             token: WriteToken, view: View, o: AckOutcome,
                                                             member: NodeId, x: Follower, t: WriteToken)
    requires Splits(o, o.selected, view, writer, token) && o.missing == [] && member in o.selected
    requires Follows(h, writer, x)
    requires member in view ==> StaleLedger(view[member], Log(x, decode)) && PeersFit(Log(x, decode))
    requires OwedTo(h, decode, writer, x, t) && AtMost(t, token)
    ensures Accounted(OfPeer(Log(x, decode), writer), t)
    ensures Unbroken(h, decode) ==> AppliedOrGapped(OfPeer(Log(x, decode), writer), t)
  {
    assert member !in o.missing;
    assert Acknowledged(view, member, writer, token);
    LedgerMeansApplied(h, decode, writer, view[member], token, x, t);
  }
}
