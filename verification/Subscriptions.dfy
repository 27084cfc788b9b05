/** One subscription follows many peers: its single queue is each peer's own events, interleaved. */
module Subscriptions {
  import opened Common
  import opened FeedWire
  import opened Peers

  datatype Arrival = Arrival(node: NodeId, frame: Frame)

  /** Scans one after the other, of any peers in any order. */
  function Subscribed<K>(attached: map<NodeId, Cursor>, arrivals: seq<Arrival>,
                         decode: Bytes -> Option<K>): Subscription<K> {
    if arrivals == [] then Subscription(attached, [])
    else
      var last := arrivals[|arrivals| - 1];
      Scanned(Subscribed(attached, arrivals[..|arrivals| - 1], decode), last.node, last.frame, decode)
  }

  /** The events of one peer, in order. */
  function OfPeer<K>(log: seq<Event<K>>, peer: NodeId): seq<Event<K>> {
    if log == [] then []
    else
      var front := OfPeer(log[..|log| - 1], peer);
      if log[|log| - 1].peer == peer then front + [log[|log| - 1]] else front
  }

  /** The frames one peer was scanned with, in order. */
  function FramesOf(arrivals: seq<Arrival>, peer: NodeId): seq<Frame> {
    if arrivals == [] then []
    else
      var front := FramesOf(arrivals[..|arrivals| - 1], peer);
      var last := arrivals[|arrivals| - 1];
      if last.node == peer then front + [last.frame] else front
  }

  /** Where following a peer began: where it was attached, or at its first frame's oldest write. */
  function StartOf(attached: map<NodeId, Cursor>, frames: seq<Frame>, peer: NodeId): Option<Cursor> {
    if peer in attached then Some(attached[peer])
    else if frames != [] then Some(Replaying(frames[0]))
    else None
  }

  predicate AllOf<K>(events: seq<Event<K>>, peer: NodeId) {
    forall i :: 0 <= i < |events| ==> events[i].peer == peer
  }

  lemma {:induction false} OfPeerConcat<K(!new)>(a: seq<Event<K>>, b: seq<Event<K>>, peer: NodeId)
    ensures OfPeer(a + b, peer) == OfPeer(a, peer) + OfPeer(b, peer)
    decreases |b|
  {
    if b == [] {
      assert a + b == a;
    } else {
      var front := b[..|b| - 1];
      assert (a + b)[..|a + b| - 1] == a + front;
      OfPeerConcat(a, front, peer);
    }
  }

  lemma {:induction false} OfPeerAll<K(!new)>(events: seq<Event<K>>, node: NodeId, peer: NodeId)
    requires AllOf(events, node)
    ensures OfPeer(events, peer) == if node == peer then events else []
  {
    if events != [] {
      OfPeerAll(events[..|events| - 1], node, peer);
    }
  }

  /** A queue that was already there is carried along untouched. */
  lemma {:induction false} DrainAppends<K(!new)>(node: NodeId, c: Cursor, q: seq<Event<K>>, new_: seq<Event<K>>,
                                                 f: Frame, until: nat, decode: Bytes -> Option<K>)
    requires f.firstSeq <= c.next && until <= Max(c.next, End(f)) && AllOf(new_, node)
    ensures var alone := Drained(node, Outcome(c, new_), f, until, decode).events;
            Drained(node, Outcome(c, q + new_), f, until, decode).events == q + alone && AllOf(alone, node)
    decreases until
  {
    if until > c.next {
      DrainAppends(node, c, q, new_, f, until - 1, decode);
      assert forall a: seq<Event<K>>, b: seq<Event<K>> :: (q + a) + b == q + (a + b);
    }
  }

  lemma {:induction false} ReconcileAppends<K(!new)>(node: NodeId, c: Cursor, q: seq<Event<K>>, f: Frame,
                                                     decode: Bytes -> Option<K>)
    ensures var alone := Reconciled(node, Outcome(c, []), f, decode);
            Reconciled(node, Outcome(c, q), f, decode) == Outcome(alone.cursor, q + alone.events) && AllOf(alone.events, node)
  {
    if Stale(c, f) {
      assert q + [] == q;
    } else {
      var alone, merged := Enter(node, Outcome(c, []), f), Enter(node, Outcome(c, q), f);
      assert merged.events == q + alone.events;
      var until := Max(alone.cursor.next, End(f));
      DrainAppends(node, alone.cursor, q, alone.events, f, until, decode);
      assert merged == Outcome(alone.cursor, q + alone.events);
      var drained := Drained(node, alone, f, until, decode);
      var seal := SealedOff(node, Outcome(drained.cursor, []), f).events;
      assert SealedOff(node, drained, f).events == drained.events + seal;
      assert (q + drained.events) + seal == q + (drained.events + seal);
    }
  }

  /** One scan moves the scanned peer as if it were followed alone, and nobody else. */
  lemma {:induction false} ScanIsSeparate<K(!new)>(s: Subscription<K>, node: NodeId, f: Frame,
                                                   decode: Bytes -> Option<K>, peer: NodeId)
    ensures var next := Scanned(s, node, f, decode);
            if peer != node then
              && (peer in next.cursors <==> peer in s.cursors)
              && (peer in s.cursors ==> next.cursors[peer] == s.cursors[peer])
              && OfPeer(next.queue, peer) == OfPeer(s.queue, peer)
            else
              var from := if node in s.cursors then s.cursors[node] else Replaying(f);
              && peer in next.cursors
              && Outcome(next.cursors[peer], OfPeer(next.queue, peer)) == Reconciled(node, Outcome(from, OfPeer(s.queue, node)), f, decode)
  {
    var from := if node in s.cursors then s.cursors[node] else Replaying(f);
    var alone := Reconciled(node, Outcome(from, []), f, decode);
    ReconcileAppends(node, from, s.queue, f, decode);
    ReconcileAppends(node, from, OfPeer(s.queue, node), f, decode);
    OfPeerConcat(s.queue, alone.events, peer);
    OfPeerAll(alone.events, node, peer);
  }

  /**
   Whatever peers were scanned in between: a peer's share of the merged queue, and its
   cursor, are those of a subscriber that followed this peer alone.
   */
  lemma {:induction false} QueueSplitsByPeer<K(!new)>(attached: map<NodeId, Cursor>, arrivals: seq<Arrival>,
                                                      decode: Bytes -> Option<K>, peer: NodeId)
    ensures var s := Subscribed(attached, arrivals, decode);
            var frames := FramesOf(arrivals, peer);
            match StartOf(attached, frames, peer)
            case None => peer !in s.cursors && OfPeer(s.queue, peer) == []
            case Some(start) => peer in s.cursors && Outcome(s.cursors[peer], OfPeer(s.queue, peer)) == Delivered(peer, start, frames, decode)
  {
    if arrivals != [] {
      var front := arrivals[..|arrivals| - 1];
      var last := arrivals[|arrivals| - 1];
      QueueSplitsByPeer(attached, front, decode, peer);
      ScanIsSeparate(Subscribed(attached, front, decode), last.node, last.frame, decode, peer);
      if last.node == peer {
        var frames := FramesOf(arrivals, peer);
        assert frames[..|frames| - 1] == FramesOf(front, peer);
      }
    }
  }

  lemma {:induction false} DeliveredIsOfPeer<K(!new)>(peer: NodeId, start: Cursor, frames: seq<Frame>,
                                                      decode: Bytes -> Option<K>)
    ensures AllOf(Delivered(peer, start, frames, decode).events, peer)
  {
    if frames != [] {
      var o := Delivered(peer, start, frames[..|frames| - 1], decode);
      DeliveredIsOfPeer(peer, start, frames[..|frames| - 1], decode);
      ReconcileAppends(peer, o.cursor, o.events, frames[|frames| - 1], decode);
    }
  }
}
