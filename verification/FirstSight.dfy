/** A peer met for the first time: everything its frame still shows is delivered. */
module FirstSight {
  import opened Common
  import opened FeedWire
  import opened Peers
  import opened FeedAccount
  import opened FeedSafety
  import opened FeedLoss
  import opened Subscriptions
  import opened Acks
  import opened Barriers

  /** The first `n` keys a frame shows, each under its own position, without those that do not decode. */
  function Visible<K>(node: NodeId, f: Frame, n: nat, decode: Bytes -> Option<K>): seq<Event<K>>
    requires n <= |f.keys|
  {
    if n == 0 then []
    else
      var key := decode(f.keys[n - 1]);
      Visible(node, f, n - 1, decode)
      + if key.Some? then [Wrote(node, WriteToken(f.epoch, f.firstSeq + (n - 1)), key.value)] else []
  }

  /** A frame's seal, if it has one. */
  function Closing<K>(node: NodeId, f: Frame): seq<Event<K>> {
    if f.sealed then [SealedAt(node, WriteToken(f.epoch, f.firstSeq + |f.keys|))] else []
  }

  lemma {:induction false} DrainShowsKeys<K(!new)>(node: NodeId, queue: seq<Event<K>>, f: Frame, n: nat, decode: Bytes -> Option<K>)
    requires n <= |f.keys|
    ensures Drained(node, Outcome(Cursor(f.epoch, f.firstSeq, false), queue), f, f.firstSeq + n, decode)
            == Outcome(Cursor(f.epoch, f.firstSeq + n, false), queue + Visible(node, f, n, decode))
  {
    if n == 0 {
      assert queue + [] == queue;
    } else {
      DrainShowsKeys(node, queue, f, n - 1, decode);
      var at := f.firstSeq + (n - 1);
      assert f.keys[at - f.firstSeq] == f.keys[n - 1];
      assert WroteAt(node, f, at, decode) == Visible(node, f, n, decode)[|Visible(node, f, n - 1, decode)|..];
      var before := Visible(node, f, n - 1, decode);
      assert queue + before + WroteAt(node, f, at, decode) == queue + (before + WroteAt(node, f, at, decode));
    }
  }

  /**
   Scanning a peer for the first time appends exactly the decodable keys of its frame in order, the i-th
   under sequence number `firstSeq + i`, then the seal if there is one, and leaves the cursor past them.
   */
  lemma {:induction false} FirstScanReplays<K(!new)>(s: Subscription<K>, node: NodeId, f: Frame, decode: Bytes -> Option<K>)
    requires node !in s.cursors
    ensures var r := Scanned(s, node, f, decode);
            && r.queue == s.queue + Visible(node, f, |f.keys|, decode) + Closing(node, f)
            && r.cursors == s.cursors[node := Cursor(f.epoch, f.firstSeq + |f.keys| + (if f.sealed then 1 else 0), f.sealed)]
  {
    DrainShowsKeys(node, s.queue, f, |f.keys|, decode);
    var queue := s.queue + Visible(node, f, |f.keys|, decode);
    assert queue + [] == queue;
  }

  /** A subscriber that attached at a frame has nothing to replay from it. */
  lemma {:induction false} AttachReplaysNothing<K(!new)>(s: Subscription<K>, node: NodeId, f: Frame, decode: Bytes -> Option<K>)
    requires node in s.cursors && s.cursors[node] == Attached(f)
    ensures Scanned(s, node, f, decode) == s
  {
  }

  /** A follower that never attached is owed exactly the decodable writes from its first frame's oldest one on. */
  lemma {:induction false} NeverAttachedIsOwedAll<K(!new)>(h: History, decode: Bytes -> Option<K>, writer: NodeId, x: Follower, t: WriteToken)
    requires writer !in x.attached && FramesOf(x.arrivals, writer) != []
    ensures var f := FramesOf(x.arrivals, writer)[0];
            OwedTo(h, decode, writer, x, t) <==>
            && IsWrite(h, t) && decode(KeyAt(h, t)).Some?
            && (f.epoch < t.epoch || (f.epoch == t.epoch && f.firstSeq <= t.at))
  {
  }

  /**
   The read barrier of a follower that never attached covers everything from the first frame it saw on:
   once its frontier reached `token`, each such write up to `token` was applied or gapped, if the writer's
   history is unbroken.
   */
  lemma {:induction false} FirstSeenWritesAreApplied<K(!new)>(h: History, decode: Bytes -> Option<K>, writer: NodeId, x: Follower,
                                                              token: WriteToken, t: WriteToken)
    requires Follows(h, writer, x) && Unbroken(h, decode)
    requires writer !in x.attached && FramesOf(x.arrivals, writer) != []
    requires Reached(MarksOf(Log(x, decode)), writer, token) && AtMost(t, token)
    requires IsWrite(h, t) && decode(KeyAt(h, t)).Some?
    requires var f := FramesOf(x.arrivals, writer)[0]; AtMost(WriteToken(f.epoch, f.firstSeq), t)
    ensures AppliedOrGapped(OfPeer(Log(x, decode), writer), t)
  {
    NeverAttachedIsOwedAll(h, decode, writer, x, t);
    ReachedMeansApplied(h, decode, writer, x, token, t);
  }
}
