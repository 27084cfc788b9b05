/** Retiring the acknowledged prefix of a ring, as its subscribers see it. */
module FeedRetirement {
  import opened Common
  import opened FeedWire
  import opened Feed
  import opened Peers
  import opened FeedAccount
  import opened FeedSafety
  import opened FeedLoss

  /** Sequence numbers start at one and are machine words. */
  predicate Numbered(f: Frame) {
    1 <= f.firstSeq && End(f) <= U64_MAX
  }

  /** The rest of the frame from position `first` on. */
  function From(f: Frame, first: nat): (r: Frame)
    requires Numbered(f) && f.firstSeq <= first <= End(f)
    ensures Numbered(r) && r.epoch == f.epoch && r.firstSeq == first && End(r) == End(f)
  {
    Frame(f.epoch, first, f.keys[first - f.firstSeq..], f.sealed)
  }

  /** The frame advertised after retiring through `token`. */
  function Retired(f: Frame, token: WriteToken): (r: Frame)
    requires Numbered(f)
    ensures Numbered(r) && r.epoch == f.epoch && r.sealed == f.sealed && f.firstSeq <= r.firstSeq && End(r) == End(f)
    ensures f.keys != [] ==> r.keys != []
  {
    From(f, RetiredFirst(f.epoch, f.firstSeq, End(f) - 1, token))
  }

  /** Retiring leaves a genuine window of the same life. */
  lemma {:induction false} RetiredIsGenuine(h: History, f: Frame, token: WriteToken)
    requires Genuine(h, f) && Numbered(f)
    ensures Genuine(h, Retired(f, token))
  {
    var r := Retired(f, token);
    var writes := h[f.epoch].writes;
    assert writes[f.firstSeq - 1..End(f) - 1][r.firstSeq - f.firstSeq..] == writes[r.firstSeq - 1..End(f) - 1];
  }

  lemma {:induction false} FromFrom(f: Frame, first: nat, second: nat)
    requires Numbered(f) && f.firstSeq <= first <= second <= End(f)
    ensures From(From(f, first), second) == From(f, second)
  {
    assert f.keys[first - f.firstSeq..][second - first..] == f.keys[second - f.firstSeq..];
  }

  lemma {:induction false} RetiredIsFrom(f: Frame, token: WriteToken, first: nat)
    requires Numbered(f) && first == RetiredFirst(f.epoch, f.firstSeq, End(f) - 1, token)
    ensures f.firstSeq <= first <= End(f) && Retired(f, token) == From(f, first)
  {
  }

  lemma {:induction false} RetiredTwice(f: Frame, a: WriteToken, b: WriteToken, first: nat, second: nat)
    requires Numbered(f)
    requires first == RetiredFirst(f.epoch, f.firstSeq, End(f) - 1, a)
    requires second == RetiredFirst(f.epoch, first, End(f) - 1, b)
    ensures f.firstSeq <= first <= second <= End(f) && Retired(Retired(f, a), b) == From(f, second)
  {
    RetiredIsFrom(f, a, first);
    RetiredIsFrom(From(f, first), b, second);
    FromFrom(f, first, second);
  }

  /** Acknowledgements that arrive late, twice or out of order retire the same prefix. */
  lemma {:induction false} RetirementCommutes(f: Frame, a: WriteToken, b: WriteToken)
    requires Numbered(f)
    ensures Retired(Retired(f, a), b) == Retired(Retired(f, b), a)
    ensures a.epoch == b.epoch && a.at <= b.at ==> Retired(Retired(f, b), a) == Retired(f, b)
  {
    var end := End(f) - 1;
    var firstA, firstB := RetiredFirst(f.epoch, f.firstSeq, end, a), RetiredFirst(f.epoch, f.firstSeq, end, b);
    RetiredTwice(f, a, b, firstA, RetiredFirst(f.epoch, firstA, end, b));
    RetiredTwice(f, b, a, firstB, RetiredFirst(f.epoch, firstB, end, a));
  }

  /** A cursor past the retired prefix drains the same writes from what is left. */
  lemma {:induction false} DrainIgnoresRetired<K(!new)>(node: NodeId, o: Outcome<K>, f: Frame, token: WriteToken,
                                                        until: nat, decode: Bytes -> Option<K>)
    requires Numbered(f) && Retired(f, token).firstSeq <= o.cursor.next && until <= Max(o.cursor.next, End(f))
    ensures Drained(node, o, Retired(f, token), until, decode) == Drained(node, o, f, until, decode)
    decreases until
  {
    if until > o.cursor.next {
      DrainIgnoresRetired(node, o, f, token, until - 1, decode);
    }
  }

  /** The subscriber has everything `token` retires: the token is of another life or behind the cursor. */
  predicate Past(c: Cursor, f: Frame, token: WriteToken) {
    token.epoch == f.epoch ==> Before(token, Position(c))
  }

  lemma {:induction false} ReconcileIgnoresRetired<K(!new)>(node: NodeId, o: Outcome<K>, f: Frame, token: WriteToken,
                                                            decode: Bytes -> Option<K>)
    requires Past(o.cursor, f, token) && Numbered(f)
    ensures Reconciled(node, o, Retired(f, token), decode) == Reconciled(node, o, f, decode)
  {
    var r := Retired(f, token);
    if r.firstSeq == f.firstSeq {
      assert r == f;
    } else if !Stale(o.cursor, f) {
      assert r.firstSeq <= o.cursor.next;
      assert Enter(node, o, f) == o && Enter(node, o, r) == o;
      DrainIgnoresRetired(node, o, f, token, Max(o.cursor.next, End(f)), decode);
    }
  }

  predicate AllNumbered(frames: seq<Frame>) {
    forall i :: 0 <= i < |frames| ==> Numbered(frames[i])
  }

  /** The frames a ring advertises if it retires through one more token before each. */
  function AllRetired(frames: seq<Frame>, tokens: seq<WriteToken>): seq<Frame>
    requires |tokens| == |frames| && AllNumbered(frames)
  {
    if frames == [] then []
    else
      var n := |frames| - 1;
      AllRetired(frames[..n], tokens[..n]) + [Retired(frames[n], tokens[n])]
  }

  /**
   A subscriber that has moved past every token by the time a frame without its prefix arrives
   gets from the retired frames exactly the events of the unretired ones, with no gap added.
   */
  lemma {:induction false} RetirementCostsNobodyPastIt<K(!new)>(h: History, decode: Bytes -> Option<K>, node: NodeId, start: Cursor,
                                                                frames: seq<Frame>, tokens: seq<WriteToken>)
    requires AtLife(h, start) && AllGenuine(h, frames) && AllNumbered(frames) && |tokens| == |frames|
    requires forall k :: 0 <= k < |frames| ==> Past(Latest(start, frames[..k]), frames[k], tokens[k])
    ensures Delivered(node, start, AllRetired(frames, tokens), decode) == Delivered(node, start, frames, decode)
  {
    if frames != [] {
      var n := |frames| - 1;
      var front := frames[..n];
      assert forall k :: 0 <= k < n ==> front[..k] == frames[..k] && front[k] == frames[k];
      RetirementCostsNobodyPastIt(h, decode, node, start, front, tokens[..n]);
      var retired := AllRetired(frames, tokens);
      assert retired[..|retired| - 1] == AllRetired(front, tokens[..n]);
      DeliveryStandsAtLatest(h, decode, node, start, front);
      ReconcileIgnoresRetired(node, Delivered(node, start, front, decode), frames[n], tokens[n], decode);
    }
  }
}
