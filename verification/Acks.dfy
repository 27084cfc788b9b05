/** Applied watermarks: the read barrier of a frontier and the write barrier of gossiped ledgers. */
module Acks {
  import opened Common
  import opened ByteCodec
  import opened FeedWire
  import opened Ids

  type Watermarks = map<NodeId, WriteToken>

  const ORIGIN := WriteToken(0, 0)

  function Lookup(m: Watermarks, writer: NodeId): Option<WriteToken> {
    if writer in m then Some(m[writer]) else None
  }

  /** Raises `peer`'s watermark to `token`; a lower token changes nothing. */
  function Raised(m: Watermarks, peer: NodeId, token: WriteToken): Watermarks {
    var entry := if peer in m then m[peer] else ORIGIN;
    m[peer := if Before(entry, token) then token else entry]
  }

  /** The read barrier: the watermark kept for `peer` is no lower than `token`. */
  predicate Reached(m: Watermarks, peer: NodeId, token: WriteToken) {
    peer in m && AtMost(token, m[peer])
  }

  class Frontier {
    var applied: Watermarks

    constructor ()
      ensures applied == map[]
    {
      applied := map[];
    }

    method Advance(peer: NodeId, token: WriteToken)
      modifies this
      ensures applied == Raised(old(applied), peer, token)
      ensures forall p, t :: Reached(old(applied), p, t) ==> Reached(applied, p, t)
    {
      if peer !in applied {
        applied := applied[peer := ORIGIN];
      }
      if Before(applied[peer], token) {
        applied := applied[peer := token];
      }
    }
  }

  // ---- The ledger's byte form ----

  /** One watermark, as the ledger lists it. */
  datatype Mark = Mark(writer: NodeId, token: WriteToken)

  /** Sequence numbers are machine words. */
  predicate FitsWire(x: Mark) {
    0 <= x.token.at <= U64_MAX
  }

  function PutMark(x: Mark): Bytes
    requires FitsWire(x)
  {
    PutBytes(x.writer) + PutU64(x.token.epoch) + PutU64(x.token.at)
  }

  predicate AllFit(list: seq<Mark>) {
    forall i :: 0 <= i < |list| ==> FitsWire(list[i])
  }

  function PutMarks(list: seq<Mark>): Bytes
    requires AllFit(list)
  {
    if list == [] then [] else PutMark(list[0]) + PutMarks(list[1..])
  }

  function GetMark(b: Bytes): (r: Option<Parsed<Mark>>)
    ensures r.Some? ==> |r.value.rest| < |b|
  {
    var name := GetBytes(b);
    if name.None? || |name.value.rest| < 16 then None
    else
      var rest := name.value.rest;
      Some(Parsed(Mark(name.value.value, WriteToken(GetU64(rest[..8]), GetU64(rest[8..16]))), rest[16..]))
  }

  /** The first mark of `writer` in a ledger's bytes; malformed bytes before it yield none. */
  function FirstMark(b: Bytes, writer: NodeId): Option<WriteToken>
    decreases |b|
  {
    if b == [] then None
    else
      var mark := GetMark(b);
      if mark.None? then None
      else if mark.value.value.writer == writer then Some(mark.value.value.token)
      else FirstMark(mark.value.rest, writer)
  }

  lemma {:induction false} MarkReadsBack(x: Mark, rest: Bytes)
    requires FitsWire(x) && |x.writer| <= U32_MAX
    ensures GetMark(PutMark(x) + rest) == Some(Parsed(x, rest))
  {
    var numbers := PutU64(x.token.epoch) + PutU64(x.token.at) + rest;
    assert PutMark(x) + rest == PutBytes(x.writer) + numbers;
    BytesReadBack(x.writer, numbers);
    U64ReadsBack(x.token.epoch);
    U64ReadsBack(x.token.at);
    assert numbers[..8] == PutU64(x.token.epoch) && numbers[8..16] == PutU64(x.token.at) && numbers[16..] == rest;
  }

  /** `list` is some iteration order of `m`. */
  predicate Lists(list: seq<Mark>, m: Watermarks) {
    && (forall i :: 0 <= i < |list| ==> list[i].writer in m && m[list[i].writer] == list[i].token)
    && (forall w :: w in m ==> exists i :: 0 <= i < |list| && list[i].writer == w)
  }

  /** The first mark of `writer` in a list. */
  function FirstIn(list: seq<Mark>, writer: NodeId): Option<WriteToken> {
    if list == [] then None
    else if list[0].writer == writer then Some(list[0].token)
    else FirstIn(list[1..], writer)
  }

  lemma {:induction false} FirstMarkOfList(list: seq<Mark>, writer: NodeId)
    requires AllFit(list) && forall i :: 0 <= i < |list| ==> |list[i].writer| <= U32_MAX
    ensures FirstMark(PutMarks(list), writer) == FirstIn(list, writer)
  {
    if list != [] {
      MarkReadsBack(list[0], PutMarks(list[1..]));
      FirstMarkOfList(list[1..], writer);
    }
  }

  lemma {:induction false} FirstInFinds(list: seq<Mark>, writer: NodeId)
    ensures FirstIn(list, writer).Some? <==> exists i :: 0 <= i < |list| && list[i].writer == writer
    ensures FirstIn(list, writer).Some? ==> Mark(writer, FirstIn(list, writer).value) in list
  {
    if list != [] && list[0].writer != writer {
      FirstInFinds(list[1..], writer);
      if i :| 0 <= i < |list| && list[i].writer == writer {
        assert list[1..][i - 1].writer == writer;
      }
    }
  }

  /** A ledger's bytes: every watermark, in whatever order the table iterates. */
  ghost predicate LedgerOf(b: Bytes, m: Watermarks) {
    exists list :: AllFit(list) && Lists(list, m) && b == PutMarks(list)
  }

  /** Every name's length fits its prefix. */
  predicate NamesFit(m: Watermarks) {
    forall w :: w in m ==> |w| <= U32_MAX
  }

  /** Whatever order the ledger was written in, a reader finds exactly each writer's watermark. */
  lemma {:induction false} LedgerReadsBack(b: Bytes, m: Watermarks, writer: NodeId)
    requires LedgerOf(b, m) && NamesFit(m)
    ensures FirstMark(b, writer) == Lookup(m, writer)
  {
    var list :| AllFit(list) && Lists(list, m) && b == PutMarks(list);
    FirstMarkOfList(list, writer);
    FirstInFinds(list, writer);
  }

  lemma {:induction false} PutMarksSnoc(list: seq<Mark>, x: Mark)
    requires AllFit(list) && FitsWire(x)
    ensures AllFit(list + [x]) && PutMarks(list + [x]) == PutMarks(list) + PutMark(x)
  {
    if list == [] {
      assert list + [x] == [x];
      assert [x][1..] == [];
    } else {
      PutMarksSnoc(list[1..], x);
      assert (list + [x])[1..] == list[1..] + [x];
      var head, tail, last := PutMark(list[0]), PutMarks(list[1..]), PutMark(x);
      assert PutMarks(list + [x]) == head + (tail + last);
      assert head + (tail + last) == head + tail + last;
    }
  }

  lemma {:induction false} ListsOneMore(list: seq<Mark>, m: Watermarks, w: NodeId, token: WriteToken)
    requires Lists(list, m) && w !in m
    ensures Lists(list + [Mark(w, token)], m[w := token])
  {
    var more := list + [Mark(w, token)];
    assert more[|list|].writer == w;
    forall v | v in m ensures exists i :: 0 <= i < |more| && more[i].writer == v {
      var i :| 0 <= i < |list| && list[i].writer == v;
      assert more[i].writer == v;
    }
  }

  /** One writer more, of those still to be written. */
  lemma {:induction false} LedgerGrows(list: seq<Mark>, m: Watermarks, rest: set<NodeId>, w: NodeId) returns (more: seq<Mark>)
    requires AllFit(list) && Lists(list, m - rest) && w in rest && w in m && FitsWire(Mark(w, m[w]))
    ensures AllFit(more) && Lists(more, m - (rest - {w})) && PutMarks(more) == PutMarks(list) + PutMark(Mark(w, m[w]))
  {
    more := list + [Mark(w, m[w])];
    PutMarksSnoc(list, Mark(w, m[w]));
    ListsOneMore(list, m - rest, w, m[w]);
    assert (m - rest)[w := m[w]] == m - (rest - {w});
  }

  predicate TokensFit(m: Watermarks) {
    forall w :: w in m ==> FitsWire(Mark(w, m[w]))
  }

  /** Writes the table out, one mark per writer. */
  method EncodeLedger(m: Watermarks) returns (out: Bytes)
    requires TokensFit(m)
    ensures LedgerOf(out, m)
  {
    out := [];
    ghost var list: seq<Mark> := [];
    var rest := m.Keys;
    while rest != {}
      invariant rest <= m.Keys && AllFit(list) && out == PutMarks(list) && Lists(list, m - rest)
      decreases |rest|
    {
      var w :| w in rest;
      list := LedgerGrows(list, m, rest, w);
      out := out + PutMark(Mark(w, m[w]));
      rest := rest - {w};
    }
    assert m - {} == m;
  }

  /** Scans a ledger's bytes for `writer`'s watermark. */
  method DecodeOne(b: Bytes, writer: NodeId) returns (r: Option<WriteToken>)
    ensures r == FirstMark(b, writer)
  {
    var rest := b;
    while rest != []
      invariant FirstMark(b, writer) == FirstMark(rest, writer)
      decreases |rest|
    {
      var mark := GetMark(rest);
      if mark.None? {
        return None;
      }
      if mark.value.value.writer == writer {
        return Some(mark.value.value.token);
      }
      rest := mark.value.rest;
    }
    r := None;
  }

  datatype Recorded = Advanced | Covered

  class AckLedger {
    var applied: Watermarks

    constructor ()
      ensures applied == map[]
    {
      applied := map[];
    }

    method Record(writer: NodeId, token: WriteToken) returns (r: Recorded)
      modifies this
      ensures applied == Raised(old(applied), writer, token)
      ensures r.Covered? <==> AtMost(token, if writer in old(applied) then old(applied)[writer] else ORIGIN)
    {
      if writer !in applied {
        applied := applied[writer := ORIGIN];
      }
      if AtMost(token, applied[writer]) {
        return Covered;
      }
      applied := applied[writer := token];
      return Advanced;
    }

    /** Records a token and, if that raised the watermark, returns the ledger to gossip. */
    method RecordAndPublish(writer: NodeId, token: WriteToken) returns (gossip: Option<Bytes>)
      requires TokensFit(applied) && 0 <= token.at <= U64_MAX
      modifies this
      ensures applied == Raised(old(applied), writer, token) && TokensFit(applied)
      ensures gossip.None? <==> AtMost(token, if writer in old(applied) then old(applied)[writer] else ORIGIN)
      ensures gossip.Some? ==> LedgerOf(gossip.value, applied)
    {
      var recorded := Record(writer, token);
      if recorded.Covered? {
        return None;
      }
      var bytes := EncodeLedger(applied);
      return Some(bytes);
    }
  }

  // ---- The roster wait ----

  /** The ledger bytes gossip currently shows for each member. */
  type View = map<NodeId, Bytes>

  function AppliedBy(view: View, member: NodeId, writer: NodeId): Option<WriteToken> {
    if member in view then FirstMark(view[member], writer) else None
  }

  predicate Acknowledged(view: View, member: NodeId, writer: NodeId, token: WriteToken) {
    var applied := AppliedBy(view, member, writer);
    applied.Some? && AtMost(token, applied.value)
  }

  /** A ledger shown for a member acknowledges exactly the tokens its table has reached, the last one included. */
  lemma {:induction false} ShownLedgerAcknowledgesIff(view: View, member: NodeId, m: Watermarks, writer: NodeId, token: WriteToken)
    requires member in view && LedgerOf(view[member], m) && NamesFit(m)
    ensures Acknowledged(view, member, writer, token) <==>
            writer in m && (token.epoch < m[writer].epoch || (token.epoch == m[writer].epoch && token.at <= m[writer].at))
  {
    LedgerReadsBack(view[member], m, writer);
  }

  datatype AckOutcome = AckOutcome(selected: seq<NodeId>, acknowledged: seq<NodeId>, missing: seq<NodeId>)

  /** The outcome splits the selection, in order, by whether gossip shows the acknowledgement. */
  ghost predicate Splits(o: AckOutcome, members: seq<NodeId>, view: View, writer: NodeId, token: WriteToken) {
    && o.selected == members
    && Increasing(o.acknowledged) && Increasing(o.missing)
    && (forall m :: m in o.acknowledged <==> m in members && Acknowledged(view, m, writer, token))
    && (forall m :: m in o.missing <==> m in members && !Acknowledged(view, m, writer, token))
  }

  /** Every one of the members is shown to have acknowledged. */
  predicate Complete(view: View, members: seq<NodeId>, writer: NodeId, token: WriteToken) {
    forall m :: m in members ==> Acknowledged(view, m, writer, token)
  }

  lemma {:induction false} IncreasingSnoc(s: seq<NodeId>, members: seq<NodeId>, i: nat)
    requires Increasing(members) && i < |members| && Increasing(s)
    requires forall m :: m in s ==> m in members[..i]
    ensures Increasing(s + [members[i]])
  {
    forall j, k | 0 <= j < k < |s + [members[i]]| ensures Less((s + [members[i]])[j], (s + [members[i]])[k]) {
      if k == |s| {
        assert s[j] in members[..i];
      }
    }
  }

  /** One evaluation of a fixed roster. */
  method CountRoster(view: View, members: seq<NodeId>, writer: NodeId, token: WriteToken) returns (o: AckOutcome)
    requires Increasing(members)
    ensures Splits(o, members, view, writer, token)
  {
    o := AckOutcome([], [], []);
    for i := 0 to |members|
      invariant Splits(o, members[..i], view, writer, token)
    {
      var member := members[i];
      assert members[..i + 1] == members[..i] + [member];
      var applied := None;
      if member in view {
        applied := DecodeOne(view[member], writer);
      }
      if applied.Some? && AtMost(token, applied.value) {
        IncreasingSnoc(o.acknowledged, members, i);
        o := o.(acknowledged := o.acknowledged + [member]);
      } else {
        IncreasingSnoc(o.missing, members, i);
        o := o.(missing := o.missing + [member]);
      }
      o := o.(selected := o.selected + [member]);
    }
    assert members[..|members|] == members;
  }

  /** Polls until the first view that makes the outcome complete, or the last one before the deadline. */
  method AppliedByRoster(views: seq<View>, roster: seq<NodeId>, writer: NodeId,
                         token: WriteToken) returns (o: AckOutcome, polls: nat)
    requires views != []
    ensures 1 <= polls <= |views|
    ensures Splits(o, o.selected, views[polls - 1], writer, token) && Increasing(o.selected)
    ensures forall m :: m in o.selected <==> m in roster && m != writer
    ensures o.missing == [] || polls == |views|
    ensures forall k :: 0 <= k < polls - 1 ==> !Complete(views[k], o.selected, writer, token)
  {
    var members: seq<NodeId> := [];
    for i := 0 to |roster|
      invariant forall m :: m in members <==> m in roster[..i] && m != writer
    {
      if roster[i] != writer {
        members := members + [roster[i]];
      }
      assert roster[..i + 1] == roster[..i] + [roster[i]];
    }
    assert roster[..|roster|] == roster;
    members := SortDedup(members);
    polls := 0;
    while true
      invariant polls < |views|
      invariant forall k :: 0 <= k < polls ==> !Complete(views[k], members, writer, token)
      decreases |views| - polls
    {
      o := CountRoster(views[polls], members, writer, token);
      polls := polls + 1;
      if o.missing == [] || polls == |views| {
        return;
      }
      assert o.missing[0] in o.missing;
    }
  }
}
