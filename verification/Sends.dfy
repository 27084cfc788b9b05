/** The sending half: outstanding acknowledged sends, and what their acknowledgements can tell them. */
module Sends {
  import opened Common
  import opened Receipts
  import opened Received
  import opened MessagingRuns
  import opened MessagingSafety
  import opened MessagingCauses
  import opened MessagingExact

  datatype Pending = Pending(peer: NodeId, delivery: Delivery)

  datatype SendResult = Succeeded | Failed(reason: Rejection)

  function ResultOf(outcome: Outcome): SendResult {
    match outcome
    case WasAccepted => Succeeded
    case WasApplied => Succeeded
    case WasRejected(reason) => Failed(reason)
  }

  /** Whether an acknowledgement settles an outstanding send: right peer, right identity, decisive outcome. */
  predicate Settles(pending: map<Bytes, Pending>, from: NodeId, id: Bytes, outcome: Outcome) {
    id in pending && pending[id].peer == from && Completes(pending[id].delivery, outcome)
  }

  class Outstanding {
    var pending: map<Bytes, Pending>

    constructor ()
      ensures pending == map[]
    {
      pending := map[];
    }

    /** Takes one of the bounded outstanding slots; identities are never reused. */
    method Reserve(id: Bytes, peer: NodeId, delivery: Delivery, limit: nat) returns (ok: bool)
      requires id !in pending
      modifies this
      ensures ok == (|old(pending)| < limit)
      ensures pending == if ok then old(pending)[id := Pending(peer, delivery)] else old(pending)
    {
      if |pending| >= limit {
        return false;
      }
      pending := pending[id := Pending(peer, delivery)];
      return true;
    }

    /** A settling acknowledgement resolves its send and frees the slot, so none is resolved twice. */
    method Acknowledge(from: NodeId, id: Bytes, outcome: Outcome) returns (result: Option<SendResult>)
      modifies this
      ensures result == if Settles(old(pending), from, id, outcome) then Some(ResultOf(outcome)) else None
      ensures pending == if result.Some? then old(pending) - {id} else old(pending)
      ensures result.Some? <==> && id in old(pending) && old(pending)[id].peer == from
                                && (old(pending)[id].delivery == Delivered || outcome != WasAccepted)
      ensures result.Some? ==> (result.value == Succeeded <==> outcome == WasAccepted || outcome == WasApplied)
      ensures forall r :: result == Some(Failed(r)) ==> outcome == WasRejected(r)
    {
      if id !in pending {
        return None;
      }
      if pending[id].peer != from || !Completes(pending[id].delivery, outcome) {
        return None;
      }
      pending := pending - {id};
      return Some(ResultOf(outcome));
    }

    /** The send ended, for whatever reason. */
    method Release(id: Bytes)
      modifies this
      ensures pending == old(pending) - {id}
    {
      pending := pending - {id};
    }
  }

  // ---- Every hand-off made one record ----

  function RecordsUpTo(cells: seq<Held>, n: nat, key: Key): nat
    requires n <= |cells|
  {
    if n == 0 then 0 else RecordsUpTo(cells, n - 1, key) + if cells[n - 1].key == key then 1 else 0
  }

  /** How many records an identity ever had. */
  function RecordsOf(cells: seq<Held>, key: Key): nat {
    RecordsUpTo(cells, |cells|, key)
  }

  predicate SameKeys(a: seq<Held>, b: seq<Held>) {
    |a| <= |b| && forall g :: 0 <= g < |a| ==> a[g].key == b[g].key && a[g].cell.meta == b[g].cell.meta
  }

  lemma {:induction false} SameKeysSameRecords(a: seq<Held>, b: seq<Held>, n: nat, key: Key)
    requires SameKeys(a, b) && n <= |a|
    ensures RecordsUpTo(a, n, key) == RecordsUpTo(b, n, key)
  {
    if n > 0 {
      SameKeysSameRecords(a, b, n - 1, key);
    }
  }

  lemma {:induction false} TwoRecordsAreCounted(cells: seq<Held>, key: Key, g: nat, h: nat, n: nat)
    requires g < h < |cells| && cells[g].key == cells[h].key == key && n <= |cells|
    ensures RecordsUpTo(cells, n, key) >= (if g < n then 1 else 0) + (if h < n then 1 else 0)
  {
    if n > 0 {
      TwoRecordsAreCounted(cells, key, g, h, n - 1);
    }
  }

  /** One record per hand-off, each of the frame that arrived. */
  ghost predicate Matched(w: World, key: Key, meta: Meta) {
    && RecordsOf(w.cells, key) == HandOffs(w.log, key)
    && forall g :: 0 <= g < |w.cells| && w.cells[g].key == key ==> w.cells[g].cell.meta == meta
  }

  lemma {:induction false} MeetKeepsMatched(p: Limits, w: World, k: Key, its: Meta, key: Key, meta: Meta)
    requires WellFormed(w) && Matched(w, key, meta) && (k == key ==> its == meta)
    ensures Matched(Meet(p, w, k, its), key, meta)
  {
    var r := Meet(p, w, k, its);
    MeetHandOffs(p, w, k, its, key);
    SameKeysSameRecords(w.cells, r.cells, |w.cells|, key);
  }

  lemma {:induction false} NextKeepsMatched(p: Limits, w: World, a: Action, key: Key, meta: Meta)
    requires WellFormed(w) && Enabled(w, a) && Matched(w, key, meta)
    requires a.Arrive? && a.key == key ==> a.meta == meta
    ensures Matched(Next(p, w, a), key, meta)
  {
    match a
    case Arrive(k, its, payloadLen, _) =>
      MeetKeepsMatched(p, w, k, its, key, meta);
    case Sweep(at) =>
      var s := AfterSweep(w, at);
      assert SameKeys(w.cells, s.cells) by {
        forall g | 0 <= g < |w.cells| ensures s.cells[g] == SweptCell(w, g, at) {
        }
      }
      SameKeysSameRecords(w.cells, s.cells, |w.cells|, key);
    case Act(g, action, read) =>
      var (s, ack) := Handled(w.cells[g].cell.state, action, read);
      AckHandsNothingOn(w.log, w.cells[g].key, g, ack, key);
      SameKeysSameRecords(w.cells, Next(p, w, a).cells, |w.cells|, key);
  }

  lemma {:induction false} RunKeepsMatched(p: Limits, actions: seq<Action>, key: Key, meta: Meta)
    requires Runs(p, actions) && Uniform(p, actions, key, meta)
    ensures Matched(After(p, actions), key, meta)
  {
    if actions != [] {
      var front := actions[..|actions| - 1];
      RunKeepsMatched(p, front, key, meta);
      NextKeepsMatched(p, After(p, front), actions[|actions| - 1], key, meta);
    }
  }

  /** Under either of these conditions on a run no identity is handed on twice. */
  predicate HandedOnOnce(p: Limits, actions: seq<Action>, key: Key) {
    var ts := Times(actions, key);
    Within(ts, p.retentionMs) || (Prompt(actions) && ShortGaps(ts, p.retentionMs))
  }

  /** Two of the receiver's records are never of one send. */
  lemma {:induction false} SendHasOneRecord(p: Limits, actions: seq<Action>, key: Key, meta: Meta, g: nat, h: nat)
    requires Runs(p, actions) && Uniform(p, actions, key, meta) && HandedOnOnce(p, actions, key)
    requires g < |After(p, actions).cells| && h < |After(p, actions).cells|
    requires After(p, actions).cells[g].key == key && After(p, actions).cells[h].key == key
    ensures g == h && After(p, actions).cells[g].cell.meta == meta
  {
    var w := After(p, actions);
    if Within(Times(actions, key), p.retentionMs) {
      WithinHandsOnOnce(p, actions, key);
    } else {
      ShortGapsHandOnOnce(p, actions, key, meta);
    }
    RunKeepsMatched(p, actions, key, meta);
    if g != h {
      TwoRecordsAreCounted(w.cells, key, if g < h then g else h, if g < h then h else g, |w.cells|);
      assert false;
    }
  }

  /**
   Over every run that hands a send's frame on at most once, all of the receiver's acknowledgements
   that could settle the send settle it the same way, and an `Applied` send succeeds only if the
   receiver recorded `Applied`.
   */
  lemma {:induction false} SendSeesOneVerdict(p: Limits, actions: seq<Action>, key: Key, meta: Meta, me: Pending,
                                              i: nat, j: nat)
    requires Runs(p, actions) && Uniform(p, actions, key, meta) && HandedOnOnce(p, actions, key)
    requires me.delivery == meta.delivery
    requires i <= j < |After(p, actions).log| && After(p, actions).log[i].Acked? && After(p, actions).log[j].Acked?
    requires After(p, actions).log[i].key == key && After(p, actions).log[j].key == key
    requires Settles(map[key.id := me], me.peer, key.id, After(p, actions).log[i].outcome)
    requires Settles(map[key.id := me], me.peer, key.id, After(p, actions).log[j].outcome)
    ensures var w := After(p, actions);
            var g := w.log[i].record;
            && ResultOf(w.log[i].outcome) == ResultOf(w.log[j].outcome)
            && g < |w.cells| && w.cells[g].key == key && w.cells[g].cell.state.outcome == Some(w.log[i].outcome)
            && (meta.delivery == Applied && ResultOf(w.log[i].outcome) == Succeeded
                ==> w.cells[g].cell.state.outcome == Some(WasApplied))
  {
    var w := After(p, actions);
    RunKeepsSafe(p, actions);
    assert Agrees(w, w.log[i]) && Agrees(w, w.log[j]);
    SendHasOneRecord(p, actions, key, meta, w.log[i].record, w.log[j].record);
  }

  /** Over every run, an acknowledgement that lets an `Applied` send succeed goes back to the application's own word on that record. */
  lemma {:induction false} SuccessWasSaid(p: Limits, actions: seq<Action>, key: Key, me: Pending, i: nat) returns (k: nat)
    requires Runs(p, actions) && me.delivery == Applied
    requires i < |After(p, actions).log| && After(p, actions).log[i].Acked? && After(p, actions).log[i].key == key
    requires Settles(map[key.id := me], me.peer, key.id, After(p, actions).log[i].outcome)
    requires ResultOf(After(p, actions).log[i].outcome) == Succeeded
    ensures var g := After(p, actions).log[i].record;
            && g < |After(p, actions).cells| && After(p, actions).cells[g].key == key
            && k < |actions| && actions[k].Act? && actions[k].record == g && actions[k].action == WasApplied
  {
    var e := After(p, actions).log[i];
    RunKeepsSafe(p, actions);
    assert Agrees(After(p, actions), e);
    VerdictsAreCaused(p, actions);
    assert Caused(actions, e.record, e.outcome);
    k :| 0 <= k < |actions| && actions[k].Act? && actions[k].record == e.record && actions[k].action == e.outcome;
  }
}
