/** Where a receiving endpoint's acknowledgements come from, and which it never fails to send. */
module MessagingCauses {
  import opened Common
  import opened Receipts
  import opened Received
  import opened MessagingRuns
  import opened MessagingSafety

  // ---- Every verdict has a cause ----

  /** The application said so itself, or nobody decided in time. */
  ghost predicate Caused(actions: seq<Action>, g: nat, outcome: Outcome) {
    || outcome == WasRejected(Interrupted)
    || exists i :: 0 <= i < |actions| && actions[i].Act? && actions[i].record == g && actions[i].action == outcome
  }

  ghost predicate AllCaused(actions: seq<Action>, w: World) {
    && (forall g :: 0 <= g < |w.cells| && w.cells[g].cell.state.outcome.Some? ==> Caused(actions, g, w.cells[g].cell.state.outcome.value))
    && (forall i :: 0 <= i < |w.log| && w.log[i].Acked? ==> Caused(actions, w.log[i].record, w.log[i].outcome))
  }

  lemma {:induction false} CausesStay(actions: seq<Action>, longer: seq<Action>, g: nat, outcome: Outcome)
    requires actions <= longer && Caused(actions, g, outcome)
    ensures Caused(longer, g, outcome)
  {
    if outcome != WasRejected(Interrupted) {
      var i :| 0 <= i < |actions| && actions[i].Act? && actions[i].record == g && actions[i].action == outcome;
      assert longer[i] == actions[i];
    }
  }

  lemma {:induction false} AllCausesStay(actions: seq<Action>, longer: seq<Action>, w: World)
    requires actions <= longer && AllCaused(actions, w)
    ensures AllCaused(longer, w)
  {
    forall g | 0 <= g < |w.cells| && w.cells[g].cell.state.outcome.Some? ensures Caused(longer, g, w.cells[g].cell.state.outcome.value) {
      CausesStay(actions, longer, g, w.cells[g].cell.state.outcome.value);
    }
    forall i | 0 <= i < |w.log| && w.log[i].Acked? ensures Caused(longer, w.log[i].record, w.log[i].outcome) {
      CausesStay(actions, longer, w.log[i].record, w.log[i].outcome);
    }
  }

  lemma {:induction false} SweepKeepsCaused(actions: seq<Action>, w: World, at: u64)
    requires WellFormed(w) && AllCaused(actions, w)
    ensures AllCaused(actions, AfterSweep(w, at))
  {
    var r := AfterSweep(w, at);
    forall g | 0 <= g < |r.cells| && r.cells[g].cell.state.outcome.Some? ensures Caused(actions, g, r.cells[g].cell.state.outcome.value) {
      assert r.cells[g] == SweptCell(w, g, at);
    }
  }

  /** Record `g` moves to a state whose outcome is accounted for, saying no other. */
  lemma {:induction false} ChangeKeepsCaused(actions: seq<Action>, w: World, r: World, g: nat, s: ReceiptState, more: seq<Entry>)
    requires g < |w.cells| && AllCaused(actions, w)
    requires r.cells == WithState(w, g, s) && r.log == w.log + more
    requires s.outcome.Some? ==> Caused(actions, g, s.outcome.value)
    requires forall i :: 0 <= i < |more| && more[i].Acked? ==> more[i].record == g && s.outcome == Some(more[i].outcome)
    ensures AllCaused(actions, r)
  {
    forall i | 0 <= i < |r.log| && r.log[i].Acked? ensures Caused(actions, r.log[i].record, r.log[i].outcome) {
      if i < |w.log| {
        assert r.log[i] == w.log[i];
      } else {
        assert r.log[i] == more[i - |w.log|];
      }
    }
  }

  lemma {:induction false} MeetKeepsCaused(actions: seq<Action>, p: Limits, w: World, key: Key, meta: Meta)
    requires WellFormed(w) && AllCaused(actions, w)
    ensures AllCaused(actions, Meet(p, w, key, meta))
  {
    var r := Meet(p, w, key, meta);
    if !Admits(p, w, key) && key in w.table && w.cells[w.table[key]].cell.meta == meta {
      var g := w.table[key];
      var s := Refreshed(w.cells[g].cell.state, w.clock);
      var arrived := [Arrived(key, meta, w.clock, None)];
      assert w.log + arrived + Ack(key, g, s.outcome) == w.log + (arrived + Ack(key, g, s.outcome));
      ChangeKeepsCaused(actions, w, r, g, s, arrived + Ack(key, g, s.outcome));
    }
  }

  lemma {:induction false} NextKeepsCaused(actions: seq<Action>, p: Limits, w: World, a: Action)
    requires WellFormed(w) && Enabled(w, a) && AllCaused(actions, w)
    ensures AllCaused(actions + [a], Next(p, w, a))
  {
    var longer := actions + [a];
    AllCausesStay(actions, longer, w);
    match a
    case Sweep(at) => SweepKeepsCaused(longer, w, at);
    case Arrive(key, meta, payloadLen, _) =>
      if Acceptable(p, meta, payloadLen) {
        MeetKeepsCaused(longer, p, w, key, meta);
      }
    case Act(g, action, read) =>
      var (s, ack) := Handled(w.cells[g].cell.state, action, read);
      assert longer[|actions|] == a;
      ChangeKeepsCaused(longer, w, Next(p, w, a), g, s, Ack(w.cells[g].key, g, ack));
  }

  /** Over every run, whatever an endpoint acknowledges was said by the application, or is an interruption. */
  lemma {:induction false} VerdictsAreCaused(p: Limits, actions: seq<Action>)
    requires Runs(p, actions)
    ensures AllCaused(actions, After(p, actions))
  {
    if actions != [] {
      var front, a := actions[..|actions| - 1], actions[|actions| - 1];
      VerdictsAreCaused(p, front);
      NextKeepsCaused(front, p, After(p, front), a);
      assert front + [a] == actions;
    }
  }

  // ---- What is never left unsaid ----

  /**
   The first word on an undecided record in time is recorded and acknowledged; later words on a decided
   record, and words that come too late, are not.
   */
  lemma {:induction false} FirstWordCounts(p: Limits, w: World, g: nat, action: Outcome, read: u64)
    requires Sound(p, w) && Enabled(w, Act(g, action, read))
    ensures var s := w.cells[g].cell.state;
            var r := Next(p, w, Act(g, action, read));
            if Terminal(s) then r == w
            else if read < s.retainUntil then
              && r.cells[g].cell.state == s.(outcome := Some(action), retainUntil := SatAdd(read, p.retentionMs))
              && r.log == w.log + [Acked(w.cells[g].key, g, action)]
            else r.cells[g].cell.state.outcome == Some(WasRejected(Interrupted)) && r.log == w.log
  {
    assert SoundCell(p, w, g);
    var s := w.cells[g].cell.state;
    if Terminal(s) {
      assert WithState(w, g, s) == w.cells;
      assert w.log + [] == w.log;
    }
  }

  /** While a decided record is kept, every retry of its frame is answered with its verdict, and handed on to nobody. */
  lemma {:induction false} RetryIsAnswered(p: Limits, w: World, key: Key, payloadLen: nat, at: u64)
    requires Sound(p, w) && key in w.table && w.clock <= at
    requires var c := w.cells[w.table[key]].cell; Terminal(c.state) && at < c.state.retainUntil && Acceptable(p, c.meta, payloadLen)
    ensures var g := w.table[key];
            var arrive := Arrive(key, w.cells[g].cell.meta, payloadLen, at);
            && Enabled(w, Sweep(at)) && Enabled(Next(p, w, Sweep(at)), arrive)
            && Next(p, Next(p, w, Sweep(at)), arrive).log
               == w.log + [Arrived(key, w.cells[g].cell.meta, at, None), Acked(key, g, w.cells[g].cell.state.outcome.value)]
  {
    var g := w.table[key];
    var c := w.cells[g].cell;
    var swept := AfterSweep(w, at);
    assert Live(w, g) && swept.cells[g] == SweptCell(w, g, at);
    assert key in swept.table && swept.cells[g].cell.state == c.state && swept.cells[g].cell.meta == c.meta;
    var arrived, acked := Arrived(key, c.meta, at, None), Acked(key, g, c.state.outcome.value);
    assert w.log + [arrived] + [acked] == w.log + [arrived, acked];
  }

  /** A frame beyond the endpoint's limits, and one without an acknowledgement to track, leaves no trace here. */
  lemma {:induction false} FramesBeyondLimitsLeaveNoTrace(p: Limits, w: World, a: Action)
    requires WellFormed(w) && Enabled(w, a) && a.Arrive?
    requires p.maxPayload < a.payloadLen || p.maxTimeoutMs < a.meta.horizonMs || a.meta.delivery == BestEffort
    ensures Next(p, w, a) == w
  {
  }

  /** A known identity under another body, and an unknown one without room, change nothing and are answered with nothing. */
  lemma {:induction false} UnwelcomeFramesChangeNothing(p: Limits, w: World, key: Key, meta: Meta)
    requires WellFormed(w)
    requires if key in w.table then w.cells[w.table[key]].cell.meta != meta else p.capacity <= |w.table.Keys|
    ensures Meet(p, w, key, meta) == w.(log := w.log + [Arrived(key, meta, w.clock, None)])
  {
  }

  // ---- Room ----

  lemma {:induction false} NextKeepsRoom(p: Limits, w: World, a: Action)
    requires WellFormed(w) && Enabled(w, a) && |w.table.Keys| <= p.capacity
    ensures |Next(p, w, a).table.Keys| <= p.capacity
  {
    var r := Next(p, w, a);
    match a
    case Sweep(_) => SubsetIsNoLarger(r.table.Keys, w.table.Keys);
    case Arrive(key, meta, payloadLen, _) =>
      if Acceptable(p, meta, payloadLen) && Admits(p, w, key) {
        assert r.table.Keys == w.table.Keys + {key};
      }
    case Act(_, _, _) =>
  }

  /** Over every run an endpoint keeps at most `capacity` records. */
  lemma {:induction false} RecordsAreBounded(p: Limits, actions: seq<Action>)
    requires Runs(p, actions)
    ensures |After(p, actions).table.Keys| <= p.capacity
  {
    if actions != [] {
      var front := actions[..|actions| - 1];
      RecordsAreBounded(p, front);
      NextKeepsRoom(p, After(p, front), actions[|actions| - 1]);
    }
  }
}
