/** Hand-off at most once and one verdict per record, over every run of a receiving endpoint. */
module MessagingSafety {
  import opened Common
  import opened Receipts
  import opened Received
  import opened MessagingRuns

  /**
   A record is kept for a whole retention window after its admission, whatever instants its refreshes
   used, and it left the table only with its outcome decided.
   */
  ghost predicate SoundCell(p: Limits, w: World, g: nat)
    requires g < |w.cells|
  {
    var c := w.cells[g].cell;
    && c.state.retentionMs == p.retentionMs
    && c.state.delivery == c.meta.delivery != BestEffort
    && w.cells[g].since <= w.clock
    && SatAdd(w.cells[g].since, p.retentionMs) <= c.state.retainUntil
    && (Live(w, g) || (Terminal(c.state) && SatAdd(w.cells[g].since, p.retentionMs) <= w.clock))
  }

  ghost predicate Sound(p: Limits, w: World) {
    WellFormed(w) && forall g :: 0 <= g < |w.cells| ==> SoundCell(p, w, g)
  }

  /** A frame that was handed on got a record of its own at that instant. */
  ghost predicate Kept(w: World, e: Entry) {
    e.Arrived? && e.admitted.Some? ==>
      var g := e.admitted.value;
      g < |w.cells| && w.cells[g].key == e.key && w.cells[g].since == e.at
  }

  /** The acknowledgement agrees with what its record holds, if it decides a send. */
  ghost predicate Agrees(w: World, e: Entry) {
    e.Acked? ==>
      && e.record < |w.cells| && w.cells[e.record].key == e.key
      && (Completes(w.cells[e.record].cell.meta.delivery, e.outcome) ==> w.cells[e.record].cell.state.outcome == Some(e.outcome))
  }

  ghost predicate Told(w: World) {
    forall i :: 0 <= i < |w.log| ==> Kept(w, w.log[i]) && Agrees(w, w.log[i])
  }

  predicate SameAdmission(a: Entry, b: Entry) {
    a.Arrived? && b.Arrived? && a.admitted.Some? && b.admitted.Some? && a.key == b.key
  }

  /** Two hand-offs of one identity lie at least a retention window apart. */
  ghost predicate Spaced(p: Limits, w: World) {
    forall i, j :: 0 <= i < j < |w.log| && SameAdmission(w.log[i], w.log[j]) ==> SatAdd(w.log[i].at, p.retentionMs) <= w.log[j].at
  }

  /** After an acknowledgement that decides a send, its record sends no other. */
  ghost predicate Final(w: World) {
    forall i, j :: 0 <= i < j < |w.log| && w.log[i].Acked? && w.log[j].Acked? && w.log[i].record == w.log[j].record
                   && w.log[i].record < |w.cells| && Completes(w.cells[w.log[i].record].cell.meta.delivery, w.log[i].outcome)
                   ==> w.log[j].outcome == w.log[i].outcome
  }

  ghost predicate Safe(p: Limits, w: World) {
    Sound(p, w) && Told(w) && Spaced(p, w) && Final(w)
  }

  // ---- Sweeping ----

  lemma {:induction false} SweepKeepsSound(p: Limits, w: World, now: u64)
    requires Sound(p, w) && w.clock <= now
    ensures Sound(p, AfterSweep(w, now))
  {
    var r := AfterSweep(w, now);
    forall g | 0 <= g < |r.cells| ensures SoundCell(p, r, g) {
      assert SoundCell(p, w, g) && r.cells[g] == SweptCell(w, g, now);
      DeadlineStaysAhead(w.cells[g].cell.state, WasAccepted, now, SatAdd(w.cells[g].since, p.retentionMs));
    }
  }

  lemma {:induction false} SweepKeepsTold(p: Limits, w: World, now: u64)
    requires Sound(p, w) && Told(w) && w.clock <= now
    ensures Told(AfterSweep(w, now))
  {
    var r := AfterSweep(w, now);
    forall i | 0 <= i < |r.log| ensures Kept(r, r.log[i]) && Agrees(r, r.log[i]) {
      var e := w.log[i];
      assert Kept(w, e) && Agrees(w, e);
      var g := if e.Acked? then e.record else if e.admitted.Some? then e.admitted.value else 0;
      if g < |w.cells| {
        assert SoundCell(p, w, g) && r.cells[g] == SweptCell(w, g, now);
      }
    }
  }

  // ---- One record changes ----

  /** Record `g` moves to `s`, saying `said`; the rest stays. */
  ghost predicate Changes(p: Limits, w: World, r: World, g: nat, s: ReceiptState, said: Option<Outcome>) {
    && g < |w.cells| && r.table == w.table && w.clock <= r.clock
    && r.cells == WithState(w, g, s)
    && s.retentionMs == p.retentionMs && s.delivery == w.cells[g].cell.meta.delivery
    && SatAdd(w.cells[g].since, p.retentionMs) <= s.retainUntil
    && (Terminal(w.cells[g].cell.state) ==> Terminal(s) && s.outcome == w.cells[g].cell.state.outcome)
    && (said.Some? ==> s.outcome == said)
  }

  lemma {:induction false} ChangeKeepsSound(p: Limits, w: World, r: World, g: nat, s: ReceiptState, said: Option<Outcome>)
    requires Sound(p, w) && Changes(p, w, r, g, s, said)
    ensures Sound(p, r)
  {
    forall h | 0 <= h < |r.cells| ensures SoundCell(p, r, h) {
      assert SoundCell(p, w, h);
    }
  }

  lemma {:induction false} ChangeKeepsEntry(p: Limits, w: World, r: World, g: nat, s: ReceiptState,
                                            said: Option<Outcome>, e: Entry)
    requires Sound(p, w) && Changes(p, w, r, g, s, said) && Kept(w, e) && Agrees(w, e)
    ensures Kept(r, e) && Agrees(r, e)
  {
    if e.Acked? && Completes(w.cells[e.record].cell.meta.delivery, e.outcome) {
      assert SoundCell(p, w, e.record);
      CompletesIffTerminal(w.cells[e.record].cell.state);
    }
  }

  /** What a record says now is what it said when it decided. */
  lemma {:induction false} ChangeSaysTheSame(p: Limits, w: World, r: World, g: nat, s: ReceiptState,
                                             said: Option<Outcome>, e: Entry)
    requires Sound(p, w) && Changes(p, w, r, g, s, said) && said.Some?
    requires e.Acked? && e.record == g && Agrees(w, e) && Completes(w.cells[g].cell.meta.delivery, e.outcome)
    ensures said.value == e.outcome
  {
    assert SoundCell(p, w, g);
    CompletesIffTerminal(w.cells[g].cell.state);
  }

  /** Old entries stay; every new one is quiet, or is record `g` saying `said`. */
  ghost predicate Extends(w: World, r: World, g: nat, said: Option<Outcome>) {
    && |w.log| <= |r.log|
    && (forall i :: 0 <= i < |w.log| ==> r.log[i] == w.log[i])
    && (forall i :: |w.log| <= i < |r.log| ==> NewEntry(w, r.log[i], g, said))
  }

  predicate NewEntry(w: World, e: Entry, g: nat, said: Option<Outcome>) {
    if e.Arrived? then e.admitted.None?
    else said == Some(e.outcome) && e.record == g && g < |w.cells| && e.key == w.cells[g].key
  }

  lemma {:induction false} ChangeKeepsTold(p: Limits, w: World, r: World, g: nat, s: ReceiptState, said: Option<Outcome>)
    requires Sound(p, w) && Told(w) && Changes(p, w, r, g, s, said) && Extends(w, r, g, said)
    ensures Told(r)
  {
    forall i | 0 <= i < |r.log| ensures Kept(r, r.log[i]) && Agrees(r, r.log[i]) {
      if i < |w.log| {
        ChangeKeepsEntry(p, w, r, g, s, said, w.log[i]);
      } else {
        assert NewEntry(w, r.log[i], g, said);
      }
    }
  }

  lemma {:induction false} ChangeKeepsOrder(p: Limits, w: World, r: World, g: nat, s: ReceiptState, said: Option<Outcome>)
    requires Safe(p, w) && Changes(p, w, r, g, s, said) && Extends(w, r, g, said)
    ensures Spaced(p, r) && Final(r)
  {
    forall i | |w.log| <= i < |r.log| ensures NewEntry(w, r.log[i], g, said) {
    }
    forall i, j | 0 <= i < j < |r.log| && r.log[i].Acked? && r.log[j].Acked? && r.log[i].record == r.log[j].record
                  && r.log[i].record < |r.cells| && Completes(r.cells[r.log[i].record].cell.meta.delivery, r.log[i].outcome)
      ensures r.log[j].outcome == r.log[i].outcome
    {
      if i < |w.log| <= j {
        assert Agrees(w, w.log[i]);
        ChangeSaysTheSame(p, w, r, g, s, said, w.log[i]);
      }
    }
  }

  lemma {:induction false} ChangeKeepsSafe(p: Limits, w: World, r: World, g: nat, s: ReceiptState, said: Option<Outcome>)
    requires Safe(p, w) && Changes(p, w, r, g, s, said) && Extends(w, r, g, said)
    ensures Safe(p, r)
  {
    ChangeKeepsSound(p, w, r, g, s, said);
    ChangeKeepsTold(p, w, r, g, s, said);
    ChangeKeepsOrder(p, w, r, g, s, said);
  }

  // ---- The steps ----

  lemma {:induction false} SweepKeepsSafe(p: Limits, w: World, now: u64)
    requires Safe(p, w) && w.clock <= now
    ensures Safe(p, AfterSweep(w, now))
  {
    SweepKeepsSound(p, w, now);
    SweepKeepsTold(p, w, now);
    var r := AfterSweep(w, now);
    forall g | 0 <= g < |r.cells| ensures r.cells[g].cell.meta == w.cells[g].cell.meta {
      assert r.cells[g] == SweptCell(w, g, now);
    }
  }

  /** Nothing is recorded, and only a quiet arrival is logged. */
  lemma {:induction false} QuietKeepsSafe(p: Limits, w: World, r: World, e: Entry)
    requires Safe(p, w) && r == w.(log := w.log + [e]) && e.Arrived? && e.admitted.None?
    ensures Safe(p, r)
  {
    forall g | 0 <= g < |r.cells| ensures SoundCell(p, r, g) {
      assert SoundCell(p, w, g);
    }
    forall i | 0 <= i < |r.log| ensures Kept(r, r.log[i]) && Agrees(r, r.log[i]) {
      if i < |w.log| {
        assert Kept(w, w.log[i]) && Agrees(w, w.log[i]);
      }
    }
  }

  /** An identity the swept table no longer knows was last handed on a whole window ago. */
  lemma {:induction false} AdmissionKeepsSafe(p: Limits, w: World, r: World, key: Key, meta: Meta)
    requires Safe(p, w) && key !in w.table && meta.delivery != BestEffort && r.clock == w.clock
    requires r.table == w.table[key := |w.cells|]
    requires r.cells == w.cells + [Held(key, w.clock, NewCell(meta, w.clock, p.retentionMs))]
    requires r.log == w.log + [Arrived(key, meta, w.clock, Some(|w.cells|))]
    ensures Safe(p, r)
  {
    forall g | 0 <= g < |r.cells| ensures SoundCell(p, r, g) {
      if g < |w.cells| {
        assert SoundCell(p, w, g);
      }
    }
    forall i | 0 <= i < |r.log| ensures Kept(r, r.log[i]) && Agrees(r, r.log[i]) {
      if i < |w.log| {
        assert Kept(w, w.log[i]) && Agrees(w, w.log[i]);
      }
    }
    forall i | 0 <= i < |w.log| && SameAdmission(w.log[i], r.log[|w.log|]) ensures SatAdd(w.log[i].at, p.retentionMs) <= w.clock {
      assert Kept(w, w.log[i]);
      assert SoundCell(p, w, w.log[i].admitted.value);
    }
    assert Final(r) by {
      forall i | 0 <= i < |w.log| ensures Agrees(w, w.log[i]) {
      }
    }
  }

  lemma {:induction false} MeetKeepsSafe(p: Limits, w: World, key: Key, meta: Meta)
    requires Safe(p, w) && meta.delivery != BestEffort
    ensures Safe(p, Meet(p, w, key, meta))
  {
    var r := Meet(p, w, key, meta);
    if Admits(p, w, key) {
      AdmissionKeepsSafe(p, w, r, key, meta);
    } else if key in w.table && w.cells[w.table[key]].cell.meta == meta {
      var g := w.table[key];
      var s := Refreshed(w.cells[g].cell.state, w.clock);
      assert SoundCell(p, w, g);
      ChangeKeepsSafe(p, w, r, g, s, s.outcome);
    } else {
      QuietKeepsSafe(p, w, r, Arrived(key, meta, w.clock, None));
    }
  }

  lemma {:induction false} NextKeepsSafe(p: Limits, w: World, a: Action)
    requires Safe(p, w) && Enabled(w, a)
    ensures Safe(p, Next(p, w, a))
  {
    var r := Next(p, w, a);
    match a
    case Sweep(at) => SweepKeepsSafe(p, w, at);
    case Arrive(key, meta, payloadLen, _) =>
      if Acceptable(p, meta, payloadLen) {
        MeetKeepsSafe(p, w, key, meta);
      }
    case Act(g, action, read) =>
      var (s, ack) := Handled(w.cells[g].cell.state, action, read);
      assert SoundCell(p, w, g);
      DeadlineStaysAhead(w.cells[g].cell.state, action, read, SatAdd(w.cells[g].since, p.retentionMs));
      ChangeKeepsSafe(p, w, r, g, s, ack);
  }

  lemma {:induction false} RunKeepsSafe(p: Limits, actions: seq<Action>)
    requires Runs(p, actions)
    ensures Safe(p, After(p, actions))
  {
    if actions != [] {
      RunKeepsSafe(p, actions[..|actions| - 1]);
      NextKeepsSafe(p, After(p, actions[..|actions| - 1]), actions[|actions| - 1]);
    }
  }

  /** Over every run, two hand-offs of one identity lie at least a retention window apart. */
  lemma {:induction false} HandOffsAreARetentionApart(p: Limits, actions: seq<Action>, i: nat, j: nat)
    requires Runs(p, actions)
    requires i < j < |After(p, actions).log| && SameAdmission(After(p, actions).log[i], After(p, actions).log[j])
    ensures SatAdd(After(p, actions).log[i].at, p.retentionMs) <= After(p, actions).log[j].at
  {
    RunKeepsSafe(p, actions);
  }

  /** When and how one attempt travelled. */
  datatype Attempt = Attempt(sentAt: nat, delay: nat)

  /**
   A sender retries within its horizon; delays that differ by less than what retention leaves
   over the horizon cannot get a frame handed on twice.
   */
  lemma {:induction false} RetriesAreHandedOnOnce(p: Limits, actions: seq<Action>, key: Key, start: nat,
                                                  horizonMs: nat, attempts: map<nat, Attempt>, i: nat, j: nat)
    requires Runs(p, actions) && horizonMs < p.retentionMs
    requires forall m :: m in attempts ==> start <= attempts[m].sentAt <= start + horizonMs
    requires forall m, n :: m in attempts && n in attempts ==> attempts[m].delay < attempts[n].delay + (p.retentionMs - horizonMs)
    requires forall m :: 0 <= m < |After(p, actions).log| && After(p, actions).log[m].Arrived? && After(p, actions).log[m].key == key
                         ==> m in attempts && After(p, actions).log[m].at == attempts[m].sentAt + attempts[m].delay < U64_MAX
    requires i < j < |After(p, actions).log| && After(p, actions).log[i].Arrived? && After(p, actions).log[i].key == key
    ensures !SameAdmission(After(p, actions).log[i], After(p, actions).log[j])
  {
    if SameAdmission(After(p, actions).log[i], After(p, actions).log[j]) {
      assert attempts[j].delay < attempts[i].delay + (p.retentionMs - horizonMs);
      HandOffsAreARetentionApart(p, actions, i, j);
      assert false;
    }
  }

  /**
   Over every run, once a record's acknowledgement decides a send, the record holds that outcome
   for good, and nothing it says afterwards differs.
   */
  lemma {:induction false} EachRecordHasOneVerdict(p: Limits, actions: seq<Action>, i: nat, j: nat)
    requires Runs(p, actions)
    requires i <= j < |After(p, actions).log| && After(p, actions).log[i].Acked? && After(p, actions).log[j].Acked?
    requires After(p, actions).log[i].record == After(p, actions).log[j].record
    ensures var w := After(p, actions);
            && w.log[i].record < |w.cells|
            && (Completes(w.cells[w.log[i].record].cell.meta.delivery, w.log[i].outcome)
                ==> w.log[j].outcome == w.log[i].outcome && w.cells[w.log[i].record].cell.state.outcome == Some(w.log[i].outcome))
  {
    RunKeepsSafe(p, actions);
    assert Agrees(After(p, actions), After(p, actions).log[i]);
  }
}
