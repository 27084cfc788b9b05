/**
 What a claimant's rounds do: when they write, when they read, what they tell the engine, and how a
 renewal, a lost answer and a release end.
 */
module AnchorRounds {
  import opened Common
  import opened AnchorRules
  import opened AnchorClaimant
  import opened AnchorStore
  import opened AnchorRuns
  import opened AnchorTightness

  // ---- One round ----

  /** The engine shows `me` as the host of the very epoch it holds. */
  predicate ShownAsHost(me: NodeId, h: Held, lead: Leadership) {
    lead.epoch == h.epoch && lead.host == Some(me)
  }

  /** There is no hold left to keep: none at all, one overtaken, or one that ran out while the engine shows another host. */
  predicate HoldIsSpent(me: NodeId, c: Claimant, wall: u64, lead: Leadership) {
    || c.held.None?
    || lead.epoch > c.held.value.epoch
    || (!ShownAsHost(me, c.held.value, lead) && c.held.value.expiresAt <= wall)
  }

  /**
   A round writes exactly when the engine shows its node as host of the epoch it holds and at most half
   of the lease is left; it then writes that epoch, stamped one lease ahead, over its own version.
   */
  lemma {:induction false} RoundStoresIff(terms: AnchorTerms, me: NodeId, c: Claimant, hint: u64, t0: u64, wall: u64, lead: Leadership)
    ensures var request := BeginRound(terms, me, c, hint, t0, wall, lead).request;
            && (request.StoreRequest? <==>
                c.held.Some? && ShownAsHost(me, c.held.value, lead) && SatSub(c.held.value.expiresAt, wall) <= terms.ttl / 2)
            && (request.StoreRequest? ==>
                  request == StoreRequest(Matches(c.held.value.token), AnchorRecord(c.held.value.epoch, me, SatAdd(wall, terms.ttl))))
  {
  }

  /** A round reads the register exactly when its hold is spent and no yielded claim's retry instant is still ahead. */
  lemma {:induction false} RoundLoadsIff(terms: AnchorTerms, me: NodeId, c: Claimant, hint: u64, t0: u64, wall: u64, lead: Leadership)
    ensures BeginRound(terms, me, c, hint, t0, wall, lead).request.LoadRequest? <==>
            HoldIsSpent(me, c, wall, lead) && (c.retryAt.Some? ==> c.retryAt.value <= wall)
  {
  }

  /** A round keeps its hold exactly while it is not spent, and otherwise changes nothing but what it waits for. */
  lemma {:induction false} RoundKeepsHoldIff(terms: AnchorTerms, me: NodeId, c: Claimant, hint: u64, t0: u64, wall: u64, lead: Leadership)
    requires c.phase.Idle?
    ensures var s := BeginRound(terms, me, c, hint, t0, wall, lead);
            && s.fed == []
            && s.claimant.held == (if HoldIsSpent(me, c, wall, lead) then None else c.held)
            && s.claimant.retryAt == (if s.request.LoadRequest? then None else c.retryAt)
            && (match s.request
                case NoRequest => s.claimant.phase == Idle
                case LoadRequest => s.claimant.phase == Claiming(hint, t0, wall)
                case StoreRequest(_, record) => s.claimant.phase == Writing(record, t0, true))
  {
  }

  // ---- One answer ----

  predicate Shows(loaded: LoadResult, record: AnchorRecord) {
    loaded.Read? && loaded.entry.Some? && loaded.entry.value.record == record
  }

  /**
   A load's answer makes its node host exactly when it reads back the very record whose fate was unknown:
   the lease then counts from the round's start, and the hold names the version that was read.
   */
  lemma {:induction false} ReadBackAdoptsIff(terms: AnchorTerms, me: NodeId, c: Claimant, loaded: LoadResult)
    requires AwaitsLoad(c) && (c.phase.ReadingBack? ==> c.phase.attempted.host == me)
    ensures var s := OnLoad(terms, me, c, loaded);
            var adopts := c.phase.ReadingBack? && Shows(loaded, c.phase.attempted);
            && ((exists x :: x in s.fed && x.AnchorActivated?) <==> adopts)
            && (adopts ==>
                  && s.fed == [AnchorActivated(c.phase.attempted.epoch, SatAdd(c.phase.t0, terms.ttl))]
                  && s.claimant.held == Some(Held(c.phase.attempted.epoch, loaded.entry.value.token, c.phase.attempted.expiresAt)))
            && (c.phase.ReadingBack? && !adopts ==> s.claimant.held.None?)
            && (c.phase.ReadingBack? ==> s.claimant.phase.Idle? && s.request.NoRequest?)
  {
    var s := OnLoad(terms, me, c, loaded);
    if c.phase.ReadingBack? && Shows(loaded, c.phase.attempted) {
      assert s.fed[0] in s.fed;
    }
  }

  /** Whenever a load's answer leads neither to a write nor to a win, the engine is told whom the register names. */
  lemma {:induction false} LosersAreTold(terms: AnchorTerms, me: NodeId, c: Claimant, loaded: LoadResult)
    requires AwaitsLoad(c)
    ensures var s := OnLoad(terms, me, c, loaded);
            s.request.StoreRequest? || (|s.fed| == 1 && s.fed[0].AnchorActivated?)
            || s.fed == if loaded.Read? && loaded.entry.Some?
                        then [AnchorObserved(loaded.entry.value.record.epoch, loaded.entry.value.record.host)] else []
  {
  }

  /** A renewal refused by the register gives the hold up, reads who took over, and tells the engine. */
  lemma {:induction false} RefusedRenewalYields(terms: AnchorTerms, me: NodeId, c: Claimant, entry: Entry)
    requires c.phase.Writing? && c.phase.renewing
    ensures var refused := OnStore(terms, c, Mismatch);
            && refused.request.LoadRequest? && refused.fed == [] && AwaitsLoad(refused.claimant)
            && var told := OnLoad(terms, me, refused.claimant, Read(Some(entry)));
               && told.claimant == Claimant(None, c.retryAt, Idle) && told.request.NoRequest?
               && told.fed == [AnchorObserved(entry.record.epoch, entry.record.host)]
  {
  }

  /** A claim refused by the register is over: nothing held, nothing asked, nothing told. */
  lemma {:induction false} RefusedClaimEnds(terms: AnchorTerms, c: Claimant)
    requires c.phase.Writing? && !c.phase.renewing
    ensures OnStore(terms, c, Mismatch) == Step(c.(phase := Idle), NoRequest, [])
  {
  }

  /** A claim that yields stays away until the standing record could be taken, and then reads again. */
  lemma {:induction false} YieldStaysAway(terms: AnchorTerms, me: NodeId, c: Claimant, entry: Entry, hint: u64, t0: u64, wall: u64, lead: Leadership)
    requires c.phase.Claiming? && c.held.None? && entry.record.host != me
    requires c.phase.wall < SatAdd(entry.record.expiresAt, terms.margin)
    ensures var s := OnLoad(terms, me, c, Read(Some(entry)));
            && s.claimant.phase.Idle? && s.request.NoRequest?
            && (BeginRound(terms, me, s.claimant, hint, t0, wall, lead).request.LoadRequest?
                <==> SatAdd(entry.record.expiresAt, terms.margin) <= wall)
  {
  }

  /** What a claimant is suspended on is what it asked for, so no round is left waiting for an answer nobody was asked for. */
  predicate AwaitsItsRequest(s: Step) {
    match s.request
    case NoRequest => s.claimant.phase.Idle?
    case LoadRequest => AwaitsLoad(s.claimant)
    case StoreRequest(_, record) => s.claimant.phase.Writing? && s.claimant.phase.attempted == record
  }

  lemma {:induction false} NoRoundSticks(terms: AnchorTerms, me: NodeId, c: Claimant, hint: u64, t0: u64, wall: u64, lead: Leadership,
                                         loaded: LoadResult, outcome: Cas)
    ensures c.phase.Idle? ==> AwaitsItsRequest(BeginRound(terms, me, c, hint, t0, wall, lead))
    ensures AwaitsLoad(c) ==> AwaitsItsRequest(OnLoad(terms, me, c, loaded))
    ensures c.phase.Writing? ==> AwaitsItsRequest(OnStore(terms, c, outcome))
  {
  }

  // ---- Rounds of a run ----

  /** `n` rests, and holds the version that stands. */
  predicate HoldsStanding(p: Setup, w: World, n: NodeId) {
    && w.nodes.Keys == p.offset.Keys && ClocksReadable(p, w.now)
    && n in w.nodes && w.nodes[n].claimant.phase.Idle? && w.nodes[n].claimant.held.Some? && w.history != []
    && w.nodes[n].claimant.held.value.token == |w.history| - 1
  }

  function Later(p: Setup, n: NodeId, now: nat): u64
    requires n in p.offset && ClocksReadable(p, now)
  {
    SatAdd(Wall(p, n, now), p.terms.ttl)
  }

  /** The conditional write of a due renewal is on its way. */
  lemma {:induction false} RenewalIssues(p: Setup, w: World, n: NodeId, hint: u64) returns (issued: World)
    requires HoldsStanding(p, w, n)
    requires SatSub(w.nodes[n].claimant.held.value.expiresAt, Wall(p, n, w.now)) <= p.terms.ttl / 2
    ensures var h := w.nodes[n].claimant.held.value;
            var begin := Begin(n, hint, w.now, Leadership(h.epoch, Some(n)));
            var record := AnchorRecord(h.epoch, n, Later(p, n, w.now));
            && Enabled(p, w, begin) && issued == Next(p, w, begin)
            && issued == w.(writes := w.writes + [Write(n, Matches(|w.history| - 1), Version(record, w.now), false, None)],
                         nodes := w.nodes[n := Node(w.nodes[n].claimant.(phase := Writing(record, w.now, true)), w.now, |w.writes|)])
  {
    issued := Next(p, w, Begin(n, hint, w.now, Leadership(w.nodes[n].claimant.held.value.epoch, Some(n))));
  }

  /** A write conditional on the standing version lands, and its node hears of it. */
  lemma {:induction false} IssuedRenewalWins(p: Setup, w: World, n: NodeId, record: AnchorRecord, k: nat) returns (won: World)
    requires w.nodes.Keys == p.offset.Keys && ClocksReadable(p, w.now) && n in w.nodes && w.history != []
    requires k < |w.writes| && w.writes[k] == Write(n, Matches(|w.history| - 1), Version(record, w.now), false, None)
    requires w.nodes[n].claimant.phase == Writing(record, w.now, true) && w.nodes[n].planned == w.now && w.nodes[n].write == k
    ensures Enabled(p, w, Process(k)) && Enabled(p, Next(p, w, Process(k)), StoreReply(n, true))
    ensures won == Next(p, Next(p, w, Process(k)), StoreReply(n, true))
    ensures won.history == w.history + [Version(record, w.now)]
    ensures won.leases == w.leases + [Lease(n, record.epoch, |w.history|, w.now, SatAdd(w.now, p.terms.ttl))]
    ensures n in won.nodes && won.nodes[n].claimant.held == Some(Held(record.epoch, |w.history|, record.expiresAt))
    ensures won.nodes[n].claimant.phase.Idle?
  {
    won := Next(p, Next(p, w, Process(k)), StoreReply(n, true));
  }

  /**
   A node that holds the standing version, is shown as its host and is due renews: the register gets the
   same epoch for one lease more, and so does the node.
   */
  lemma {:induction false} DueHostRenews(p: Setup, w: World, n: NodeId, hint: u64) returns (run: seq<Action>)
    requires HoldsStanding(p, w, n)
    requires SatSub(w.nodes[n].claimant.held.value.expiresAt, Wall(p, n, w.now)) <= p.terms.ttl / 2
    ensures var epoch := w.nodes[n].claimant.held.value.epoch;
            && run == [Begin(n, hint, w.now, Leadership(epoch, Some(n))), Process(|w.writes|), StoreReply(n, true)]
            && Runs(p, w, run)
            && var end := After(p, w, run);
               && end.history == w.history + [Version(AnchorRecord(epoch, n, Later(p, n, w.now)), w.now)]
               && end.leases == w.leases + [Lease(n, epoch, |w.history|, w.now, SatAdd(w.now, p.terms.ttl))]
               && n in end.nodes && end.nodes[n].claimant.phase.Idle?
               && end.nodes[n].claimant.held == Some(Held(epoch, |w.history|, Later(p, n, w.now)))
  {
    var epoch := w.nodes[n].claimant.held.value.epoch;
    var begin := Begin(n, hint, w.now, Leadership(epoch, Some(n)));
    var issued := RenewalIssues(p, w, n, hint);
    var won := IssuedRenewalWins(p, issued, n, AnchorRecord(epoch, n, Later(p, n, w.now)), |w.writes|);
    RunsOne(p, w, begin);
    RunsTwo(p, issued, Process(|w.writes|), StoreReply(n, true));
    RunsConcat(p, w, [begin], [Process(|w.writes|), StoreReply(n, true)]);
    run := [begin, Process(|w.writes|), StoreReply(n, true)];
    assert run == [begin] + [Process(|w.writes|), StoreReply(n, true)];
  }

  /** `n`'s write landed and stands; `n` has not heard of it. */
  predicate UnheardAndStanding(p: Setup, w: World, n: NodeId) {
    && w.nodes.Keys == p.offset.Keys && ClocksReadable(p, w.now)
    && n in w.nodes && w.nodes[n].claimant.phase.Writing? && w.history != []
    && w.nodes[n].write < |w.writes| && w.writes[w.nodes[n].write].status == Some(Stored(|w.history| - 1))
    && w.history[|w.history| - 1].record == w.nodes[n].claimant.phase.attempted
    && w.nodes[n].claimant.phase.attempted.host == n
  }

  /** An answer lost on its way and read back before anybody else writes leaves the world the answer would have. */
  lemma {:induction false} LostAnswerIsReadBack(p: Setup, w: World, n: NodeId)
    requires UnheardAndStanding(p, w, n)
    ensures Enabled(p, w, StoreReply(n, true)) && Enabled(p, w, StoreReply(n, false))
    ensures Enabled(p, Next(p, w, StoreReply(n, false)), LoadReply(n, true))
    ensures Next(p, Next(p, w, StoreReply(n, false)), LoadReply(n, true)) == Next(p, w, StoreReply(n, true))
  {
    var asked := Next(p, w, StoreReply(n, false));
    var heard, back := Next(p, w, StoreReply(n, true)), Next(p, asked, LoadReply(n, true));
    assert asked.leases == w.leases && asked.writes == w.writes && asked.history == w.history;
    assert back.nodes == heard.nodes && back.leases == heard.leases && back.writes == heard.writes;
  }

  /**
   A release that lands ends the node's own leases at once and leaves a record anybody else may take once
   their clock is the steal margin past the releaser's.
   */
  lemma {:induction false} ReleaseLetsOthersIn(p: Setup, w: World, n: NodeId) returns (end: World)
    requires HoldsStanding(p, w, n)
    ensures Enabled(p, w, Release(n)) && Enabled(p, Next(p, w, Release(n)), Process(|w.writes|))
    ensures end == Next(p, Next(p, w, Release(n)), Process(|w.writes|))
    ensures n in end.nodes && end.nodes[n].claimant.held.None? && |end.history| == |w.history| + 1
    ensures forall l <- end.leases :: l.node == n ==> l.end <= w.now
    ensures forall m: NodeId, wall: u64 :: m != n ==>
              (Entitled(m, end.history[|w.history|].record, wall, p.terms.margin) <==> SatAdd(Wall(p, n, w.now), p.terms.margin) <= wall)
    ensures end.history[|w.history|].record.epoch == w.nodes[n].claimant.held.value.epoch
  {
    end := Next(p, Next(p, w, Release(n)), Process(|w.writes|));
  }
}
