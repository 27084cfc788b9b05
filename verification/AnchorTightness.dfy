/**
 The hypotheses of `AnchorSafety` are exact. A one-millisecond excess of clock skew
 over the steal margin already admits a run with two hosts at once, and a record at
 the epoch ceiling already admits a run in which two nodes are activated for one epoch.
 */
module AnchorTightness {
  import opened Common
  import opened AnchorRules
  import opened AnchorClaimant
  import opened AnchorStore
  import opened AnchorRuns
  import opened AnchorSafety

  const NOBODY := Leadership(0, None)

  /** A full claim round of `n` whose write is the `write`-th of the run. */
  function ClaimRound(n: NodeId, hint: u64, t0: u64, write: nat): seq<Action> {
    [Begin(n, hint, t0, NOBODY), LoadReply(n, true), Process(write), StoreReply(n, true)]
  }

  lemma {:induction false} RunsConcat(p: Setup, w: World, xs: seq<Action>, ys: seq<Action>)
    requires Runs(p, w, xs) && Runs(p, After(p, w, xs), ys)
    ensures Runs(p, w, xs + ys) && After(p, w, xs + ys) == After(p, After(p, w, xs), ys)
    decreases |xs|
  {
    if xs == [] {
      assert xs + ys == ys;
    } else {
      assert (xs + ys)[1..] == xs[1..] + ys;
      RunsConcat(p, Next(p, w, xs[0]), xs[1..], ys);
    }
  }

  lemma {:induction false} RunsOne(p: Setup, w: World, a: Action)
    requires Enabled(p, w, a)
    ensures Runs(p, w, [a]) && After(p, w, [a]) == Next(p, w, a)
  {
  }

  lemma {:induction false} RunsSnoc(p: Setup, w: World, xs: seq<Action>, a: Action)
    requires Runs(p, w, xs) && Enabled(p, After(p, w, xs), a)
    ensures Runs(p, w, xs + [a]) && After(p, w, xs + [a]) == Next(p, After(p, w, xs), a)
  {
    RunsOne(p, After(p, w, xs), a);
    RunsConcat(p, w, xs, [a]);
  }

  /** Nothing of `n` is in flight and the next write gets number `|history|`. */
  predicate Calm(p: Setup, w: World, n: NodeId) {
    && w.nodes.Keys == p.offset.Keys && ClocksReadable(p, w.now)
    && n in w.nodes && w.nodes[n].claimant == FRESH
    && |w.writes| == |w.history|
  }

  /** The epoch a claim bids against `h`. */
  function Bid(h: seq<Version>, hint: u64): u64 {
    if h == [] then Max(hint, 1) else Max(SatAdd(h[|h| - 1].record.epoch, 1), hint)
  }

  function BidVersion(p: Setup, w: World, n: NodeId, hint: u64): Version
    requires Calm(p, w, n)
  {
    Version(AnchorRecord(Bid(w.history, hint), n, SatAdd(Wall(p, n, w.now), p.terms.ttl)), w.now)
  }

  predicate MayTake(p: Setup, w: World, n: NodeId)
    requires Calm(p, w, n)
  {
    w.history == [] || Entitled(n, w.history[|w.history| - 1].record, Wall(p, n, w.now), p.terms.margin)
  }

  /** The first half of a claim round: its conditional write is on its way. */
  lemma {:induction false} ClaimIssues(p: Setup, w: World, n: NodeId, hint: u64) returns (issued: World)
    requires Calm(p, w, n) && MayTake(p, w, n)
    ensures var begin := Begin(n, hint, w.now, NOBODY);
            Enabled(p, w, begin) && Enabled(p, Next(p, w, begin), LoadReply(n, true))
            && issued == Next(p, Next(p, w, begin), LoadReply(n, true))
    ensures var v := BidVersion(p, w, n, hint);
            var pre := if w.history == [] then Absent else Matches(|w.history| - 1);
            issued == w.(writes := w.writes + [Write(n, pre, v, false, None)],
            nodes := w.nodes[n := Node(Claimant(None, None, Writing(v.record, w.now, false)), w.now, |w.writes|)])
  {
    issued := Next(p, Next(p, w, Begin(n, hint, w.now, NOBODY)), LoadReply(n, true));
  }

  /** The second half: the write lands on the version it was planned against and is heard. */
  lemma {:induction false} IssuedClaimWins(p: Setup, w: World, n: NodeId, pre: WriteIf, v: Version, k: nat) returns (won: World)
    requires w.nodes.Keys == p.offset.Keys && ClocksReadable(p, w.now) && n in w.nodes
    requires k < |w.writes| && w.writes[k] == Write(n, pre, v, false, None)
    requires Allowed(Records(w.history), pre)
    requires w.now <= U64_MAX
    requires w.nodes[n] == Node(Claimant(None, None, Writing(v.record, w.now, false)), w.now, k)
    ensures Enabled(p, w, Process(k)) && Enabled(p, Next(p, w, Process(k)), StoreReply(n, true))
    ensures won == Next(p, Next(p, w, Process(k)), StoreReply(n, true))
    ensures won == w.(history := w.history + [v],
                   writes := w.writes[k := Write(n, pre, v, false, Some(Stored(|w.history|)))],
                   nodes := w.nodes[n := Node(Claimant(Some(Held(v.record.epoch, |w.history|, v.record.expiresAt)), None, Idle), w.now, k)],
                   leases := w.leases + [Lease(n, v.record.epoch, |w.history|, w.now, SatAdd(w.now, p.terms.ttl))])
  {
    won := Next(p, Next(p, w, Process(k)), StoreReply(n, true));
  }

  lemma {:induction false} RunsTwo(p: Setup, w: World, a: Action, b: Action)
    requires Enabled(p, w, a) && Enabled(p, Next(p, w, a), b)
    ensures Runs(p, w, [a, b]) && After(p, w, [a, b]) == Next(p, Next(p, w, a), b)
  {
    RunsOne(p, w, a);
    RunsSnoc(p, w, [a], b);
    assert [a] + [b] == [a, b];
  }

  lemma {:induction false} ClaimRoundRuns(p: Setup, w: World, n: NodeId, hint: u64, issued: World, won: World)
    requires w.now <= U64_MAX
    requires var begin := Begin(n, hint, w.now, NOBODY);
             Enabled(p, w, begin) && Enabled(p, Next(p, w, begin), LoadReply(n, true))
             && issued == Next(p, Next(p, w, begin), LoadReply(n, true))
    requires var land := Process(|w.writes|);
             Enabled(p, issued, land) && Enabled(p, Next(p, issued, land), StoreReply(n, true))
             && won == Next(p, Next(p, issued, land), StoreReply(n, true))
    ensures var run := ClaimRound(n, hint, w.now, |w.writes|); Runs(p, w, run) && After(p, w, run) == won
  {
    var first, second := [Begin(n, hint, w.now, NOBODY), LoadReply(n, true)], [Process(|w.writes|), StoreReply(n, true)];
    RunsTwo(p, w, first[0], first[1]);
    RunsTwo(p, issued, second[0], second[1]);
    RunsConcat(p, w, first, second);
    assert ClaimRound(n, hint, w.now, |w.writes|) == first + second;
  }

  /** An entitled claim round wins: one more version, one more lease, every other node as it was. */
  lemma {:induction false} ClaimRoundWins(p: Setup, w: World, n: NodeId, hint: u64) returns (end: World)
    requires Calm(p, w, n) && MayTake(p, w, n)
    ensures var run := ClaimRound(n, hint, w.now, |w.writes|); Runs(p, w, run) && After(p, w, run) == end
    ensures end.now == w.now
    ensures end.history == w.history + [BidVersion(p, w, n, hint)]
    ensures end.leases == w.leases + [Lease(n, Bid(w.history, hint), |w.history|, w.now, SatAdd(w.now, p.terms.ttl))]
    ensures |end.writes| == |w.writes| + 1 && end.nodes.Keys == w.nodes.Keys
    ensures forall m :: m in w.nodes && m != n ==> end.nodes[m] == w.nodes[m]
  {
    var pre := if w.history == [] then Absent else Matches(|w.history| - 1);
    var issued := ClaimIssues(p, w, n, hint);
    end := IssuedClaimWins(p, issued, n, pre, BidVersion(p, w, n, hint), |w.writes|);
    ClaimRoundRuns(p, w, n, hint, issued, end);
  }

  /** Any run can be continued by an entitled claim round. */
  lemma {:induction false} ClaimAfter(p: Setup, w: World, xs: seq<Action>, n: NodeId, hint: u64) returns (ys: seq<Action>)
    requires Runs(p, w, xs) && Calm(p, After(p, w, xs), n) && MayTake(p, After(p, w, xs), n)
    ensures Runs(p, w, ys)
    ensures var mid := After(p, w, xs);
            var end := After(p, w, ys);
            && end.now == mid.now
            && end.history == mid.history + [BidVersion(p, mid, n, hint)]
            && end.leases == mid.leases + [Lease(n, Bid(mid.history, hint), |mid.history|, mid.now, SatAdd(mid.now, p.terms.ttl))]
            && |end.writes| == |mid.writes| + 1
            && end.nodes.Keys == mid.nodes.Keys
            && (forall m :: m in mid.nodes && m != n ==> end.nodes[m] == mid.nodes[m])
  {
    var mid := After(p, w, xs);
    var end := ClaimRoundWins(p, mid, n, hint);
    RunsConcat(p, w, xs, ClaimRound(n, hint, mid.now, |mid.writes|));
    ys := xs + ClaimRound(n, hint, mid.now, |mid.writes|);
  }

  lemma {:induction false} TickAfter(p: Setup, w: World, xs: seq<Action>, gap: nat) returns (ys: seq<Action>)
    requires Runs(p, w, xs)
    requires var mid := After(p, w, xs);
             mid.nodes.Keys == p.offset.Keys && ClocksReadable(p, mid.now) && ClocksReadable(p, mid.now + gap)
    ensures Runs(p, w, ys) && After(p, w, ys) == After(p, w, xs).(now := After(p, w, xs).now + gap)
  {
    RunsSnoc(p, w, xs, Tick(gap));
    ys := xs + [Tick(gap)];
  }

  /** `a` creates the record and `gap` passes; `b` may then take it. */
  lemma {:induction false} FirstHostThenWait(p: Setup, w: World, a: NodeId, b: NodeId, hint: u64,
                                             gap: nat) returns (ys: seq<Action>)
    requires Initial(p, w) && a in p.offset && b in p.offset && a != b
    requires ClocksReadable(p, w.now + gap)
    ensures Runs(p, w, ys)
    ensures var mid := After(p, w, ys);
            && mid.now == w.now + gap
            && mid.history == [Version(AnchorRecord(Max(hint, 1), a, SatAdd(Wall(p, a, w.now), p.terms.ttl)), w.now)]
            && mid.leases == [Lease(a, Max(hint, 1), 0, w.now, SatAdd(w.now, p.terms.ttl))]
            && Calm(p, mid, b)
  {
    assert Runs(p, w, []) && After(p, w, []) == w;
    assert Calm(p, w, a);
    var first := ClaimAfter(p, w, [], a, hint);
    ys := TickAfter(p, w, first, gap);
  }

  /** The record `a` left is `b`'s to take, at the next epoch. */
  lemma {:induction false} SecondMayTake(p: Setup, w: World, a: NodeId, b: NodeId, hint: u64, planned: nat)
    requires a in p.offset && Calm(p, w, b) && 0 <= Wall(p, a, planned) <= U64_MAX
    requires w.history == [Version(AnchorRecord(Max(hint, 1), a, SatAdd(Wall(p, a, planned), p.terms.ttl)), planned)]
    requires Wall(p, b, w.now) >= SatAdd(SatAdd(Wall(p, a, planned), p.terms.ttl), p.terms.margin)
    ensures MayTake(p, w, b) && Bid(w.history, 0) == SatAdd(Max(hint, 1), 1)
    ensures BidVersion(p, w, b, 0).record.epoch == SatAdd(Max(hint, 1), 1)
  {
  }

  /** What the second round leaves, read off the state before it. */
  lemma {:induction false} SecondTook(p: Setup, mid: World, end: World, b: NodeId, first: Version, lease: Lease, epoch: u64)
    requires Calm(p, mid, b) && mid.history == [first] && mid.leases == [lease] && Bid(mid.history, 0) == epoch
    requires first.record.epoch <= epoch
    requires end.history == mid.history + [BidVersion(p, mid, b, 0)]
    requires end.leases == mid.leases + [Lease(b, Bid(mid.history, 0), |mid.history|, mid.now, SatAdd(mid.now, p.terms.ttl))]
    ensures |end.leases| == 2 && end.leases[0] == lease
    ensures end.leases[1] == Lease(b, epoch, 1, mid.now, SatAdd(mid.now, p.terms.ttl))
    ensures forall v <- end.history :: v.record.epoch <= epoch
  {
  }

  /** Two hosts in turn: `a` creates the record at `max(hint, 1)` and, `gap` later, `b` takes it. */
  lemma {:induction false} Succession(p: Setup, w: World, a: NodeId, b: NodeId, hint: u64, gap: nat) returns (run: seq<Action>)
    requires Initial(p, w) && a in p.offset && b in p.offset && a != b
    requires ClocksReadable(p, w.now + gap)
    requires Wall(p, b, w.now + gap) >= SatAdd(SatAdd(Wall(p, a, w.now), p.terms.ttl), p.terms.margin)
    ensures Runs(p, w, run)
    ensures var leases := After(p, w, run).leases;
            && |leases| == 2
            && leases[0] == Lease(a, Max(hint, 1), 0, w.now, SatAdd(w.now, p.terms.ttl))
            && leases[1] == Lease(b, SatAdd(Max(hint, 1), 1), 1, w.now + gap, SatAdd(w.now + gap, p.terms.ttl))
    ensures forall v <- After(p, w, run).history :: v.record.epoch <= SatAdd(Max(hint, 1), 1)
  {
    var waited := FirstHostThenWait(p, w, a, b, hint, gap);
    SecondMayTake(p, After(p, w, waited), a, b, hint, w.now);
    run := ClaimAfter(p, w, waited, b, 0);
    SecondTook(p, After(p, w, waited), After(p, w, run), b,
               Version(AnchorRecord(Max(hint, 1), a, SatAdd(Wall(p, a, w.now), p.terms.ttl)), w.now),
               Lease(a, Max(hint, 1), 0, w.now, SatAdd(w.now, p.terms.ttl)), SatAdd(Max(hint, 1), 1));
  }

  /** No two leases of different nodes overlap at the end of this run. */
  predicate RunDisjoint(p: Setup, w: World, actions: seq<Action>) {
    Runs(p, w, actions) && BelowCeiling(After(p, w, actions)) ==>
      forall a <- After(p, w, actions).leases, b <- After(p, w, actions).leases :: a.node != b.node ==> !Overlap(a, b)
  }

  lemma {:induction false} SkewAboveMarginOverlaps(p: Setup, w: World, a: NodeId, b: NodeId) returns (actions: seq<Action>)
    requires Initial(p, w) && a in p.offset && b in p.offset
    requires 0 < p.terms.ttl && ClocksReadable(p, w.now + p.terms.ttl)
    requires Wall(p, a, w.now) + p.terms.ttl + p.terms.margin < U64_MAX
    requires p.offset[b] - p.offset[a] > p.terms.margin
    ensures !RunDisjoint(p, w, actions)
  {
    var excess := p.offset[b] - p.offset[a] - p.terms.margin;
    var gap := Max(0, p.terms.ttl - excess);
    assert ClocksReadable(p, w.now + gap) by {
      forall n | n in p.offset ensures 0 <= Wall(p, n, w.now + gap) < U64_MAX {
        assert 0 <= Wall(p, n, w.now);
        assert Wall(p, n, w.now + p.terms.ttl) < U64_MAX;
      }
    }
    actions := Succession(p, w, a, b, 0, gap);
    var end := After(p, w, actions);
    assert end.leases[0] in end.leases && end.leases[1] in end.leases;
    assert Overlap(end.leases[0], end.leases[1]);
  }

  /**
   Leases of different nodes are disjoint in every run exactly when every pair of
   wall clocks is within the steal margin.
   */
  lemma {:induction false} DisjointIffSkewBounded(p: Setup, w: World)
    requires Initial(p, w)
    requires 0 < p.terms.ttl && ClocksReadable(p, w.now + p.terms.ttl)
    requires forall n <- p.offset :: Wall(p, n, w.now) + p.terms.ttl + p.terms.margin < U64_MAX
    ensures SkewBounded(p) <==> forall actions :: RunDisjoint(p, w, actions)
  {
    if SkewBounded(p) {
      forall actions ensures RunDisjoint(p, w, actions) {
        if Runs(p, w, actions) && BelowCeiling(After(p, w, actions)) {
          LeasesAreDisjoint(p, w, actions);
        }
      }
    } else {
      var b, a :| b in p.offset && a in p.offset && p.offset[b] - p.offset[a] > p.terms.margin;
      var actions := SkewAboveMarginOverlaps(p, w, a, b);
    }
  }

  /** Without the ceiling hypothesis epoch uniqueness fails: both hosts of this run hold `u64::MAX`. */
  lemma {:induction false} CeilingSharesAnEpoch(p: Setup, w: World, a: NodeId, b: NodeId,
                                                gap: nat) returns (run: seq<Action>)
    requires Initial(p, w) && a in p.offset && b in p.offset && a != b
    requires ClocksReadable(p, w.now + gap)
    requires Wall(p, b, w.now + gap) >= SatAdd(SatAdd(Wall(p, a, w.now), p.terms.ttl), p.terms.margin)
    ensures Runs(p, w, run)
    ensures exists x <- After(p, w, run).leases, y <- After(p, w, run).leases :: x.epoch == y.epoch && x.node != y.node
  {
    run := Succession(p, w, a, b, U64_MAX, gap);
    var leases := After(p, w, run).leases;
    assert leases[0] in leases && leases[1] in leases;
  }
}
