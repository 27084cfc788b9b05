/** How high the register's epochs can climb: what a run's own inputs say about the epoch ceiling. */
module AnchorCeiling {
  import opened Common
  import opened AnchorRules
  import opened AnchorClaimant
  import opened AnchorStore
  import opened AnchorRuns
  import opened AnchorSafety

  predicate CappedPhase(phase: Phase, cap: nat) {
    match phase
    case Claiming(hint, _, _) => hint <= cap
    case Writing(attempted, _, _) => attempted.epoch <= cap
    case ReadingBack(attempted, _) => attempted.epoch <= cap
    case Idle => true
    case Abdicating => true
  }

  predicate CappedClaimant(c: Claimant, cap: nat) {
    (c.held.Some? ==> c.held.value.epoch <= cap) && CappedPhase(c.phase, cap)
  }

  predicate CappedRequest(request: Request, cap: nat) {
    request.StoreRequest? ==> request.record.epoch <= cap
  }

  /** Nothing stored, held, attempted or under way names an epoch above `cap`. */
  ghost predicate Capped(w: World, cap: nat) {
    && (forall i :: 0 <= i < |w.history| ==> w.history[i].record.epoch <= cap)
    && (forall k :: 0 <= k < |w.writes| ==> w.writes[k].version.record.epoch <= cap)
    && (forall n :: n in w.nodes ==> CappedClaimant(w.nodes[n].claimant, cap))
  }

  lemma {:induction false} CapRises(w: World, cap: nat, higher: nat)
    requires Capped(w, cap) && cap <= higher
    ensures Capped(w, higher)
  {
    forall n | n in w.nodes ensures CappedClaimant(w.nodes[n].claimant, higher) {
      assert CappedClaimant(w.nodes[n].claimant, cap);
    }
  }

  /** A finished segment within the cap keeps the world within it. */
  lemma {:induction false} AdvanceStaysCapped(w: World, n: NodeId, s: Step, planned: nat, release: bool, cap: nat)
    requires Capped(w, cap) && CappedClaimant(s.claimant, cap) && CappedRequest(s.request, cap)
    ensures Capped(Advance(w, n, s, planned, release), cap)
  {
  }

  /** A load's answer adds at most one to the highest epoch there is. */
  lemma {:induction false} LoadAddsOne(terms: AnchorTerms, me: NodeId, c: Claimant, loaded: LoadResult, cap: nat)
    requires AwaitsLoad(c) && CappedClaimant(c, cap)
    requires loaded.Read? && loaded.entry.Some? ==> loaded.entry.value.record.epoch <= cap
    ensures var s := OnLoad(terms, me, c, loaded); CappedClaimant(s.claimant, cap + 1) && CappedRequest(s.request, cap + 1)
  {
  }

  lemma {:induction false} BeginStaysCapped(p: Setup, w: World, a: Action, cap: nat)
    requires Enabled(p, w, a) && Capped(w, cap) && a.Begin? && a.hint <= cap
    ensures Capped(Next(p, w, a), cap)
  {
    var c := w.nodes[a.n].claimant;
    assert CappedClaimant(c, cap);
    AdvanceStaysCapped(w, a.n, BeginRound(p.terms, a.n, c, a.hint, a.t0, Wall(p, a.n, w.now), a.lead), w.now, false, cap);
  }

  lemma {:induction false} LoadReplyAddsOne(p: Setup, w: World, a: Action, cap: nat)
    requires Enabled(p, w, a) && Capped(w, cap) && a.LoadReply?
    ensures Capped(Next(p, w, a), cap + 1)
  {
    var c := w.nodes[a.n].claimant;
    var loaded := if a.answered then Read(Standing(Records(w.history))) else Failed;
    assert CappedClaimant(c, cap);
    LoadAddsOne(p.terms, a.n, c, loaded, cap);
    CapRises(w, cap, cap + 1);
    AdvanceStaysCapped(w, a.n, OnLoad(p.terms, a.n, c, loaded), w.nodes[a.n].planned, false, cap + 1);
  }

  lemma {:induction false} StoreReplyStaysCapped(p: Setup, w: World, a: Action, cap: nat)
    requires Enabled(p, w, a) && Capped(w, cap) && a.StoreReply?
    ensures Capped(Next(p, w, a), cap)
  {
    var c := w.nodes[a.n].claimant;
    var outcome := if a.answered then w.writes[w.nodes[a.n].write].status.value else Unknown;
    assert CappedClaimant(c, cap);
    AdvanceStaysCapped(w, a.n, OnStore(p.terms, c, outcome), w.nodes[a.n].planned, false, cap);
  }

  lemma {:induction false} ReleaseStaysCapped(p: Setup, w: World, a: Action, cap: nat)
    requires Enabled(p, w, a) && Capped(w, cap) && a.Release?
    ensures Capped(Next(p, w, a), cap)
  {
    var c := w.nodes[a.n].claimant;
    assert CappedClaimant(c, cap);
    AdvanceStaysCapped(w, a.n, OnRelease(a.n, c, Wall(p, a.n, w.now)), w.now, true, cap);
  }

  lemma {:induction false} OthersStayCapped(p: Setup, w: World, a: Action, cap: nat)
    requires Enabled(p, w, a) && Capped(w, cap) && (a.Process? || a.Restart? || a.Tick?)
    ensures Capped(Next(p, w, a), cap)
  {
  }

  lemma {:induction false} NextAddsOne(p: Setup, w: World, a: Action, cap: nat)
    requires Enabled(p, w, a) && Capped(w, cap) && (a.Begin? ==> a.hint <= cap)
    ensures Capped(Next(p, w, a), cap + 1)
  {
    if a.LoadReply? {
      LoadReplyAddsOne(p, w, a, cap);
    } else {
      match a {
        case Begin(_, _, _, _) => BeginStaysCapped(p, w, a, cap);
        case StoreReply(_, _) => StoreReplyStaysCapped(p, w, a, cap);
        case Release(_) => ReleaseStaysCapped(p, w, a, cap);
        case _ => OthersStayCapped(p, w, a, cap);
      }
      CapRises(Next(p, w, a), cap, cap + 1);
    }
  }

  predicate HintsUpTo(actions: seq<Action>, top: nat) {
    forall i :: 0 <= i < |actions| && actions[i].Begin? ==> actions[i].hint <= top
  }

  lemma {:induction false} RunAddsOneEach(p: Setup, w: World, actions: seq<Action>, top: nat, cap: nat)
    requires Runs(p, w, actions) && HintsUpTo(actions, top) && top <= cap && Capped(w, cap)
    ensures Capped(After(p, w, actions), cap + |actions|)
    decreases |actions|
  {
    if actions != [] {
      NextAddsOne(p, w, actions[0], cap);
      RunAddsOneEach(p, Next(p, w, actions[0]), actions[1..], top, cap + 1);
    }
  }

  /**
   No epoch exceeds the greatest hint of the run's rounds by more than the number of its actions, so
   hints that far below the ceiling keep the register below it.
   */
  lemma {:induction false} EpochsFollowHints(p: Setup, w: World, actions: seq<Action>, top: nat)
    requires Initial(p, w) && Runs(p, w, actions) && HintsUpTo(actions, top)
    ensures forall v <- After(p, w, actions).history :: v.record.epoch <= top + |actions|
    ensures top + |actions| < U64_MAX ==> BelowCeiling(After(p, w, actions))
  {
    RunAddsOneEach(p, w, actions, top, top);
  }
}
