/** Epoch uniqueness and lease disjointness over whole runs of `AnchorRuns`. */
module AnchorSafety {
  import opened Common
  import opened AnchorRules
  import opened AnchorClaimant
  import opened AnchorStore
  import opened AnchorRuns

  // ---- Sound is kept by every action ----

  /** Installing a segment keeps `Sound` once its own node, write and lease are sound. */
  lemma {:induction false} AdvanceKeepsSound(p: Setup, w: World, n: NodeId, s: Step, planned: nat, release: bool)
    requires Sound(p, w) && n in w.nodes
    requires w.nodes[n].planned <= planned <= w.now
    requires var w' := Advance(w, n, s, planned, release);
             && SoundNode(p, w', n)
             && (s.request.StoreRequest? ==> SoundWrite(p, w', w'.writes[|w.writes|]))
             && (forall l <- Granted(n, s, planned) :: SoundLease(w', l))
    ensures Sound(p, Advance(w, n, s, planned, release))
  {
    var w' := Advance(w, n, s, planned, release);
    forall k | 0 <= k < |w'.writes| ensures SoundWrite(p, w', w'.writes[k]) && SettledWrite(w', w'.writes[k]) {
      if k < |w.writes| {
        assert SoundWrite(p, w, w.writes[k]) && SettledWrite(w, w.writes[k]);
      }
    }
    forall m | m in w'.nodes ensures SoundNode(p, w', m) {
      if m != n {
        assert SoundNode(p, w, m);
      }
    }
    forall k | 0 <= k < |w'.leases| ensures SoundLease(w', w'.leases[k]) {
      if k < |w.leases| {
        assert SoundLease(w, w.leases[k]);
      }
    }
  }

  lemma {:induction false} BeginKeepsSound(p: Setup, w: World, a: Action)
    requires Sound(p, w) && a.Begin? && Enabled(p, w, a)
    ensures Sound(p, Next(p, w, a))
  {
    var n := a.n;
    assert SoundNode(p, w, n);
    var s := BeginRound(p.terms, n, w.nodes[n].claimant, a.hint, a.t0, Wall(p, n, w.now), a.lead);
    var w' := Advance(w, n, s, w.now, false);
    if s.request.StoreRequest? {
      var x := w'.writes[|w.writes|];
      var token := w.nodes[n].claimant.held.value.token;
      assert w.history[token].planned <= w.nodes[n].planned;
      assert Succeeds(p, w.history[token], x.version, false);
    }
    AdvanceKeepsSound(p, w, n, s, w.now, false);
  }

  /** The step a load's answer leads to. */
  function LoadStep(p: Setup, w: World, a: Action): Step
    requires a.LoadReply? && a.n in w.nodes && AwaitsLoad(w.nodes[a.n].claimant)
  {
    OnLoad(p.terms, a.n, w.nodes[a.n].claimant, if a.answered then Read(Standing(Records(w.history))) else Failed)
  }

  /** What a claim writes is stamped by its round's clock and may replace the record it was planned on. */
  lemma {:induction false} ClaimWriteIsSound(p: Setup, w: World, a: Action)
    requires Sound(p, w) && BelowCeiling(w) && a.LoadReply? && Enabled(p, w, a) && w.nodes[a.n].claimant.phase.Claiming?
    requires LoadStep(p, w, a).request.StoreRequest?
    ensures var request := LoadStep(p, w, a).request;
            var version := Version(request.record, w.nodes[a.n].planned);
            && request.record.host == a.n && Stamped(p, version, false)
            && (request.pre.Matches? ==> request.pre.token == |w.history| - 1 && w.history != []
                                         && Succeeds(p, w.history[|w.history| - 1], version, false))
  {
    assert SoundNode(p, w, a.n);
    if w.history != [] {
      assert w.history[|w.history| - 1].record.epoch < U64_MAX;
    }
  }

  /** A claim's answer leaves its node sound, and wins nothing yet. */
  lemma {:induction false} ClaimReplyKeepsNode(p: Setup, w: World, a: Action)
    requires Sound(p, w) && BelowCeiling(w) && a.LoadReply? && Enabled(p, w, a) && w.nodes[a.n].claimant.phase.Claiming?
    ensures SoundNode(p, Advance(w, a.n, LoadStep(p, w, a), w.nodes[a.n].planned, false), a.n)
    ensures Granted(a.n, LoadStep(p, w, a), w.nodes[a.n].planned) == []
  {
    assert SoundNode(p, w, a.n);
    if LoadStep(p, w, a).request.StoreRequest? {
      ClaimWriteIsSound(p, w, a);
    }
  }

  /** A claim's answer: nothing, or a write that succeeds the record it was planned on. */
  lemma {:induction false} ClaimReplyIsSound(p: Setup, w: World, a: Action)
    requires Sound(p, w) && BelowCeiling(w) && a.LoadReply? && Enabled(p, w, a) && w.nodes[a.n].claimant.phase.Claiming?
    ensures var w' := Advance(w, a.n, LoadStep(p, w, a), w.nodes[a.n].planned, false);
            && SoundNode(p, w', a.n)
            && (LoadStep(p, w, a).request.StoreRequest? ==> SoundWrite(p, w', w'.writes[|w.writes|]))
            && Granted(a.n, LoadStep(p, w, a), w.nodes[a.n].planned) == []
  {
    ClaimReplyKeepsNode(p, w, a);
    var s, planned := LoadStep(p, w, a), w.nodes[a.n].planned;
    if s.request.StoreRequest? {
      ClaimWriteIsSound(p, w, a);
      var w' := Advance(w, a.n, s, planned, false);
      assert w'.writes[|w.writes|] == Write(a.n, s.request.pre, Version(s.request.record, planned), false, None);
    }
  }

  /** A read-back's answer asks for nothing more; what it wins is a version that stands. */
  lemma {:induction false} ReadBackReplyIsSound(p: Setup, w: World, a: Action)
    requires Sound(p, w) && a.LoadReply? && Enabled(p, w, a) && !w.nodes[a.n].claimant.phase.Claiming?
    ensures var s := LoadStep(p, w, a);
            var w' := Advance(w, a.n, s, w.nodes[a.n].planned, false);
            && SoundNode(p, w', a.n) && !s.request.StoreRequest?
            && (forall l <- Granted(a.n, s, w.nodes[a.n].planned) :: SoundLease(w', l))
  {
  }

  lemma {:induction false} LoadReplyKeepsSound(p: Setup, w: World, a: Action)
    requires Sound(p, w) && BelowCeiling(w) && a.LoadReply? && Enabled(p, w, a)
    ensures Sound(p, Next(p, w, a))
  {
    if w.nodes[a.n].claimant.phase.Claiming? {
      ClaimReplyIsSound(p, w, a);
    } else {
      ReadBackReplyIsSound(p, w, a);
    }
    AdvanceKeepsSound(p, w, a.n, LoadStep(p, w, a), w.nodes[a.n].planned, false);
  }

  lemma {:induction false} StoreReplyKeepsSound(p: Setup, w: World, a: Action)
    requires Sound(p, w) && a.StoreReply? && Enabled(p, w, a)
    ensures Sound(p, Next(p, w, a))
  {
    var n := a.n;
    assert SoundNode(p, w, n);
    var x := w.nodes[n];
    assert SettledWrite(w, w.writes[x.write]);
    var outcome := if a.answered then w.writes[x.write].status.value else Unknown;
    AdvanceKeepsSound(p, w, n, OnStore(p.terms, x.claimant, outcome), x.planned, false);
  }

  lemma {:induction false} ReleaseKeepsSound(p: Setup, w: World, a: Action)
    requires Sound(p, w) && a.Release? && Enabled(p, w, a)
    ensures Sound(p, Next(p, w, a))
  {
    var n := a.n;
    assert SoundNode(p, w, n);
    var s := OnRelease(n, w.nodes[n].claimant, Wall(p, n, w.now));
    AdvanceKeepsSound(p, w, n, s, w.now, true);
    var w' := Next(p, w, a);
    forall k | 0 <= k < |w'.leases| ensures SoundLease(w', w'.leases[k]) {
      assert SoundLease(w, w.leases[k]);
    }
    forall m | m in w'.nodes ensures SoundNode(p, w', m) {
      assert SoundNode(p, Advance(w, n, s, w.now, true), m);
    }
    forall k | 0 <= k < |w'.writes| ensures SoundWrite(p, w', w'.writes[k]) && SettledWrite(w', w'.writes[k]) {
      assert SoundWrite(p, Advance(w, n, s, w.now, true), w'.writes[k]);
    }
  }

  lemma {:induction false} AppendKeepsChain(p: Setup, h: seq<Version>, v: Version)
    requires Chain(p, h)
    requires Stamped(p, v, false) || Stamped(p, v, true)
    requires h != [] ==> Linked(p, h[|h| - 1], v)
    ensures Chain(p, h + [v])
  {
  }

  /** Soundness of a write and a node does not depend on versions appended later. */
  lemma {:induction false} GrowthKeepsParts(p: Setup, w: World, w': World)
    requires Sound(p, w)
    requires w'.nodes == w.nodes && w'.now == w.now && |w'.writes| == |w.writes|
    requires |w.history| <= |w'.history| && forall i :: 0 <= i < |w.history| ==> w'.history[i] == w.history[i]
    requires forall k :: 0 <= k < |w.writes| ==> w'.writes[k] == w.writes[k].(status := w'.writes[k].status)
    ensures forall k :: 0 <= k < |w'.writes| ==> SoundWrite(p, w', w'.writes[k])
    ensures forall m :: m in w'.nodes ==> SoundNode(p, w', m)
    ensures forall k :: 0 <= k < |w.leases| ==> SoundLease(w', w.leases[k])
  {
  }

  lemma {:induction false} ProcessKeepsSound(p: Setup, w: World, a: Action)
    requires Sound(p, w) && a.Process? && Enabled(p, w, a)
    ensures Sound(p, Next(p, w, a))
  {
    var w' := Next(p, w, a);
    var x := w.writes[a.write];
    assert SoundWrite(p, w, x);
    GrowthKeepsParts(p, w, w');
    forall k | 0 <= k < |w'.writes| ensures SettledWrite(w', w'.writes[k]) {
      assert SettledWrite(w, w.writes[k]);
    }
    if Allowed(Records(w.history), x.pre) {
      AppendKeepsChain(p, w.history, x.version);
    }
  }

  lemma {:induction false} RestartOrTickKeepsSound(p: Setup, w: World, a: Action)
    requires Sound(p, w) && (a.Restart? || a.Tick?) && Enabled(p, w, a)
    ensures Sound(p, Next(p, w, a))
  {
    var w' := Next(p, w, a);
    forall k | 0 <= k < |w'.writes| ensures SoundWrite(p, w', w'.writes[k]) && SettledWrite(w', w'.writes[k]) {
      assert SoundWrite(p, w, w.writes[k]) && SettledWrite(w, w.writes[k]);
    }
    forall m | m in w'.nodes ensures SoundNode(p, w', m) {
      assert SoundNode(p, w, m);
    }
    forall k | 0 <= k < |w'.leases| ensures SoundLease(w', w'.leases[k]) {
      assert SoundLease(w, w.leases[k]);
    }
  }

  /** Every action keeps `Sound` while no record has reached the epoch ceiling. */
  lemma {:induction false} NextKeepsSound(p: Setup, w: World, a: Action)
    requires Sound(p, w) && BelowCeiling(w) && Enabled(p, w, a)
    ensures Sound(p, Next(p, w, a))
  {
    match a
    case Begin(_, _, _, _) => BeginKeepsSound(p, w, a);
    case LoadReply(_, _) => LoadReplyKeepsSound(p, w, a);
    case Process(_) => ProcessKeepsSound(p, w, a);
    case StoreReply(_, _) => StoreReplyKeepsSound(p, w, a);
    case Release(_) => ReleaseKeepsSound(p, w, a);
    case Restart(_) => RestartOrTickKeepsSound(p, w, a);
    case Tick(_) => RestartOrTickKeepsSound(p, w, a);
  }

  lemma {:induction false} InitialIsSound(p: Setup, w: World)
    requires Initial(p, w)
    ensures Sound(p, w)
  {
  }

  lemma {:induction false} HistoryOnlyGrows(p: Setup, w: World, actions: seq<Action>)
    requires Runs(p, w, actions)
    ensures w.history <= After(p, w, actions).history
    ensures w.now <= After(p, w, actions).now
    decreases |actions|
  {
    if actions != [] {
      HistoryOnlyGrows(p, Next(p, w, actions[0]), actions[1..]);
    }
  }

  lemma {:induction false} RunKeepsSound(p: Setup, w: World, actions: seq<Action>)
    requires Sound(p, w) && Runs(p, w, actions) && BelowCeiling(After(p, w, actions))
    ensures Sound(p, After(p, w, actions))
    decreases |actions|
  {
    if actions != [] {
      HistoryOnlyGrows(p, w, actions);
      NextKeepsSound(p, w, actions[0]);
      RunKeepsSound(p, Next(p, w, actions[0]), actions[1..]);
    }
  }

  // ---- Epochs ----

  /** Along a chain epochs never decrease, and an epoch met twice names one host. */
  lemma {:induction false} ChainEpochs(p: Setup, h: seq<Version>, i: nat, j: nat)
    requires Chain(p, h) && i <= j < |h|
    ensures h[i].record.epoch <= h[j].record.epoch
    ensures h[i].record.epoch == h[j].record.epoch ==> h[i].record.host == h[j].record.host
    decreases j - i
  {
    if i < j {
      ChainEpochs(p, h, i, j - 1);
      assert Linked(p, h[j - 1], h[j]);
    }
  }

  /**
   Whatever is lost, delayed or restarted, the register's epochs never decrease,
   an epoch names one host for ever, and no two nodes are activated for it.
   */
  lemma {:induction false} EpochsAreUnique(p: Setup, w: World, actions: seq<Action>)
    requires Initial(p, w) && Runs(p, w, actions) && BelowCeiling(After(p, w, actions))
    ensures var end := After(p, w, actions);
            && (forall i, j :: 0 <= i <= j < |end.history| ==>
                                 end.history[i].record.epoch <= end.history[j].record.epoch)
            && (forall i, j | 0 <= i < |end.history| && 0 <= j < |end.history| ::
                  end.history[i].record.epoch == end.history[j].record.epoch
                  ==> end.history[i].record.host == end.history[j].record.host)
            && (forall a <- end.leases, b <- end.leases :: a.epoch == b.epoch ==> a.node == b.node)
  {
    var end := After(p, w, actions);
    InitialIsSound(p, w);
    RunKeepsSound(p, w, actions);
    forall i, j | 0 <= i <= j < |end.history|
      ensures end.history[i].record.epoch <= end.history[j].record.epoch
      ensures end.history[i].record.epoch == end.history[j].record.epoch
              ==> end.history[i].record.host == end.history[j].record.host
    {
      ChainEpochs(p, end.history, i, j);
    }
    forall a <- end.leases, b <- end.leases | a.epoch == b.epoch ensures a.node == b.node {
      assert SoundLease(end, a) && SoundLease(end, b);
    }
  }

  // ---- Leases ----

  /** `v` keeps everybody else out until `end`. */
  predicate Covers(p: Setup, v: Version, n: NodeId, end: nat)
    requires n in p.offset
  {
    v.record.expiresAt == U64_MAX || end + p.offset[n] <= v.record.expiresAt
  }

  /** From `version` on, each record still covers `n` until `end` or was planned no earlier than `end`. */
  predicate Fenced(p: Setup, h: seq<Version>, n: NodeId, version: nat, end: nat)
    requires n in p.offset
  {
    forall j :: version <= j < |h| ==>
                  end <= h[j].planned || (h[j].record.host == n && Covers(p, h[j], n, end))
  }

  /** A new version keeps a fence standing; a release does so because its node's leases were dropped first. */
  lemma {:induction false} FenceOutlivesVersion(p: Setup, h: seq<Version>, v: Version, release: bool, n: NodeId,
                                                version: nat, end: nat)
    requires SkewBounded(p) && Chain(p, h) && n in p.offset
    requires version < |h| && Fenced(p, h, n, version, end)
    requires Succeeds(p, h[|h| - 1], v, release)
    requires release && v.record.host == n ==> end <= v.planned
    ensures Fenced(p, h + [v], n, version, end)
  {
  }

  predicate LiveRelease(w: World, x: Write) {
    x.release && x.status.None? && w.history != [] && x.pre == Matches(|w.history| - 1)
  }

  /** A write that reached the register, in the phase that is still waiting to hear of it. */
  predicate UnheardWin(w: World, n: NodeId)
    requires n in w.nodes
  {
    var x := w.nodes[n];
    x.claimant.phase.Writing? && x.write < |w.writes| && w.writes[x.write].status.Some? && w.writes[x.write].status.value.Stored?
  }

  /** While `n`'s release may still land, `n` holds nothing, bids only above the released epoch and leases nothing later. */
  predicate Quiet(w: World, n: NodeId, at: nat)
    requires n in w.nodes && w.history != []
  {
    var x := w.nodes[n];
    var standing := w.history[|w.history| - 1].record;
    && x.claimant.held.None?
    && !UnheardWin(w, n)
    && (match x.claimant.phase
        case Idle => true
        case Claiming(_, _, _) => true
        case Writing(attempted, _, renewing) => !renewing && attempted.epoch > standing.epoch
        case Abdicating => false
        case ReadingBack(attempted, _) => attempted.epoch > standing.epoch)
    && (forall l <- w.leases :: l.node == n ==> l.end <= at)
  }

  ghost predicate LeasesFenced(p: Setup, w: World) {
    forall l <- w.leases :: l.node in p.offset && Fenced(p, w.history, l.node, l.version, l.end)
  }

  predicate WinFenced(p: Setup, w: World, n: NodeId)
    requires n in w.nodes
  {
    UnheardWin(w, n) ==>
      n in p.offset && Fenced(p, w.history, n, w.writes[w.nodes[n].write].status.value.token,
                              SatAdd(w.nodes[n].claimant.phase.t0, p.terms.ttl))
  }

  ghost predicate WinsFenced(p: Setup, w: World) {
    forall n :: n in w.nodes ==> WinFenced(p, w, n)
  }

  predicate ReleaseQuiet(w: World, x: Write) {
    LiveRelease(w, x) ==> x.node in w.nodes && Quiet(w, x.node, x.version.planned)
  }

  ghost predicate ReleasesQuiet(w: World) {
    forall k :: 0 <= k < |w.writes| ==> ReleaseQuiet(w, w.writes[k])
  }

  ghost predicate Guarded(p: Setup, w: World) {
    LeasesFenced(p, w) && WinsFenced(p, w) && ReleasesQuiet(w)
  }

  predicate WriteTracked(w: World, n: NodeId)
    requires n in w.nodes
  {
    w.nodes[n].claimant.phase.Writing? ==> w.nodes[n].write < |w.writes|
  }

  ghost predicate WritesTracked(w: World) {
    forall n :: n in w.nodes ==> WriteTracked(w, n)
  }

  lemma {:induction false} SoundTracksWrites(p: Setup, w: World)
    requires Sound(p, w)
    ensures WritesTracked(w)
  {
  }

  /** A segment of `n` leaves every other node's unheard win and every other node's quiet as they were. */
  lemma {:induction false} AdvanceKeepsGuarded(p: Setup, w: World, n: NodeId, s: Step, planned: nat, release: bool)
    requires Guarded(p, w) && WritesTracked(w) && n in w.nodes
    requires !(s.request.StoreRequest? && release)
    requires s.claimant.phase.Writing? ==> s.request.StoreRequest?
    requires forall l <- Granted(n, s, planned) :: n in p.offset && Fenced(p, w.history, n, l.version, l.end)
    requires forall k :: 0 <= k < |w.writes| && w.writes[k].node == n ==>
               ReleaseQuiet(Advance(w, n, s, planned, release), w.writes[k])
    ensures Guarded(p, Advance(w, n, s, planned, release))
  {
  }

  lemma {:induction false} BeginKeepsGuarded(p: Setup, w: World, a: Action)
    requires Guarded(p, w) && WritesTracked(w) && a.Begin? && Enabled(p, w, a)
    ensures Guarded(p, Next(p, w, a))
  {
  }

  /** Hearing of a load does not break the quiet a release in flight needs. */
  lemma {:induction false} LoadReplyKeepsQuiet(p: Setup, w: World, a: Action, k: nat)
    requires BelowCeiling(w) && a.LoadReply? && Enabled(p, w, a)
    requires k < |w.writes| && w.writes[k].node == a.n && ReleaseQuiet(w, w.writes[k])
    ensures ReleaseQuiet(Advance(w, a.n, LoadStep(p, w, a), w.nodes[a.n].planned, false), w.writes[k])
  {
    if LiveRelease(w, w.writes[k]) {
      assert w.history[|w.history| - 1].record.epoch < U64_MAX;
      assert Granted(a.n, LoadStep(p, w, a), w.nodes[a.n].planned) == [];
    }
  }

  lemma {:induction false} LoadReplyKeepsGuarded(p: Setup, w: World, a: Action)
    requires Guarded(p, w) && WritesTracked(w) && BelowCeiling(w) && a.LoadReply? && Enabled(p, w, a)
    requires SoundNode(p, w, a.n)
    ensures Guarded(p, Next(p, w, a))
  {
    var s, planned := LoadStep(p, w, a), w.nodes[a.n].planned;
    forall k | 0 <= k < |w.writes| && w.writes[k].node == a.n ensures ReleaseQuiet(Advance(w, a.n, s, planned, false), w.writes[k]) {
      assert ReleaseQuiet(w, w.writes[k]);
      LoadReplyKeepsQuiet(p, w, a, k);
    }
    AdvanceKeepsGuarded(p, w, a.n, s, planned, false);
  }

  lemma {:induction false} StoreReplyKeepsGuarded(p: Setup, w: World, a: Action)
    requires Guarded(p, w) && WritesTracked(w) && a.StoreReply? && Enabled(p, w, a)
    requires a.answered ==> SettledWrite(w, w.writes[w.nodes[a.n].write])
    ensures Guarded(p, Next(p, w, a))
  {
    var n := a.n;
    var x := w.nodes[n];
    var outcome := if a.answered then w.writes[x.write].status.value else Unknown;
    var s := OnStore(p.terms, x.claimant, outcome);
    assert WinFenced(p, w, n);
    forall k | 0 <= k < |w.writes| && w.writes[k].node == n
      ensures ReleaseQuiet(Advance(w, n, s, x.planned, false), w.writes[k])
    {
      assert ReleaseQuiet(w, w.writes[k]);
      if LiveRelease(w, w.writes[k]) {
        assert Granted(n, s, x.planned) == [];
      }
    }
    AdvanceKeepsGuarded(p, w, n, s, x.planned, false);
  }

  /** The releaser's leases end at once, and a fence that stood for longer stands until then. */
  lemma {:induction false} ReleaseKeepsLeasesFenced(p: Setup, w: World, a: Action)
    requires LeasesFenced(p, w) && a.Release? && Enabled(p, w, a)
    ensures LeasesFenced(p, Next(p, w, a))
  {
  }

  lemma {:induction false} ReleaseKeepsWinsFenced(p: Setup, w: World, a: Action)
    requires WinsFenced(p, w) && a.Release? && Enabled(p, w, a)
    ensures WinsFenced(p, Next(p, w, a))
  {
  }

  /** The release just issued finds its node quiet, and so do those still in flight. */
  lemma {:induction false} ReleaseKeepsQuiet(p: Setup, w: World, a: Action)
    requires ReleasesQuiet(w) && WritesTracked(w) && a.Release? && Enabled(p, w, a)
    ensures ReleasesQuiet(Next(p, w, a))
  {
  }

  lemma {:induction false} ReleaseKeepsGuarded(p: Setup, w: World, a: Action)
    requires Guarded(p, w) && WritesTracked(w) && a.Release? && Enabled(p, w, a)
    ensures Guarded(p, Next(p, w, a))
  {
    ReleaseKeepsLeasesFenced(p, w, a);
    ReleaseKeepsWinsFenced(p, w, a);
    ReleaseKeepsQuiet(p, w, a);
  }

  /** A landing version keeps every lease fenced. */
  lemma {:induction false} LandingKeepsLeasesFenced(p: Setup, w: World, a: Action)
    requires SkewBounded(p) && Sound(p, w) && Guarded(p, w) && a.Process? && Enabled(p, w, a)
    requires Allowed(Records(w.history), w.writes[a.write].pre)
    ensures LeasesFenced(p, Next(p, w, a))
  {
    var w' := Next(p, w, a);
    var x := w.writes[a.write];
    assert SoundWrite(p, w, x) && ReleaseQuiet(w, x);
    forall l <- w'.leases ensures l.node in p.offset && Fenced(p, w'.history, l.node, l.version, l.end) {
      assert SoundLease(w, l);
      FenceOutlivesVersion(p, w.history, x.version, x.release, l.node, l.version, l.end);
    }
  }

  /** The register takes a new version: fences are extended and no release can land any more. */
  lemma {:induction false} LandingKeepsGuarded(p: Setup, w: World, a: Action)
    requires SkewBounded(p) && Sound(p, w) && Guarded(p, w) && a.Process? && Enabled(p, w, a)
    requires Allowed(Records(w.history), w.writes[a.write].pre)
    ensures Guarded(p, Next(p, w, a))
  {
    var w' := Next(p, w, a);
    LandingKeepsLeasesFenced(p, w, a);
    forall n | n in w'.nodes ensures WinFenced(p, w', n) {
      LandingKeepsWinFenced(p, w, a, n);
    }
    forall k | 0 <= k < |w'.writes| ensures ReleaseQuiet(w', w'.writes[k]) {
      assert SoundWrite(p, w, w.writes[k]);
      assert !LiveRelease(w', w'.writes[k]);
    }
  }

  lemma {:induction false} LandingKeepsWinFenced(p: Setup, w: World, a: Action, n: NodeId)
    requires SkewBounded(p) && Chain(p, w.history) && a.Process? && Enabled(p, w, a)
    requires n in w.nodes && SoundNode(p, w, n) && WinFenced(p, w, n)
    requires var x := w.writes[a.write]; SoundWrite(p, w, x) && ReleaseQuiet(w, x) && Allowed(Records(w.history), x.pre)
    requires forall k :: 0 <= k < |w.writes| ==> SettledWrite(w, w.writes[k])
    ensures WinFenced(p, Next(p, w, a), n)
  {
    var w' := Next(p, w, a);
    var x := w.writes[a.write];
    if UnheardWin(w', n) && w.nodes[n].write != a.write {
      var won := w.writes[w.nodes[n].write];
      assert SettledWrite(w, won);
      FenceOutlivesVersion(p, w.history, x.version, x.release, n, won.status.value.token,
                           SatAdd(w.nodes[n].claimant.phase.t0, p.terms.ttl));
    }
  }

  lemma {:induction false} RefusalKeepsGuarded(p: Setup, w: World, a: Action)
    requires Guarded(p, w) && a.Process? && Enabled(p, w, a)
    requires !Allowed(Records(w.history), w.writes[a.write].pre)
    ensures Guarded(p, Next(p, w, a))
  {
  }

  lemma {:induction false} RestartOrTickKeepsGuarded(p: Setup, w: World, a: Action)
    requires Guarded(p, w) && (a.Restart? || a.Tick?) && Enabled(p, w, a)
    ensures Guarded(p, Next(p, w, a))
  {
  }

  lemma {:induction false} NextKeepsGuarded(p: Setup, w: World, a: Action)
    requires SkewBounded(p) && Sound(p, w) && Guarded(p, w) && BelowCeiling(w) && Enabled(p, w, a)
    ensures Guarded(p, Next(p, w, a))
  {
    SoundTracksWrites(p, w);
    match a
    case Begin(_, _, _, _) => BeginKeepsGuarded(p, w, a);
    case LoadReply(_, _) => LoadReplyKeepsGuarded(p, w, a);
    case Process(k) =>
      if Allowed(Records(w.history), w.writes[k].pre) {
        LandingKeepsGuarded(p, w, a);
      } else {
        RefusalKeepsGuarded(p, w, a);
      }
    case StoreReply(_, _) => StoreReplyKeepsGuarded(p, w, a);
    case Release(_) => ReleaseKeepsGuarded(p, w, a);
    case Restart(_) => RestartOrTickKeepsGuarded(p, w, a);
    case Tick(_) => RestartOrTickKeepsGuarded(p, w, a);
  }

  lemma {:induction false} RunKeepsGuarded(p: Setup, w: World, actions: seq<Action>)
    requires SkewBounded(p) && Sound(p, w) && Guarded(p, w)
    requires Runs(p, w, actions) && BelowCeiling(After(p, w, actions))
    ensures Sound(p, After(p, w, actions)) && Guarded(p, After(p, w, actions))
    decreases |actions|
  {
    if actions != [] {
      HistoryOnlyGrows(p, w, actions);
      NextKeepsSound(p, w, actions[0]);
      NextKeepsGuarded(p, w, actions[0]);
      RunKeepsGuarded(p, Next(p, w, actions[0]), actions[1..]);
    }
  }

  predicate Overlap(a: Lease, b: Lease) {
    a.start < b.end && b.start < a.end
  }

  /**
   With every pair of wall clocks within the steal margin, leases issued to two
   different nodes never overlap in true time, in any run.
   */
  lemma {:induction false} LeasesAreDisjoint(p: Setup, w: World, actions: seq<Action>)
    requires SkewBounded(p) && Initial(p, w) && Runs(p, w, actions) && BelowCeiling(After(p, w, actions))
    ensures forall a <- After(p, w, actions).leases, b <- After(p, w, actions).leases ::
              a.node != b.node ==> !Overlap(a, b)
  {
    var end := After(p, w, actions);
    InitialIsSound(p, w);
    RunKeepsGuarded(p, w, actions);
    forall a <- end.leases, b <- end.leases | a.node != b.node ensures !Overlap(a, b) {
      assert SoundLease(end, a) && SoundLease(end, b);
      assert Fenced(p, end.history, a.node, a.version, a.end);
      assert Fenced(p, end.history, b.node, b.version, b.end);
    }
  }
}
