/**
 Any number of claimants over one register: rounds interleave at every await, a
 conditional write may be processed long after its answer was lost, nodes restart
 and forget what they held, and every node reads its own wall clock.
 */
module AnchorRuns {
  import opened Common
  import opened AnchorRules
  import opened AnchorClaimant
  import opened AnchorStore

  /**
   A record the register has held. `planned` is the true time at which the
   writing round read its wall clock.
   */
  datatype Version = Version(record: AnchorRecord, planned: nat)

  /** A conditional write on its way; `status` is set once the store processes it. */
  datatype Write = Write(node: NodeId, pre: WriteIf, version: Version, release: bool, status: Option<Cas>)

  /** A node: its claimant, when its latest round read the clocks, its latest write. */
  datatype Node = Node(claimant: Claimant, planned: nat, write: nat)

  /** An activation fed to `node`'s engine: host from `start` until `end` in true time. */
  datatype Lease = Lease(node: NodeId, epoch: u64, version: nat, start: nat, end: nat)

  datatype World = World(now: nat, history: seq<Version>, writes: seq<Write>, nodes: map<NodeId, Node>, leases: seq<Lease>)

  /** The group's terms and each node's constant wall-clock offset from true time. */
  datatype Setup = Setup(terms: AnchorTerms, offset: map<NodeId, int>)

  datatype Action =
    | Begin(n: NodeId, hint: u64, t0: u64, lead: Leadership)
    | LoadReply(n: NodeId, answered: bool)
    | Process(write: nat)
    | StoreReply(n: NodeId, answered: bool)
    | Release(n: NodeId)
    | Restart(n: NodeId)
    | Tick(elapsed: nat)

  function Wall(p: Setup, n: NodeId, at: nat): int
    requires n in p.offset
  {
    at + p.offset[n]
  }

  /** Every wall clock reads as a `u64` below the ceiling. */
  predicate ClocksReadable(p: Setup, now: nat) {
    now < U64_MAX && forall n <- p.offset :: 0 <= Wall(p, n, now) < U64_MAX
  }

  predicate SkewBounded(p: Setup) {
    forall m <- p.offset, n <- p.offset :: p.offset[m] - p.offset[n] <= p.terms.margin
  }

  predicate BelowCeiling(w: World) {
    forall v <- w.history :: v.record.epoch < U64_MAX
  }

  function Records(h: seq<Version>): (r: seq<AnchorRecord>)
    ensures |r| == |h| && forall i :: 0 <= i < |h| ==> r[i] == h[i].record
  {
    seq(|h|, i requires 0 <= i < |h| => h[i].record)
  }

  predicate Initial(p: Setup, w: World) {
    && w.history == [] && w.writes == [] && w.leases == []
    && w.nodes.Keys == p.offset.Keys
    && ClocksReadable(p, w.now)
    && forall n <- w.nodes :: w.nodes[n].claimant == FRESH && w.nodes[n].planned <= w.now
  }

  predicate Enabled(p: Setup, w: World, a: Action) {
    && w.nodes.Keys == p.offset.Keys
    && ClocksReadable(p, w.now)
    && match a
       case Begin(n, hint, t0, lead) => n in w.nodes && w.nodes[n].claimant.phase.Idle? && t0 <= w.now
       case LoadReply(n, answered) => n in w.nodes && AwaitsLoad(w.nodes[n].claimant)
       case Process(write) => write < |w.writes| && w.writes[write].status.None?
       case StoreReply(n, answered) =>
         && n in w.nodes && w.nodes[n].claimant.phase.Writing?
         && (answered ==> w.nodes[n].write < |w.writes| && w.writes[w.nodes[n].write].status.Some?)
       case Release(n) => n in w.nodes && w.nodes[n].claimant.phase.Idle?
       case Restart(n) => n in w.nodes
       case Tick(elapsed) => ClocksReadable(p, w.now + elapsed)
  }

  /** The lease an activation grants: from the round's wall-clock read to the engine's `lease_until`. */
  function Granted(n: NodeId, s: Step, planned: nat): seq<Lease> {
    if |s.fed| == 1 && s.fed[0].AnchorActivated? && s.claimant.held.Some?
    then [Lease(n, s.fed[0].epoch, s.claimant.held.value.token, planned, s.fed[0].leaseUntil)]
    else []
  }

  /** Installs a finished segment of `n`: its state, its store request and its activation. */
  function Advance(w: World, n: NodeId, s: Step, planned: nat, release: bool): World {
    var issued := if s.request.StoreRequest?
                  then [Write(n, s.request.pre, Version(s.request.record, planned), release, None)]
                  else [];
    var write := if s.request.StoreRequest? then |w.writes| else if n in w.nodes then w.nodes[n].write else 0;
    w.(writes := w.writes + issued,
    nodes := w.nodes[n := Node(s.claimant, planned, write)],
    leases := w.leases + Granted(n, s, planned))
  }

  /** A demoted host's leases end now. */
  function Dropped(leases: seq<Lease>, n: NodeId, now: nat): (r: seq<Lease>)
    ensures |r| == |leases|
    ensures forall i :: 0 <= i < |r| ==>
                          r[i] == if leases[i].node == n then leases[i].(end := Min(leases[i].end, now)) else leases[i]
  {
    seq(|leases|, i requires 0 <= i < |leases| =>
      if leases[i].node == n then leases[i].(end := Min(leases[i].end, now)) else leases[i])
  }

  function Next(p: Setup, w: World, a: Action): World
    requires Enabled(p, w, a)
  {
    match a
    case Begin(n, hint, t0, lead) =>
      Advance(w, n, BeginRound(p.terms, n, w.nodes[n].claimant, hint, t0, Wall(p, n, w.now), lead), w.now, false)
    case LoadReply(n, answered) =>
      var loaded := if answered then Read(Standing(Records(w.history))) else Failed;
      Advance(w, n, OnLoad(p.terms, n, w.nodes[n].claimant, loaded), w.nodes[n].planned, false)
    case Process(k) =>
      var issued := w.writes[k];
      if Allowed(Records(w.history), issued.pre) then
        w.(history := w.history + [issued.version],
        writes := w.writes[k := issued.(status := Some(Stored(|w.history|)))])
      else
        w.(writes := w.writes[k := issued.(status := Some(Mismatch))])
    case StoreReply(n, answered) =>
      var outcome := if answered then w.writes[w.nodes[n].write].status.value else Unknown;
      Advance(w, n, OnStore(p.terms, w.nodes[n].claimant, outcome), w.nodes[n].planned, false)
    case Release(n) =>
      Advance(w, n, OnRelease(n, w.nodes[n].claimant, Wall(p, n, w.now)), w.now, true)
      .(leases := Dropped(w.leases, n, w.now))
    case Restart(n) =>
      w.(nodes := w.nodes[n := w.nodes[n].(claimant := FRESH)])
    case Tick(elapsed) => w.(now := w.now + elapsed)
  }

  predicate Runs(p: Setup, w: World, actions: seq<Action>)
    decreases |actions|
  {
    actions == [] || (Enabled(p, w, actions[0]) && Runs(p, Next(p, w, actions[0]), actions[1..]))
  }

  function After(p: Setup, w: World, actions: seq<Action>): World
    requires Runs(p, w, actions)
    decreases |actions|
  {
    if actions == [] then w else After(p, Next(p, w, actions[0]), actions[1..])
  }

  // ---- Invariant, part one: what the register's chain of records looks like ----

  /** The expiry a claim or a renewal stamps. */
  function Stamp(p: Setup, n: NodeId, planned: nat): int
    requires n in p.offset
  {
    Min(Wall(p, n, planned) + p.terms.ttl, U64_MAX)
  }

  predicate Stamped(p: Setup, v: Version, release: bool) {
    && v.record.host in p.offset
    && 0 <= Wall(p, v.record.host, v.planned) < U64_MAX
    && v.record.expiresAt == if release then Wall(p, v.record.host, v.planned) else Stamp(p, v.record.host, v.planned)
  }

  /** `next` may replace `prev`: it extends or releases the same epoch, or claims a higher one. */
  predicate Succeeds(p: Setup, prev: Version, next: Version, release: bool) {
    && Stamped(p, next, release)
    && (prev.record.host == next.record.host ==> prev.planned <= next.planned)
    && if next.record.epoch == prev.record.epoch then
         next.record.host == prev.record.host
       else
         && next.record.epoch > prev.record.epoch
         && !release
         && (next.record.host == prev.record.host
             || Wall(p, next.record.host, next.planned) >= Min(prev.record.expiresAt + p.terms.margin, U64_MAX))
  }

  predicate Linked(p: Setup, prev: Version, next: Version) {
    Succeeds(p, prev, next, false) || Succeeds(p, prev, next, true)
  }

  predicate Chain(p: Setup, h: seq<Version>) {
    && (forall i :: 0 <= i < |h| ==> Stamped(p, h[i], false) || Stamped(p, h[i], true))
    && (forall i :: 0 < i < |h| ==> Linked(p, h[i - 1], h[i]))
  }

  /** A write is sound against the version it is conditional on, whether or not that version still stands. */
  predicate SoundWrite(p: Setup, w: World, x: Write) {
    && x.node in w.nodes
    && x.version.record.host == x.node
    && x.version.planned <= w.nodes[x.node].planned
    && Stamped(p, x.version, x.release)
    && match x.pre
       case Absent => !x.release
       case Matches(token) => token < |w.history| && Succeeds(p, w.history[token], x.version, x.release)
  }

  predicate SettledWrite(w: World, x: Write) {
    match x.status
    case None => true
    case Some(Stored(token)) => token < |w.history| && w.history[token] == x.version
    case Some(Mismatch) => true
    case Some(Unknown) => false
  }

  predicate SoundHold(w: World, n: NodeId, c: Claimant) {
    c.held.Some? ==>
      && c.held.value.token < |w.history|
      && w.history[c.held.value.token].record == AnchorRecord(c.held.value.epoch, n, c.held.value.expiresAt)
  }

  /** An attempted record is one the round's own clock reading stamped. */
  predicate Attempt(p: Setup, n: NodeId, planned: nat, attempted: AnchorRecord, t0: u64)
    requires n in p.offset
  {
    && attempted.host == n && t0 <= planned
    && Stamped(p, Version(attempted, planned), false)
  }

  predicate SoundNode(p: Setup, w: World, n: NodeId)
    requires n in w.nodes && n in p.offset
  {
    var x := w.nodes[n];
    && x.planned <= w.now
    && SoundHold(w, n, x.claimant)
    && match x.claimant.phase
       case Idle => true
       case Claiming(hint, t0, wall) => t0 <= x.planned && wall == Wall(p, n, x.planned)
       case Writing(attempted, t0, renewing) =>
         && Attempt(p, n, x.planned, attempted, t0)
         && x.write < |w.writes|
         && w.writes[x.write].node == n
         && w.writes[x.write].version == Version(attempted, x.planned)
         && !w.writes[x.write].release
       case Abdicating => true
       case ReadingBack(attempted, t0) => Attempt(p, n, x.planned, attempted, t0)
  }

  predicate SoundLease(w: World, l: Lease) {
    && l.version < |w.history|
    && w.history[l.version].record.host == l.node
    && w.history[l.version].record.epoch == l.epoch
    && w.history[l.version].planned <= l.start
  }

  ghost predicate Sound(p: Setup, w: World) {
    && w.nodes.Keys == p.offset.Keys
    && ClocksReadable(p, w.now)
    && Chain(p, w.history)
    && (forall i :: 0 <= i < |w.history| ==>
                      w.history[i].record.host in w.nodes && w.history[i].planned <= w.nodes[w.history[i].record.host].planned)
    && (forall k :: 0 <= k < |w.writes| ==> SoundWrite(p, w, w.writes[k]) && SettledWrite(w, w.writes[k]))
    && (forall n :: n in w.nodes ==> SoundNode(p, w, n))
    && (forall k :: 0 <= k < |w.leases| ==> SoundLease(w, w.leases[k]))
  }
}
