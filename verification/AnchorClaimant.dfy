/**
 One node's anchor rounds. A round is cut at every await: `Round` runs up to the
 first store request, `Loaded` and `Answered` resume it with the store's reply.
 `BeginRound`, `OnLoad` and `OnStore` give each segment as a function of values;
 the class runs the segment in place and is proved equal to it.
 */
module AnchorClaimant {
  import opened Common
  import opened AnchorRules

  /** The register's version marker. */
  type Etag = nat

  datatype WriteIf = Absent | Matches(token: Etag)

  /** What a conditional write did; `Unknown` also stands for a transport error. */
  datatype Cas = Stored(token: Etag) | Mismatch | Unknown

  datatype Entry = Entry(record: AnchorRecord, token: Etag)

  datatype LoadResult = Failed | Read(entry: Option<Entry>)

  datatype Held = Held(epoch: u64, token: Etag, expiresAt: u64)

  /** The published leadership snapshot a round consults. */
  datatype Leadership = Leadership(epoch: u64, host: Option<NodeId>)

  datatype Posture = Renew(held: Held) | Claim | Wait

  /** Where a claimant is suspended, with the locals its next segment needs. */
  datatype Phase =
    | Idle
    | Claiming(hint: u64, t0: u64, wall: u64)
    | Writing(attempted: AnchorRecord, t0: u64, renewing: bool)
    | Abdicating
    | ReadingBack(attempted: AnchorRecord, t0: u64)

  datatype Claimant = Claimant(held: Option<Held>, retryAt: Option<u64>, phase: Phase)

  datatype Request = NoRequest | LoadRequest | StoreRequest(pre: WriteIf, record: AnchorRecord)

  /** What a claimant feeds the group engine. */
  datatype Command =
    | AnchorActivated(epoch: u64, leaseUntil: u64)
    | AnchorObserved(epoch: u64, host: NodeId)

  datatype Step = Step(claimant: Claimant, request: Request, fed: seq<Command>)

  const FRESH := Claimant(None, None, Idle)

  function PostureOf(me: NodeId, held: Option<Held>, lead: Leadership, wall: u64): Posture {
    match held
    case None => Claim
    case Some(h) =>
      if lead.epoch > h.epoch then Claim
      else if lead.epoch == h.epoch && lead.host == Some(me) then Renew(h)
      else if wall >= h.expiresAt then Claim
      else Wait
  }

  function BeginRound(terms: AnchorTerms, me: NodeId, c: Claimant, hint: u64, t0: u64, wall: u64, lead: Leadership): Step {
    match PostureOf(me, c.held, lead, wall)
    case Wait => Step(c, NoRequest, [])
    case Renew(h) =>
      if !RenewalDue(terms, h.expiresAt, wall) then Step(c, NoRequest, [])
      else
        var record := RenewalRecord(terms, me, h.epoch, wall);
        Step(c.(phase := Writing(record, t0, true)), StoreRequest(Matches(h.token), record), [])
    case Claim =>
      var spent := c.(held := None);
      if c.retryAt.Some? && wall < c.retryAt.value then Step(spent, NoRequest, [])
      else Step(spent.(retryAt := None, phase := Claiming(hint, t0, wall)), LoadRequest, [])
  }

  function Won(terms: AnchorTerms, c: Claimant, record: AnchorRecord, token: Etag, t0: u64): Step {
    Step(c.(held := Some(Held(record.epoch, token, record.expiresAt)), phase := Idle), NoRequest,
         [AnchorActivated(record.epoch, SatAdd(t0, terms.ttl))])
  }

  function Observe(loaded: LoadResult): seq<Command> {
    if loaded.Read? && loaded.entry.Some?
    then [AnchorObserved(loaded.entry.value.record.epoch, loaded.entry.value.record.host)]
    else []
  }

  function RecordOf(entry: Option<Entry>): Option<AnchorRecord> {
    if entry.Some? then Some(entry.value.record) else None
  }

  predicate AwaitsLoad(c: Claimant) {
    c.phase.Claiming? || c.phase.Abdicating? || c.phase.ReadingBack?
  }

  function OnLoad(terms: AnchorTerms, me: NodeId, c: Claimant, loaded: LoadResult): Step
    requires AwaitsLoad(c)
  {
    match c.phase
    case Claiming(hint, t0, wall) =>
      if loaded.Failed? then Step(c.(phase := Idle), NoRequest, [])
      else
        (match PlanClaim(terms, me, hint, RecordOf(loaded.entry), wall)
         case Yield(at) => Step(c.(retryAt := Some(at), phase := Idle), NoRequest, Observe(loaded))
         case Create(record) =>
           Step(c.(phase := Writing(record, t0, false)), StoreRequest(Absent, record), [])
         case Supersede(record) =>
           Step(c.(phase := Writing(record, t0, false)), StoreRequest(Matches(loaded.entry.value.token), record), []))
    case Abdicating => Step(c.(phase := Idle), NoRequest, Observe(loaded))
    case ReadingBack(attempted, t0) =>
      if loaded.Read? && AmbiguousApplied(me, attempted, RecordOf(loaded.entry))
      then Won(terms, c, attempted, loaded.entry.value.token, t0)
      else Step(c.(held := None, phase := Idle), NoRequest, Observe(loaded))
  }

  function OnStore(terms: AnchorTerms, c: Claimant, outcome: Cas): Step
    requires c.phase.Writing?
  {
    match outcome
    case Stored(token) => Won(terms, c, c.phase.attempted, token, c.phase.t0)
    case Mismatch =>
      if c.phase.renewing then Step(c.(held := None, phase := Abdicating), LoadRequest, [])
      else Step(c.(phase := Idle), NoRequest, [])
    case Unknown => Step(c.(phase := ReadingBack(c.phase.attempted, c.phase.t0)), LoadRequest, [])
  }

  /** Gives the hold up and stamps its record as expiring at `wall`. */
  function OnRelease(me: NodeId, c: Claimant, wall: u64): Step {
    if c.held.None? then Step(c, NoRequest, [])
    else Step(c.(held := None),
              StoreRequest(Matches(c.held.value.token), AnchorRecord(c.held.value.epoch, me, wall)), [])
  }

  /** The claimant task's state, changed in place by each segment. */
  class ClaimantTask {
    const me: NodeId
    const terms: AnchorTerms
    var held: Option<Held>
    var retryAt: Option<u64>
    var phase: Phase

    function State(): Claimant
      reads this
    {
      Claimant(held, retryAt, phase)
    }

    constructor (me: NodeId, terms: AnchorTerms)
      ensures this.me == me && this.terms == terms && State() == FRESH
    {
      this.me := me;
      this.terms := terms;
      held, retryAt, phase := None, None, Idle;
    }

    method DecidePosture(wall: u64, lead: Leadership) returns (p: Posture)
      modifies this`held
      ensures p == PostureOf(me, old(held), lead, wall)
      ensures held == if p.Claim? then None else old(held)
    {
      if held.None? {
        return Claim;
      }
      var h := held.value;
      if lead.epoch > h.epoch {
        held := None;
        return Claim;
      }
      if lead.epoch == h.epoch && lead.host == Some(me) {
        return Renew(h);
      }
      if wall >= h.expiresAt {
        held := None;
        return Claim;
      }
      return Wait;
    }

    /** A prompted round, up to its first store request. */
    method Round(hint: u64, t0: u64, wall: u64, lead: Leadership) returns (request: Request)
      requires phase.Idle?
      modifies this
      ensures Step(State(), request, []) == BeginRound(terms, me, old(State()), hint, t0, wall, lead)
    {
      var posture := DecidePosture(wall, lead);
      match posture
      case Wait => request := NoRequest;
      case Renew(h) =>
        if !RenewalDue(terms, h.expiresAt, wall) {
          request := NoRequest;
        } else {
          var record := RenewalRecord(terms, me, h.epoch, wall);
          phase := Writing(record, t0, true);
          request := StoreRequest(Matches(h.token), record);
        }
      case Claim =>
        if retryAt.Some? && wall < retryAt.value {
          return NoRequest;
        }
        retryAt := None;
        phase := Claiming(hint, t0, wall);
        request := LoadRequest;
    }

    method RecordWin(record: AnchorRecord, token: Etag, t0: u64) returns (fed: seq<Command>)
      modifies this`held, this`phase
      ensures Step(State(), NoRequest, fed) == Won(terms, old(State()), record, token, t0)
    {
      held := Some(Held(record.epoch, token, record.expiresAt));
      phase := Idle;
      fed := [AnchorActivated(record.epoch, SatAdd(t0, terms.ttl))];
    }

    /** The round resumed by the answer to a load. */
    method Loaded(loaded: LoadResult) returns (request: Request, fed: seq<Command>)
      requires AwaitsLoad(State())
      modifies this
      ensures Step(State(), request, fed) == OnLoad(terms, me, old(State()), loaded)
    {
      request, fed := NoRequest, [];
      match phase
      case Claiming(hint, t0, wall) =>
        phase := Idle;
        if loaded.Read? {
          var plan := PlanClaim(terms, me, hint, RecordOf(loaded.entry), wall);
          match plan
          case Yield(at) =>
            retryAt := Some(at);
            fed := Observe(loaded);
          case Create(record) =>
            phase := Writing(record, t0, false);
            request := StoreRequest(Absent, record);
          case Supersede(record) =>
            phase := Writing(record, t0, false);
            request := StoreRequest(Matches(loaded.entry.value.token), record);
        }
      case Abdicating =>
        phase := Idle;
        fed := Observe(loaded);
      case ReadingBack(attempted, t0) =>
        if loaded.Read? && AmbiguousApplied(me, attempted, RecordOf(loaded.entry)) {
          fed := RecordWin(attempted, loaded.entry.value.token, t0);
        } else {
          held := None;
          phase := Idle;
          fed := Observe(loaded);
        }
    }

    /** The round resumed by the outcome of a conditional write. */
    method Answered(outcome: Cas) returns (request: Request, fed: seq<Command>)
      requires phase.Writing?
      modifies this
      ensures Step(State(), request, fed) == OnStore(terms, old(State()), outcome)
    {
      request, fed := NoRequest, [];
      match outcome
      case Stored(token) => fed := RecordWin(phase.attempted, token, phase.t0);
      case Mismatch =>
        if phase.renewing {
          held := None;
          phase := Abdicating;
          request := LoadRequest;
        } else {
          phase := Idle;
        }
      case Unknown =>
        phase := ReadingBack(phase.attempted, phase.t0);
        request := LoadRequest;
    }

    /** Stamps the hold's record as expiring now, so that another claimant need not wait for its lease. */
    method Release(wall: u64) returns (request: Request)
      requires phase.Idle?
      modifies this`held
      ensures Step(State(), request, []) == OnRelease(me, old(State()), wall)
    {
      if held.None? {
        return NoRequest;
      }
      var h := held.value;
      held := None;
      request := StoreRequest(Matches(h.token), AnchorRecord(h.epoch, me, wall));
    }
  }
}
