/** The gossip protocol's frames on the wire: eleven kinds, read back exactly, with exact size accounting. */
module GossipWire {
  import opened Common
  import opened ByteCodec
  import opened FieldCodec

  const FRAME_VERSION: byte := 1

  datatype Kind =
    | Digest | Ping | Ack | PingReq | IndirectAck | DeltaRequest | Delta
    | LeadClaim | LeadGrant | LeadState | LeadResign

  function KindByte(k: Kind): byte {
    match k
    case Digest => 1
    case Ping => 2
    case Ack => 3
    case PingReq => 4
    case IndirectAck => 5
    case DeltaRequest => 6
    case Delta => 7
    case LeadClaim => 8
    case LeadGrant => 9
    case LeadState => 10
    case LeadResign => 11
  }

  function KindOf(b: byte): Option<Kind> {
    match b
    case 1 => Some(Digest)
    case 2 => Some(Ping)
    case 3 => Some(Ack)
    case 4 => Some(PingReq)
    case 5 => Some(IndirectAck)
    case 6 => Some(DeltaRequest)
    case 7 => Some(Delta)
    case 8 => Some(LeadClaim)
    case 9 => Some(LeadGrant)
    case 10 => Some(LeadState)
    case 11 => Some(LeadResign)
    case _ => None
  }

  datatype NodeDigest = NodeDigest(node: NodeId, incarnation: u64, status: byte, maxVersion: u64, contentHash: u64)
  datatype NodeWant = NodeWant(node: NodeId, haveVersion: u64)
  datatype MetaDelta = MetaDelta(key: Bytes, version: u64, writer: NodeId, value: Bytes)
  datatype EntryDelta = EntryDelta(key: Bytes, version: u64, ttlMs: u64, tombstone: bool, value: Bytes)
  datatype MemberDelta = MemberDelta(node: NodeId, incarnation: u64, status: byte, maxVersion: u64, entries: seq<EntryDelta>)

  datatype LeadBody =
    | Claim(epoch: u64, claimant: NodeId)
    | Grant(epoch: u64, claimant: NodeId, granter: NodeId)
    | State(epoch: u64, believed: Option<NodeId>)
    | Resign(epoch: u64, host: NodeId)

  datatype Frame = Frame(kind: Kind, group: Bytes, target: Option<NodeId>, digest: seq<NodeDigest>, wants: seq<NodeWant>,
                         members: seq<MemberDelta>, metadata: seq<MetaDelta>, lead: Option<LeadBody>)

  // ---- Records ----

  const DIGEST: Schema := [Text, Word, Byte, Word, Word]
  const WANT: Schema := [Text, Word]
  const META: Schema := [Text, Word, Text, Text]
  const ENTRY: Schema := [Text, Word, Word, Flag, Blob]
  const MEMBER: Schema := [Text, Word, Byte, Word]

  function DigestRow(d: NodeDigest): (r: Row)
    ensures RowShaped(DIGEST, r)
  {
    [Str(d.node), Num(d.incarnation), Num(d.status), Num(d.maxVersion), Num(d.contentHash)]
  }

  function WantRow(w: NodeWant): (r: Row)
    ensures RowShaped(WANT, r)
  {
    [Str(w.node), Num(w.haveVersion)]
  }

  function MetaRow(m: MetaDelta): (r: Row)
    ensures RowShaped(META, r)
  {
    [Str(m.key), Num(m.version), Str(m.writer), Str(m.value)]
  }

  function EntryRow(e: EntryDelta): (r: Row)
    ensures RowShaped(ENTRY, r)
  {
    [Str(e.key), Num(e.version), Num(e.ttlMs), Num(if e.tombstone then 1 else 0), Str(e.value)]
  }

  function MemberRow(m: MemberDelta): (r: Row)
    ensures RowShaped(MEMBER, r)
  {
    [Str(m.node), Num(m.incarnation), Num(m.status), Num(m.maxVersion)]
  }

  function PutDigest(d: NodeDigest): Bytes { PutRow(DIGEST, DigestRow(d)) }
  function PutWant(w: NodeWant): Bytes { PutRow(WANT, WantRow(w)) }
  function PutMeta(m: MetaDelta): Bytes { PutRow(META, MetaRow(m)) }
  function PutEntry(e: EntryDelta): Bytes { PutRow(ENTRY, EntryRow(e)) }
  function PutMember(m: MemberDelta): Bytes { PutRow(MEMBER, MemberRow(m)) + PutList(PutEntry, m.entries) }

  predicate DigestFits(d: NodeDigest) { RowFits(DIGEST, DigestRow(d)) }
  predicate WantFits(w: NodeWant) { RowFits(WANT, WantRow(w)) }
  predicate MetaFits(m: MetaDelta) { RowFits(META, MetaRow(m)) }
  predicate EntryFits(e: EntryDelta) { RowFits(ENTRY, EntryRow(e)) }

  predicate MemberFits(m: MemberDelta) {
    && RowFits(MEMBER, MemberRow(m)) && |m.entries| <= U32_MAX
    && forall i :: 0 <= i < |m.entries| ==> EntryFits(m.entries[i])
  }

  function GetDigest(b: Bytes): (r: Option<Parsed<NodeDigest>>)
    ensures r.Some? ==> DigestFits(r.value.value) && GetRow(DIGEST, b) == Some(Parsed(DigestRow(r.value.value), r.value.rest))
  {
    var p := GetRow(DIGEST, b);
    if p.None? then None
    else
      var v := p.value.value;
      assert Fits(DIGEST[0], v[0]) && Fits(DIGEST[1], v[1]) && Fits(DIGEST[2], v[2]) && Fits(DIGEST[3], v[3]) && Fits(DIGEST[4], v[4]);
      var d := NodeDigest(v[0].s, v[1].n, v[2].n, v[3].n, v[4].n);
      assert DigestRow(d) == v;
      Some(Parsed(d, p.value.rest))
  }

  function GetWant(b: Bytes): (r: Option<Parsed<NodeWant>>)
    ensures r.Some? ==> WantFits(r.value.value) && GetRow(WANT, b) == Some(Parsed(WantRow(r.value.value), r.value.rest))
  {
    var p := GetRow(WANT, b);
    if p.None? then None
    else
      var v := p.value.value;
      assert Fits(WANT[0], v[0]) && Fits(WANT[1], v[1]);
      var w := NodeWant(v[0].s, v[1].n);
      assert WantRow(w) == v;
      Some(Parsed(w, p.value.rest))
  }

  function GetMeta(b: Bytes): (r: Option<Parsed<MetaDelta>>)
    ensures r.Some? ==> MetaFits(r.value.value) && GetRow(META, b) == Some(Parsed(MetaRow(r.value.value), r.value.rest))
  {
    var p := GetRow(META, b);
    if p.None? then None
    else
      var v := p.value.value;
      assert Fits(META[0], v[0]) && Fits(META[1], v[1]) && Fits(META[2], v[2]) && Fits(META[3], v[3]);
      var m := MetaDelta(v[0].s, v[1].n, v[2].s, v[3].s);
      assert MetaRow(m) == v;
      Some(Parsed(m, p.value.rest))
  }

  function GetEntry(b: Bytes): (r: Option<Parsed<EntryDelta>>)
    ensures r.Some? ==> EntryFits(r.value.value) && GetRow(ENTRY, b) == Some(Parsed(EntryRow(r.value.value), r.value.rest))
  {
    var p := GetRow(ENTRY, b);
    if p.None? then None
    else
      var v := p.value.value;
      assert Fits(ENTRY[0], v[0]) && Fits(ENTRY[1], v[1]) && Fits(ENTRY[2], v[2]) && Fits(ENTRY[3], v[3]) && Fits(ENTRY[4], v[4]);
      var e := EntryDelta(v[0].s, v[1].n, v[2].n, v[3].n == 1, v[4].s);
      assert EntryRow(e) == v;
      Some(Parsed(e, p.value.rest))
  }

  function GetMember(b: Bytes): (r: Option<Parsed<MemberDelta>>)
    ensures r.Some? ==> MemberFits(r.value.value)
  {
    var p := GetRow(MEMBER, b);
    if p.None? then None
    else
      var v := p.value.value;
      assert Fits(MEMBER[0], v[0]) && Fits(MEMBER[1], v[1]) && Fits(MEMBER[2], v[2]) && Fits(MEMBER[3], v[3]);
      var entries := GetList(GetEntry, p.value.rest);
      if entries.None? then None
      else
        var m := MemberDelta(v[0].s, v[1].n, v[2].n, v[3].n, entries.value.value);
        assert MemberRow(m) == v;
        assert MemberFits(m) by {
          AllAre(GetEntry, EntryFits, GetU32(p.value.rest[..4]), p.value.rest[4..]);
        }
        Some(Parsed(m, entries.value.rest))
  }

  lemma {:induction false} RecordsInvert()
    ensures forall d :: DigestFits(d) ==> Inverts(PutDigest, GetDigest, d)
    ensures forall w :: WantFits(w) ==> Inverts(PutWant, GetWant, w)
    ensures forall m :: MetaFits(m) ==> Inverts(PutMeta, GetMeta, m)
    ensures forall e :: EntryFits(e) ==> Inverts(PutEntry, GetEntry, e)
  {
    forall d, rest | DigestFits(d) ensures GetDigest(PutDigest(d) + rest) == Some(Parsed(d, rest)) {
      RowReadsBack(DIGEST, DigestRow(d), rest);
    }
    forall w, rest | WantFits(w) ensures GetWant(PutWant(w) + rest) == Some(Parsed(w, rest)) {
      RowReadsBack(WANT, WantRow(w), rest);
    }
    forall m, rest | MetaFits(m) ensures GetMeta(PutMeta(m) + rest) == Some(Parsed(m, rest)) {
      RowReadsBack(META, MetaRow(m), rest);
    }
    forall e, rest | EntryFits(e) ensures GetEntry(PutEntry(e) + rest) == Some(Parsed(e, rest)) {
      RowReadsBack(ENTRY, EntryRow(e), rest);
    }
  }

  lemma {:induction false} MemberInverts(m: MemberDelta)
    requires MemberFits(m)
    ensures Inverts(PutMember, GetMember, m)
  {
    RecordsInvert();
    forall rest ensures GetMember(PutMember(m) + rest) == Some(Parsed(m, rest)) {
      var head, entries := PutRow(MEMBER, MemberRow(m)), PutList(PutEntry, m.entries);
      ListReadsBack(PutEntry, GetEntry, m.entries, rest);
      RowReadsBack(MEMBER, MemberRow(m), entries + rest);
      Splits(head, entries, rest);
    }
  }

  lemma {:induction false} RecordsAreExact()
    ensures Exact(PutDigest, GetDigest) && Exact(PutWant, GetWant) && Exact(PutMeta, GetMeta) && Exact(PutEntry, GetEntry)
  {
    forall b | GetDigest(b).Some? ensures b == PutDigest(GetDigest(b).value.value) + GetDigest(b).value.rest {
      RowIsExact(DIGEST, b);
    }
    forall b | GetWant(b).Some? ensures b == PutWant(GetWant(b).value.value) + GetWant(b).value.rest {
      RowIsExact(WANT, b);
    }
    forall b | GetMeta(b).Some? ensures b == PutMeta(GetMeta(b).value.value) + GetMeta(b).value.rest {
      RowIsExact(META, b);
    }
    forall b | GetEntry(b).Some? ensures b == PutEntry(GetEntry(b).value.value) + GetEntry(b).value.rest {
      RowIsExact(ENTRY, b);
    }
  }

  lemma {:induction false} MembersAreExact()
    ensures Exact(PutMember, GetMember)
  {
    RecordsAreExact();
    forall b | GetMember(b).Some? ensures b == PutMember(GetMember(b).value.value) + GetMember(b).value.rest {
      var m, rest := GetMember(b).value.value, GetRow(MEMBER, b).value.rest;
      RowIsExact(MEMBER, b);
      assert MemberRow(m) == GetRow(MEMBER, b).value.value;
      ListIsExact(PutEntry, GetEntry, rest);
      Splits(PutRow(MEMBER, MemberRow(m)), PutList(PutEntry, m.entries), GetMember(b).value.rest);
    }
  }

  // ---- Bodies ----

  /** What a frame carries besides its kind, group and target. */
  datatype Contents = Contents(digest: seq<NodeDigest>, wants: seq<NodeWant>, members: seq<MemberDelta>,
                               metadata: seq<MetaDelta>, lead: Option<LeadBody>)

  const NOTHING := Contents([], [], [], [], None)

  function ContentsOf(f: Frame): Contents {
    Contents(f.digest, f.wants, f.members, f.metadata, f.lead)
  }

  function KindOfLead(l: LeadBody): Kind {
    match l
    case Claim(_, _) => LeadClaim
    case Grant(_, _, _) => LeadGrant
    case State(_, _) => LeadState
    case Resign(_, _) => LeadResign
  }

  function PutLead(l: LeadBody): Bytes {
    match l
    case Claim(epoch, claimant) => PutU64(epoch) + PutSized(claimant)
    case Grant(epoch, claimant, granter) => PutU64(epoch) + (PutSized(claimant) + PutSized(granter))
    case State(epoch, host) => PutU64(epoch) + PutOptional(host)
    case Resign(epoch, host) => PutU64(epoch) + PutSized(host)
  }

  predicate Name(s: Bytes) {
    Fits(Text, Str(s))
  }

  predicate LeadFits(l: LeadBody) {
    match l
    case Claim(_, claimant) => Name(claimant)
    case Grant(_, claimant, granter) => Name(claimant) && Name(granter)
    case State(_, host) => host.Some? ==> Name(host.value)
    case Resign(_, host) => Name(host)
  }

  function GetName(b: Bytes): (r: Option<Parsed<Bytes>>)
    ensures r.Some? ==> Name(r.value.value)
  {
    var p := GetField(Text, b);
    if p.None? then None else Some(Parsed(p.value.value.s, p.value.rest))
  }

  lemma {:induction false} NameReadsBack(s: Bytes, rest: Bytes)
    requires Name(s)
    ensures GetName(PutSized(s) + rest) == Some(Parsed(s, rest))
  {
    FieldReadsBack(Text, Str(s), rest);
  }

  predicate Election(k: Kind) {
    k == LeadClaim || k == LeadGrant || k == LeadState || k == LeadResign
  }

  /** Reads the body that goes with `kind`. */
  function GetLead(kind: Kind, b: Bytes): (r: Option<Parsed<LeadBody>>)
    requires Election(kind)
    ensures r.Some? ==> LeadFits(r.value.value) && KindOfLead(r.value.value) == kind
  {
    if |b| < 8 then None
    else
      var epoch, rest := GetU64(b[..8]), b[8..];
      if kind == LeadState then
        var host := GetOptional(rest);
        if host.None? then None else Some(Parsed(State(epoch, host.value.value), host.value.rest))
      else
        var first := GetName(rest);
        if first.None? then None
        else if kind == LeadClaim then Some(Parsed(Claim(epoch, first.value.value), first.value.rest))
        else if kind == LeadResign then Some(Parsed(Resign(epoch, first.value.value), first.value.rest))
        else
          var second := GetName(first.value.rest);
          if second.None? then None
          else Some(Parsed(Grant(epoch, first.value.value, second.value.value), second.value.rest))
  }

  lemma {:induction false} EpochReadsBack(epoch: u64, body: Bytes, rest: Bytes)
    ensures var b := PutU64(epoch) + body + rest;
            |b| >= 8 && GetU64(b[..8]) == epoch && b[8..] == body + rest
  {
    U64ReadsBack(epoch);
    Splits(PutU64(epoch), body, rest);
    Splits(PutU64(epoch), body + rest, []);
  }

  lemma {:induction false} TwoNamesReadBack(a: Bytes, b: Bytes, rest: Bytes)
    requires Name(a) && Name(b)
    ensures GetName(PutSized(a) + PutSized(b) + rest) == Some(Parsed(a, PutSized(b) + rest))
    ensures GetName(PutSized(b) + rest) == Some(Parsed(b, rest))
  {
    NameReadsBack(b, rest);
    NameReadsBack(a, PutSized(b) + rest);
    Splits(PutSized(a), PutSized(b), rest);
  }

  lemma {:induction false} GrantReadsBack(l: LeadBody, rest: Bytes)
    requires l.Grant? && LeadFits(l)
    ensures GetLead(LeadGrant, PutLead(l) + rest) == Some(Parsed(l, rest))
  {
    EpochReadsBack(l.epoch, PutSized(l.claimant) + PutSized(l.granter), rest);
    TwoNamesReadBack(l.claimant, l.granter, rest);
  }

  lemma {:induction false} StateReadsBack(l: LeadBody, rest: Bytes)
    requires l.State? && LeadFits(l)
    ensures GetLead(LeadState, PutLead(l) + rest) == Some(Parsed(l, rest))
  {
    EpochReadsBack(l.epoch, PutOptional(l.believed), rest);
    OptionalReadsBack(l.believed, rest);
  }

  lemma {:induction false} LeadReadsBack(l: LeadBody, rest: Bytes)
    requires LeadFits(l)
    ensures GetLead(KindOfLead(l), PutLead(l) + rest) == Some(Parsed(l, rest))
  {
    match l
    case Claim(epoch, claimant) =>
      EpochReadsBack(epoch, PutSized(claimant), rest);
      NameReadsBack(claimant, rest);
    case Grant(_, _, _) => GrantReadsBack(l, rest);
    case State(_, _) => StateReadsBack(l, rest);
    case Resign(epoch, host) =>
      EpochReadsBack(epoch, PutSized(host), rest);
      NameReadsBack(host, rest);
  }

  function PutContents(kind: Kind, c: Contents): Bytes {
    match kind
    case Digest => PutList(PutDigest, c.digest) + PutList(PutMeta, c.metadata)
    case DeltaRequest => PutList(PutWant, c.wants)
    case Delta => PutList(PutMember, c.members)
    case Ping => []
    case Ack => []
    case PingReq => []
    case IndirectAck => []
    case _ => if c.lead.Some? then PutLead(c.lead.value) else []
  }

  function GetContents(kind: Kind, b: Bytes): Option<Parsed<Contents>> {
    match kind
    case Digest =>
      var digest := GetList(GetDigest, b);
      if digest.None? then None
      else
        var metadata := GetList(GetMeta, digest.value.rest);
        if metadata.None? then None
        else Some(Parsed(NOTHING.(digest := digest.value.value, metadata := metadata.value.value), metadata.value.rest))
    case DeltaRequest =>
      var wants := GetList(GetWant, b);
      if wants.None? then None else Some(Parsed(NOTHING.(wants := wants.value.value), wants.value.rest))
    case Delta =>
      var members := GetList(GetMember, b);
      if members.None? then None else Some(Parsed(NOTHING.(members := members.value.value), members.value.rest))
    case Ping => Some(Parsed(NOTHING, b))
    case Ack => Some(Parsed(NOTHING, b))
    case PingReq => Some(Parsed(NOTHING, b))
    case IndirectAck => Some(Parsed(NOTHING, b))
    case _ =>
      var lead := GetLead(kind, b);
      if lead.None? then None else Some(Parsed(NOTHING.(lead := Some(lead.value.value)), lead.value.rest))
  }

  ghost predicate ContentsFit(c: Contents) {
    && |c.digest| <= U32_MAX && |c.wants| <= U32_MAX && |c.members| <= U32_MAX && |c.metadata| <= U32_MAX
    && (forall i :: 0 <= i < |c.digest| ==> DigestFits(c.digest[i]))
    && (forall i :: 0 <= i < |c.wants| ==> WantFits(c.wants[i]))
    && (forall i :: 0 <= i < |c.members| ==> MemberFits(c.members[i]))
    && (forall i :: 0 <= i < |c.metadata| ==> MetaFits(c.metadata[i]))
    && (c.lead.Some? ==> LeadFits(c.lead.value))
  }

  /** Only the parts the kind uses are filled, and an election frame carries its own body. */
  predicate Proper(kind: Kind, c: Contents) {
    && (kind != Digest ==> c.digest == [] && c.metadata == [])
    && (kind != DeltaRequest ==> c.wants == [])
    && (kind != Delta ==> c.members == [])
    && (if Election(kind) then c.lead.Some? && KindOfLead(c.lead.value) == kind else c.lead == None)
  }

  lemma {:induction false} ContentsReadBack(kind: Kind, c: Contents, rest: Bytes)
    requires ContentsFit(c) && Proper(kind, c)
    ensures GetContents(kind, PutContents(kind, c) + rest) == Some(Parsed(c, rest))
  {
    RecordsInvert();
    match kind
    case Digest =>
      var digest, metadata := PutList(PutDigest, c.digest), PutList(PutMeta, c.metadata);
      ListReadsBack(PutMeta, GetMeta, c.metadata, rest);
      ListReadsBack(PutDigest, GetDigest, c.digest, metadata + rest);
      Splits(digest, metadata, rest);
    case DeltaRequest => ListReadsBack(PutWant, GetWant, c.wants, rest);
    case Delta =>
      forall i | 0 <= i < |c.members| ensures Inverts(PutMember, GetMember, c.members[i]) {
        MemberInverts(c.members[i]);
      }
      ListReadsBack(PutMember, GetMember, c.members, rest);
    case Ping => Splits([], rest, []);
    case Ack => Splits([], rest, []);
    case PingReq => Splits([], rest, []);
    case IndirectAck => Splits([], rest, []);
    case _ => LeadReadsBack(c.lead.value, rest);
  }

  lemma {:induction false} LeadIsExact(kind: Kind, b: Bytes)
    requires Election(kind) && GetLead(kind, b).Some?
    ensures b == PutLead(GetLead(kind, b).value.value) + GetLead(kind, b).value.rest
  {
    var epoch, rest := b[..8], b[8..];
    assert b == epoch + rest;
    var l := GetLead(kind, b).value;
    if kind == LeadState {
      OptionalIsExact(rest);
      Splits(epoch, PutOptional(l.value.believed), l.rest);
    } else {
      var first := GetName(rest).value;
      FieldIsExact(Text, rest);
      if kind == LeadGrant {
        FieldIsExact(Text, first.rest);
        Splits(PutSized(first.value), PutSized(l.value.granter), l.rest);
        Splits(epoch, PutSized(first.value) + PutSized(l.value.granter), l.rest);
      } else {
        Splits(epoch, PutSized(first.value), l.rest);
      }
    }
  }

  lemma {:induction false} ContentsAreExact(kind: Kind, b: Bytes)
    requires GetContents(kind, b).Some?
    ensures b == PutContents(kind, GetContents(kind, b).value.value) + GetContents(kind, b).value.rest
  {
    var p := GetContents(kind, b).value;
    RecordsAreExact();
    match kind
    case Digest =>
      ListIsExact(PutDigest, GetDigest, b);
      ListIsExact(PutMeta, GetMeta, GetList(GetDigest, b).value.rest);
      Splits(PutList(PutDigest, p.value.digest), PutList(PutMeta, p.value.metadata), p.rest);
    case DeltaRequest => ListIsExact(PutWant, GetWant, b);
    case Delta =>
      MembersAreExact();
      ListIsExact(PutMember, GetMember, b);
    case Ping => Splits([], b, []);
    case Ack => Splits([], b, []);
    case PingReq => Splits([], b, []);
    case IndirectAck => Splits([], b, []);
    case _ => LeadIsExact(kind, b);
  }

  lemma {:induction false} ContentsAreFit(kind: Kind, b: Bytes)
    requires GetContents(kind, b).Some?
    ensures ContentsFit(GetContents(kind, b).value.value) && Proper(kind, GetContents(kind, b).value.value)
  {
    match kind
    case Digest =>
      var rest := GetList(GetDigest, b).value.rest;
      AllAre(GetDigest, DigestFits, GetU32(b[..4]), b[4..]);
      AllAre(GetMeta, MetaFits, GetU32(rest[..4]), rest[4..]);
    case DeltaRequest => AllAre(GetWant, WantFits, GetU32(b[..4]), b[4..]);
    case Delta => AllAre(GetMember, MemberFits, GetU32(b[..4]), b[4..]);
    case _ =>
  }

  // ---- Frames ----

  ghost predicate WellFormed(f: Frame) {
    Name(f.group) && (f.target.Some? ==> Name(f.target.value)) && ContentsFit(ContentsOf(f)) && Proper(f.kind, ContentsOf(f))
  }

  function Encoded(f: Frame): Bytes {
    [FRAME_VERSION, KindByte(f.kind)] + (PutSized(f.group) + (PutOptional(f.target) + PutContents(f.kind, ContentsOf(f))))
  }

  function Decoded(b: Bytes): Option<Frame> {
    if |b| < 2 || b[0] != FRAME_VERSION || KindOf(b[1]).None? then None
    else
      var kind := KindOf(b[1]).value;
      var group := GetName(b[2..]);
      if group.None? then None
      else
        var target := GetOptional(group.value.rest);
        if target.None? then None
        else
          var c := GetContents(kind, target.value.rest);
          if c.None? then None
          else
            var v := c.value.value;
            Some(Frame(kind, group.value.value, target.value.value, v.digest, v.wants, v.members, v.metadata, v.lead))
  }

  /** The group alone, for routing. */
  function PeekGroup(b: Bytes): Option<Bytes> {
    if |b| < 2 || b[0] != FRAME_VERSION then None
    else
      var group := GetName(b[2..]);
      if group.None? then None else Some(group.value.value)
  }

  lemma {:induction false} KindReadsBack(k: Kind)
    ensures KindOf(KindByte(k)) == Some(k)
  {
  }

  /** Bytes whose fields follow one another as `f`'s do are taken for `f`. */
  lemma {:induction false} FieldsReadBack(f: Frame, b: Bytes, rest: Bytes)
    requires WellFormed(f) && |b| >= 2 && b[0] == FRAME_VERSION && b[1] == KindByte(f.kind)
    requires b[2..] == PutSized(f.group) + (PutOptional(f.target) + (PutContents(f.kind, ContentsOf(f)) + rest))
    ensures Decoded(b) == Some(f)
  {
    var target, contents := PutOptional(f.target), PutContents(f.kind, ContentsOf(f));
    KindReadsBack(f.kind);
    ContentsReadBack(f.kind, ContentsOf(f), rest);
    OptionalReadsBack(f.target, contents + rest);
    NameReadsBack(f.group, target + (contents + rest));
  }

  lemma {:induction false} FrameReadsBack(f: Frame, rest: Bytes)
    requires WellFormed(f)
    ensures Decoded(Encoded(f) + rest) == Some(f)
  {
    var head: Bytes := [FRAME_VERSION, KindByte(f.kind)];
    var group, target, contents := PutSized(f.group), PutOptional(f.target), PutContents(f.kind, ContentsOf(f));
    Splits(target, contents, rest);
    Splits(group, target + contents, rest);
    Splits(head, group + (target + contents), rest);
    Splits(head, group + (target + contents) + rest, []);
    var b := Encoded(f) + rest;
    assert b[..2] == head;
    FieldsReadBack(f, b, rest);
  }

  lemma {:induction false} DecodedIsWellFormed(b: Bytes)
    requires Decoded(b).Some?
    ensures WellFormed(Decoded(b).value)
  {
    var target := GetOptional(GetName(b[2..]).value.rest).value;
    ContentsAreFit(KindOf(b[1]).value, target.rest);
  }

  /** A frame comes back from in front of anything exactly when it is well formed. */
  lemma {:induction false} RoundTripsIffWellFormed(f: Frame, rest: Bytes)
    ensures Decoded(Encoded(f) + rest) == Some(f) <==> WellFormed(f)
  {
    if WellFormed(f) {
      FrameReadsBack(f, rest);
    }
    if Decoded(Encoded(f) + rest) == Some(f) {
      DecodedIsWellFormed(Encoded(f) + rest);
    }
  }

  /** The fields of an accepted frame follow one another in its bytes. */
  lemma {:induction false} AcceptedFields(b: Bytes, f: Frame) returns (rest: Bytes)
    requires Decoded(b) == Some(f)
    ensures |b| >= 2 && b[0] == FRAME_VERSION && b[1] == KindByte(f.kind)
    ensures b[2..] == PutSized(f.group) + (PutOptional(f.target) + (PutContents(f.kind, ContentsOf(f)) + rest))
  {
    var group := GetName(b[2..]).value;
    var target := GetOptional(group.rest).value;
    rest := GetContents(f.kind, target.rest).value.rest;
    FieldIsExact(Text, b[2..]);
    OptionalIsExact(group.rest);
    ContentsAreExact(f.kind, target.rest);
    KindWritesBack(b[1]);
  }

  /** Whatever is accepted begins with the very bytes of the frame it is taken for. */
  lemma {:induction false} AcceptedBytesBeginWithTheFrame(b: Bytes)
    requires Decoded(b).Some?
    ensures Encoded(Decoded(b).value) <= b
  {
    var f := Decoded(b).value;
    var rest := AcceptedFields(b, f);
    var contents := PutContents(f.kind, ContentsOf(f));
    Splits(PutOptional(f.target), contents, rest);
    Splits(PutSized(f.group), PutOptional(f.target) + contents, rest);
    Splits([b[0], b[1]], PutSized(f.group) + (PutOptional(f.target) + contents), rest);
    assert b == [b[0], b[1]] + b[2..];
  }

  lemma {:induction false} KindWritesBack(x: byte)
    requires KindOf(x).Some?
    ensures KindByte(KindOf(x).value) == x
  {
  }

  /** Routing by a peek never sends a decodable frame to another group. */
  lemma {:induction false} PeekAgreesWithDecode(b: Bytes)
    requires Decoded(b).Some?
    ensures PeekGroup(b) == Some(Decoded(b).value.group)
  {
  }

  // ---- Size accounting ----

  function StrLen(s: Bytes): nat { 4 + |s| }
  function DigestLen(d: NodeDigest): nat { StrLen(d.node) + 8 + 1 + 8 + 8 }
  function WantLen(w: NodeWant): nat { StrLen(w.node) + 8 }
  function MetaLen(m: MetaDelta): nat { StrLen(m.key) + 8 + StrLen(m.writer) + 4 + |m.value| }
  function EntryLen(e: EntryDelta): nat { StrLen(e.key) + 8 + 8 + 1 + 4 + |e.value| }
  function MemberHeaderLen(node: NodeId): nat { StrLen(node) + 8 + 1 + 8 + 4 }
  function DeltaFrameOverhead(group: Bytes): nat { 1 + 1 + StrLen(group) + 1 + 4 }

  function MemberLen(m: MemberDelta): nat {
    MemberHeaderLen(m.node) + Sum(EntryLen, m.entries, |m.entries|)
  }

  lemma {:induction false} RecordLengths()
    ensures forall d :: |PutDigest(d)| == DigestLen(d)
    ensures forall w :: |PutWant(w)| == WantLen(w)
    ensures forall m :: |PutMeta(m)| == MetaLen(m)
    ensures forall e :: |PutEntry(e)| == EntryLen(e)
  {
    forall d ensures |PutDigest(d)| == DigestLen(d) {
      RowOf5(DIGEST, DigestRow(d));
    }
    forall w ensures |PutWant(w)| == WantLen(w) {
      RowOf2(WANT, WantRow(w));
    }
    forall m ensures |PutMeta(m)| == MetaLen(m) {
      RowOf4(META, MetaRow(m));
    }
    forall e ensures |PutEntry(e)| == EntryLen(e) {
      RowOf5(ENTRY, EntryRow(e));
    }
  }

  lemma {:induction false} RowOf2(s: Schema, r: Row)
    requires RowShaped(s, r) && |s| == 2
    ensures |PutRow(s, r)| == |PutField(s[0], r[0])| + |PutField(s[1], r[1])|
  {
    assert PutRow(s[1..], r[1..]) == PutField(s[1], r[1]) + PutRow(s[1..][1..], r[1..][1..]);
  }

  lemma {:induction false} RowOf4(s: Schema, r: Row)
    requires RowShaped(s, r) && |s| == 4
    ensures |PutRow(s, r)| == |PutField(s[0], r[0])| + |PutField(s[1], r[1])| + |PutField(s[2], r[2])| + |PutField(s[3], r[3])|
  {
    assert PutRow(s[1..], r[1..]) == PutField(s[1], r[1]) + PutRow(s[1..][1..], r[1..][1..]);
    RowOf2(s[1..][1..], r[1..][1..]);
  }

  lemma {:induction false} RowOf5(s: Schema, r: Row)
    requires RowShaped(s, r) && |s| == 5
    ensures |PutRow(s, r)| == |PutField(s[0], r[0])| + |PutField(s[1], r[1])| + |PutField(s[2], r[2])| + |PutField(s[3], r[3])| + |PutField(s[4], r[4])|
  {
    RowOf4(s[1..], r[1..]);
  }

  lemma {:induction false} MemberLength(m: MemberDelta)
    ensures |PutMember(m)| == MemberLen(m)
  {
    RowOf4(MEMBER, MemberRow(m));
    RecordLengths();
    AllLength(PutEntry, EntryLen, m.entries, |m.entries|);
  }

  /** The engine's running size is the size of the frame it will send. */
  lemma {:induction false} DeltaLength(f: Frame)
    requires f.kind == Delta && f.target == None
    ensures |Encoded(f)| == DeltaFrameOverhead(f.group) + Sum(MemberLen, f.members, |f.members|)
  {
    forall i | 0 <= i < |f.members| ensures |PutMember(f.members[i])| == MemberLen(f.members[i]) {
      MemberLength(f.members[i]);
    }
    AllLength(PutMember, MemberLen, f.members, |f.members|);
  }

  // ---- The buffer and the cursor ----

  /** Appends a frame to an empty buffer, list by list. */
  method Encode(f: Frame) returns (out: Bytes)
    ensures out == Encoded(f)
  {
    var body: Bytes := [];
    match f.kind {
      case Digest =>
        body := EncodeList(PutDigest, f.digest);
        var metadata := EncodeList(PutMeta, f.metadata);
        body := body + metadata;
      case DeltaRequest => body := EncodeList(PutWant, f.wants);
      case Delta => body := EncodeList(PutMember, f.members);
      case Ping =>
      case Ack =>
      case PingReq =>
      case IndirectAck =>
      case _ =>
        if f.lead.Some? {
          body := PutLead(f.lead.value);
        }
    }
    out := [FRAME_VERSION, KindByte(f.kind)] + (PutSized(f.group) + (PutOptional(f.target) + body));
  }

  /** Reads the body of a frame whose prefix has been read. */
  method DecodeContents(kind: Kind, b: Bytes) returns (r: Option<Parsed<Contents>>)
    ensures r == GetContents(kind, b)
  {
    match kind {
      case Digest =>
        var digest := DecodeList(GetDigest, b);
        if digest.None? {
          return None;
        }
        var metadata := DecodeList(GetMeta, digest.value.rest);
        if metadata.None? {
          return None;
        }
        return Some(Parsed(NOTHING.(digest := digest.value.value, metadata := metadata.value.value), metadata.value.rest));
      case DeltaRequest =>
        var wants := DecodeList(GetWant, b);
        return if wants.None? then None else Some(Parsed(NOTHING.(wants := wants.value.value), wants.value.rest));
      case Delta =>
        var members := DecodeList(GetMember, b);
        return if members.None? then None else Some(Parsed(NOTHING.(members := members.value.value), members.value.rest));
      case _ =>
        return GetContents(kind, b);
    }
  }

  method Decode(b: Bytes) returns (f: Option<Frame>)
    ensures f == Decoded(b)
  {
    if |b| < 2 || b[0] != FRAME_VERSION {
      return None;
    }
    var kind := KindOf(b[1]);
    if kind.None? {
      return None;
    }
    var group := GetName(b[2..]);
    if group.None? {
      return None;
    }
    var target := GetOptional(group.value.rest);
    if target.None? {
      return None;
    }
    var c := DecodeContents(kind.value, target.value.rest);
    if c.None? {
      return None;
    }
    var v := c.value.value;
    return Some(Frame(kind.value, group.value.value, target.value.value, v.digest, v.wants, v.members, v.metadata, v.lead));
  }
}
