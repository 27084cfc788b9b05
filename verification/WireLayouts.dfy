/** Where each field of a wire format lies in its bytes, and in which byte order. */
module WireLayouts {
  import opened Common
  import opened ByteCodec
  import opened FieldCodec
  import opened Receipts
  import FeedWire
  import Acks
  import Fragments
  import PacketCodec
  import GossipWire

  // ---- Byte orders ----

  function At(b: Bytes, i: nat): nat
    requires i < |b|
  {
    b[i]
  }

  /** Words are written low byte first. */
  lemma {:induction false} LowByteFirst(b: Bytes)
    requires |b| == 4
    ensures GetU32(b) == At(b, 0) + 256 * (At(b, 1) + 256 * (At(b, 2) + 256 * At(b, 3)))
  {
    assert b[1..][1..] == b[2..] && b[2..][1..] == b[3..] && b[3..][1..] == [];
    assert FromLittleEndian(b[3..]) == At(b, 3) && FromLittleEndian(b[2..]) == At(b, 2) + 256 * At(b, 3);
    assert FromLittleEndian(b[1..]) == At(b, 1) + 256 * FromLittleEndian(b[2..]);
  }

  lemma {:induction false} LowHalfFirst(b: Bytes)
    requires |b| == 8
    ensures GetU64(b) == GetU32(b[..4]) + 0x1_0000_0000 * GetU32(b[4..])
  {
    LittleEndianAppends(b[..4], b[4..]);
    assert b[..4] + b[4..] == b;
    Widths();
  }

  lemma {:induction false} LittleEndianAppends(a: Bytes, b: Bytes)
    ensures FromLittleEndian(a + b) == FromLittleEndian(a) + Pow256(|a|) * FromLittleEndian(b)
  {
    if a == [] {
      assert a + b == b;
    } else {
      LittleEndianAppends(a[1..], b);
      assert (a + b)[1..] == a[1..] + b;
      Carry(Pow256(|a| - 1), FromLittleEndian(b));
    }
  }

  lemma {:induction false} Carry(m: nat, n: nat)
    ensures 256 * (m * n) == (256 * m) * n
  {
  }

  /** The big-endian bytes of a number are its little-endian bytes the other way round. */
  lemma {:induction false} BigEndianReverses(n: nat, k: nat, i: nat)
    requires i < k
    ensures BigEndian(n, k)[i] == LittleEndian(n, k)[k - 1 - i]
  {
    if i < k - 1 {
      BigEndianReverses(n / 256, k - 1, i);
    }
  }

  // ---- The feed frame ----

  lemma {:induction false} FeedHeadLayout(f: FeedWire.Frame)
    ensures var b := FeedWire.Encoded(f);
            && |b| >= 21 && b[..8] == PutU64(f.epoch) && b[8..16] == PutU64(f.firstSeq) && b[16..20] == PutU32(Clamp(|f.keys|))
            && b[20..] == FeedWire.PutKeys(f.keys) + [FeedWire.Flag(f.sealed)] && b[|b| - 1] == FeedWire.Flag(f.sealed)
  {
  }

  lemma {:induction false} FirstKeyLayout(b: Bytes, key: Bytes, rest: Bytes)
    requires b == PutBytes(key) + rest
    ensures |b| >= 4 + |key| && b[..4] == PutU32(Clamp(|key|)) && b[4..4 + |key|] == key
  {
  }

  lemma {:induction false} SliceOfTail(b: Bytes, from: nat, i: nat, j: nat)
    requires from + i <= from + j <= |b|
    ensures b[from + i..from + j] == b[from..][i..j]
  {
  }

  /** Epoch, first sequence number, count, length-prefixed keys from the first on, seal flag last. */
  lemma {:induction false} FeedFrameLayout(f: FeedWire.Frame)
    ensures var b := FeedWire.Encoded(f);
            && |b| >= 21
            && GetU64(b[..8]) == f.epoch && GetU64(b[8..16]) == f.firstSeq && GetU32(b[16..20]) == Min(|f.keys|, U32_MAX)
            && (f.keys == [] ==> |b| == 21)
            && b[|b| - 1] == if f.sealed then 1 else 0
  {
    FeedHeadLayout(f);
    U64ReadsBack(f.epoch);
    U64ReadsBack(f.firstSeq);
    U32ReadsBack(Clamp(|f.keys|));
  }

  lemma {:induction false} FeedKeyLayout(f: FeedWire.Frame)
    requires f.keys != []
    ensures var b, n := FeedWire.Encoded(f), |f.keys[0]|;
            |b| >= 24 + n && GetU32(b[20..24]) == Min(n, U32_MAX) && b[24..24 + n] == f.keys[0]
  {
    var b, key, rest := FeedWire.Encoded(f), f.keys[0], FeedWire.PutKeys(f.keys[1..]);
    FeedHeadLayout(f);
    Splits(PutBytes(key), rest, [FeedWire.Flag(f.sealed)]);
    FirstKeyLayout(b[20..], key, rest + [FeedWire.Flag(f.sealed)]);
    U32ReadsBack(Clamp(|key|));
    SliceOfTail(b, 20, 0, 4);
    SliceOfTail(b, 20, 4, 4 + |key|);
  }

  // ---- The ledger ----

  /** Length-prefixed writer, epoch, sequence number. */
  lemma {:induction false} MarkLayout(x: Acks.Mark)
    requires Acks.FitsWire(x)
    ensures var b, n := Acks.PutMark(x), |x.writer|;
            && |b| == n + 20 && GetU32(b[..4]) == Min(n, U32_MAX) && b[4..4 + n] == x.writer
            && GetU64(b[4 + n..12 + n]) == x.token.epoch && GetU64(b[12 + n..]) == x.token.at
  {
    var b, n := Acks.PutMark(x), |x.writer|;
    U32ReadsBack(Clamp(n));
    U64ReadsBack(x.token.epoch);
    U64ReadsBack(x.token.at);
    assert b[..4] == PutU32(Clamp(n)) && b[4..4 + n] == x.writer;
    assert b[4 + n..12 + n] == PutU64(x.token.epoch) && b[12 + n..] == PutU64(x.token.at);
  }

  // ---- The fragment header ----

  /** Magic, identity, then index, count and total length, high byte first. */
  lemma {:induction false} FragmentHeaderLayout(h: Fragments.Header)
    requires Fragments.WellSized(h)
    ensures var b := Fragments.PutHeader(h);
            && b[..4] == h.magic && b[4..20] == h.id
            && 256 * At(b, 20) + At(b, 21) == h.index && 256 * At(b, 22) + At(b, 23) == h.count
            && 256 * (256 * (256 * At(b, 24) + At(b, 25)) + At(b, 26)) + At(b, 27) == h.total
  {
    var b := Fragments.PutHeader(h);
    Fragments.FieldsStandApart(h.magic, h.id, BigEndian(h.index, 2), BigEndian(h.count, 2), BigEndian(h.total, 4), []);
    assert b + [] == b;
    TwoBytes(h.index);
    TwoBytes(h.count);
    FourBytes(h.total);
    assert b[20..22][0] == b[20] && b[20..22][1] == b[21] && b[22..24][0] == b[22] && b[22..24][1] == b[23];
    assert b[24..28][0] == b[24] && b[24..28][1] == b[25] && b[24..28][2] == b[26] && b[24..28][3] == b[27];
  }

  lemma {:induction false} TwoBytes(n: u16)
    ensures var b := BigEndian(n, 2); 256 * At(b, 0) + At(b, 1) == n
  {
    assert BigEndian(n, 2) == BigEndian(n / 256, 1) + [n % 256] && BigEndian(n / 256, 1) == [n / 256 % 256];
  }

  lemma {:induction false} FourBytes(n: u32)
    ensures var b := BigEndian(n, 4); 256 * (256 * (256 * At(b, 0) + At(b, 1)) + At(b, 2)) + At(b, 3) == n
  {
    var x, y := n / 256, n / 256 / 256;
    assert BigEndian(n, 4) == BigEndian(x, 3) + [n % 256] && BigEndian(x, 3) == BigEndian(y, 2) + [x % 256];
    TwoBytes(y);
  }

  // ---- The application packet ----

  /** Magic, kind, identity, delivery, group flag, horizon high byte first, then group and payload. */
  lemma {:induction false} DataLayout(p: PacketCodec.Packet)
    requires p.Data? && |p.id| == 16 && PacketCodec.Encoded(p).Ok?
    ensures var b := PacketCodec.Encoded(p).value;
            && |b| >= 31 && b[..4] == [0x47, 0x4E, 0x41, 0x31] && b[4] == 0 && b[5..21] == p.id
            && b[21] == (match p.delivery case BestEffort => 0 case Delivered => 1 case Applied => 2)
            && b[22] == (if p.group.Some? then 1 else 0) && FromBigEndian(b[23..31]) == p.horizonMs
            && (p.group.None? ==> b[31..] == p.payload)
            && (p.group.Some? ==> |b| >= 32 + |p.group.value| && b[31] == |p.group.value|
                                  && b[32..32 + |p.group.value|] == p.group.value && b[32 + |p.group.value|..] == p.payload)
  {
    var b := PacketCodec.Encoded(p).value;
    var tail := PacketCodec.PutGroup(p.group) + p.payload;
    var body := PacketCodec.PutMetadata(p.delivery, p.group.Some?, p.horizonMs) + tail;
    PacketCodec.HeadReadsBack(0, p.id, body);
    PacketCodec.MetadataReadsBack(p.delivery, p.group.Some?, p.horizonMs, tail);
    assert b[21] == body[0] && b[22] == body[1] && b[23..31] == body[2..10] && b[31..] == body[10..];
    if p.group.Some? {
      var n := |p.group.value|;
      assert tail[0] == n && tail[1..1 + n] == p.group.value && tail[1 + n..] == p.payload;
      assert b[31] == tail[0] && b[32..32 + n] == tail[1..1 + n] && b[32 + n..] == tail[1 + n..];
    } else {
      assert tail == p.payload;
    }
  }

  /** Magic, kind, identity, outcome, and a rejection's reason. */
  lemma {:induction false} AcknowledgementLayout(p: PacketCodec.Packet)
    requires p.Acknowledgement? && |p.id| == 16
    ensures PacketCodec.Encoded(p).Ok?
    ensures var b := PacketCodec.Encoded(p).value;
            && |b| >= 22 && b[..4] == [0x47, 0x4E, 0x41, 0x31] && b[4] == 1 && b[5..21] == p.id
            && b[21] == (match p.outcome case WasAccepted => 0 case WasApplied => 1 case WasRejected(_) => 2)
            && (match p.outcome
                case WasRejected(reason) =>
                  && |b| == 23
                  && b[22] == (match reason case Full => 0 case Closed => 1 case Permission => 2 case Invalid => 3
                               case Interrupted => 4 case Other => 5)
                case _ => |b| == 22)
  {
    var outcome := PacketCodec.PutOutcome(p.outcome);
    PacketCodec.HeadReadsBack(1, p.id, outcome);
    var b := PacketCodec.Encoded(p).value;
    assert b[21..] == outcome && b[21] == outcome[0];
  }

  // ---- The gossip frame ----

  /** Version, kind, length-prefixed group, optional target behind a presence byte, contents. */
  lemma {:induction false} GossipFrameLayout(f: GossipWire.Frame)
    requires |f.group| <= U32_MAX
    ensures var b, n := GossipWire.Encoded(f), |f.group|;
            && |b| >= 7 + n && b[0] == 1
            && b[1] == (match f.kind case Digest => 1 case Ping => 2 case Ack => 3 case PingReq => 4 case IndirectAck => 5
                        case DeltaRequest => 6 case Delta => 7 case LeadClaim => 8 case LeadGrant => 9 case LeadState => 10
                        case LeadResign => 11)
            && GetU32(b[2..6]) == n && b[6..6 + n] == f.group
            && b[6 + n] == (if f.target.Some? then 1 else 0)
            && (f.target.None? ==> b[7 + n..] == GossipWire.PutContents(f.kind, GossipWire.ContentsOf(f)))
  {
    var b, n := GossipWire.Encoded(f), |f.group|;
    ShortLengthsStay(n);
    U32ReadsBack(n);
    var tail := PutOptional(f.target) + GossipWire.PutContents(f.kind, GossipWire.ContentsOf(f));
    assert b[2..] == PutSized(f.group) + tail;
    assert b[2..6] == b[2..][..4] == PutU32(n) && b[6..6 + n] == b[2..][4..4 + n] == f.group;
    assert b[6 + n..] == b[2..][4 + n..] == tail;
    assert b[6 + n] == tail[0];
    if f.target.None? {
      assert b[7 + n..] == tail[1..];
    }
  }

  lemma {:induction false} FirstField(f: Field, schema: Schema, v: Value, row: Row)
    requires Shaped(f, v) && RowShaped(schema, row)
    ensures RowShaped([f] + schema, [v] + row) && PutRow([f] + schema, [v] + row) == PutField(f, v) + PutRow(schema, row)
  {
    assert ([f] + schema)[1..] == schema && ([v] + row)[1..] == row;
    forall i | 0 <= i < |[f] + schema| ensures Shaped(([f] + schema)[i], ([v] + row)[i]) {
      if i > 0 {
        assert Shaped(schema[i - 1], row[i - 1]);
      }
    }
  }

  lemma {:induction false} TwoFields(f: Field, g: Field, v: Value, w: Value)
    requires Shaped(f, v) && Shaped(g, w)
    ensures RowShaped([f, g], [v, w]) && PutRow([f, g], [v, w]) == PutField(f, v) + PutField(g, w)
  {
    FirstField(g, [], w, []);
    FirstField(f, [g], v, [w]);
    assert [g] + [] == [g] && [w] + [] == [w] && [f] + [g] == [f, g] && [v] + [w] == [v, w];
    assert PutField(g, w) + [] == PutField(g, w);
  }

  /** Node, incarnation, status, highest version, content hash. */
  lemma {:induction false} DigestLayout(d: GossipWire.NodeDigest)
    ensures GossipWire.PutDigest(d)
            == PutSized(d.node) + (PutU64(d.incarnation) + ([d.status] + (PutU64(d.maxVersion) + PutU64(d.contentHash))))
  {
    TwoFields(Word, Word, Num(d.maxVersion), Num(d.contentHash));
    FirstField(Byte, [Word, Word], Num(d.status), [Num(d.maxVersion), Num(d.contentHash)]);
    FirstField(Word, [Byte] + [Word, Word], Num(d.incarnation), [Num(d.status)] + [Num(d.maxVersion), Num(d.contentHash)]);
    FirstField(Text, [Word] + ([Byte] + [Word, Word]), Str(d.node),
               [Num(d.incarnation)] + ([Num(d.status)] + [Num(d.maxVersion), Num(d.contentHash)]));
    assert GossipWire.DIGEST == [Text] + ([Word] + ([Byte] + [Word, Word]));
    assert GossipWire.DigestRow(d)
        == [Str(d.node)] + ([Num(d.incarnation)] + ([Num(d.status)] + [Num(d.maxVersion), Num(d.contentHash)]));
  }

  /** Node, version held. */
  lemma {:induction false} WantLayout(w: GossipWire.NodeWant)
    ensures GossipWire.PutWant(w) == PutSized(w.node) + PutU64(w.haveVersion)
  {
    TwoFields(Text, Word, Str(w.node), Num(w.haveVersion));
  }

  /** Key, version, writer, value. */
  lemma {:induction false} MetaLayout(m: GossipWire.MetaDelta)
    ensures GossipWire.PutMeta(m) == PutSized(m.key) + (PutU64(m.version) + (PutSized(m.writer) + PutSized(m.value)))
  {
    TwoFields(Text, Text, Str(m.writer), Str(m.value));
    FirstField(Word, [Text, Text], Num(m.version), [Str(m.writer), Str(m.value)]);
    FirstField(Text, [Word] + [Text, Text], Str(m.key), [Num(m.version)] + [Str(m.writer), Str(m.value)]);
    assert GossipWire.META == [Text] + ([Word] + [Text, Text]);
    assert GossipWire.MetaRow(m) == [Str(m.key)] + ([Num(m.version)] + [Str(m.writer), Str(m.value)]);
  }

  /** Key, version, lifetime, tombstone flag, value. */
  lemma {:induction false} EntryLayout(e: GossipWire.EntryDelta)
    ensures GossipWire.PutEntry(e)
            == PutSized(e.key) + (PutU64(e.version) + (PutU64(e.ttlMs) + ([if e.tombstone then 1 else 0] + PutSized(e.value))))
  {
    var dead := Num(if e.tombstone then 1 else 0);
    TwoFields(Flag, Blob, dead, Str(e.value));
    FirstField(Word, [Flag, Blob], Num(e.ttlMs), [dead, Str(e.value)]);
    FirstField(Word, [Word] + [Flag, Blob], Num(e.version), [Num(e.ttlMs)] + [dead, Str(e.value)]);
    FirstField(Text, [Word] + ([Word] + [Flag, Blob]), Str(e.key), [Num(e.version)] + ([Num(e.ttlMs)] + [dead, Str(e.value)]));
    assert GossipWire.ENTRY == [Text] + ([Word] + ([Word] + [Flag, Blob]));
    assert GossipWire.EntryRow(e) == [Str(e.key)] + ([Num(e.version)] + ([Num(e.ttlMs)] + [dead, Str(e.value)]));
  }

  /** Node, incarnation, status, highest version, then the entries. */
  lemma {:induction false} MemberLayout(m: GossipWire.MemberDelta)
    ensures GossipWire.PutMember(m)
            == PutSized(m.node) + (PutU64(m.incarnation) + ([m.status] + PutU64(m.maxVersion))) + PutList(GossipWire.PutEntry, m.entries)
  {
    TwoFields(Byte, Word, Num(m.status), Num(m.maxVersion));
    FirstField(Word, [Byte, Word], Num(m.incarnation), [Num(m.status), Num(m.maxVersion)]);
    FirstField(Text, [Word] + [Byte, Word], Str(m.node), [Num(m.incarnation)] + [Num(m.status), Num(m.maxVersion)]);
    assert GossipWire.MEMBER == [Text] + ([Word] + [Byte, Word]);
    assert GossipWire.MemberRow(m) == [Str(m.node)] + ([Num(m.incarnation)] + [Num(m.status), Num(m.maxVersion)]);
  }

  /** Election bodies: the epoch first, then the names, a grant's claimant before its granter. */
  lemma {:induction false} LeadLayout(l: GossipWire.LeadBody)
    ensures var b := GossipWire.PutLead(l);
            && |b| >= 8 && GetU64(b[..8]) == l.epoch
            && match l
               case Claim(_, claimant) => b[8..] == PutSized(claimant)
               case Grant(_, claimant, granter) =>
                 |b| >= 12 + |claimant| && b[12..12 + |claimant|] == claimant && b[12 + |claimant|..] == PutSized(granter)
               case State(_, host) => b[8..] == if host.Some? then [1] + PutSized(host.value) else [0]
               case Resign(_, host) => b[8..] == PutSized(host)
  {
    U64ReadsBack(l.epoch);
    var b := GossipWire.PutLead(l);
    assert b[..8] == PutU64(l.epoch);
    if l.Grant? {
      var n := |l.claimant|;
      SliceOfTail(b, 8, 4, 4 + n);
      assert b[8..] == PutSized(l.claimant) + PutSized(l.granter);
      assert b[8..][4..4 + n] == l.claimant && b[8..][4 + n..] == PutSized(l.granter);
      assert b[12 + n..] == b[8..][4 + n..];
    }
  }

  /** Contents that are lists begin with their count; a digest's members come before its metadata. */
  lemma {:induction false} ContentsLayout(kind: GossipWire.Kind, c: GossipWire.Contents)
    requires kind == GossipWire.Digest || kind == GossipWire.DeltaRequest || kind == GossipWire.Delta
    ensures var b := GossipWire.PutContents(kind, c);
            && |b| >= 4
            && GetU32(b[..4]) == Wrapped(if kind == GossipWire.Digest then |c.digest|
                                         else if kind == GossipWire.DeltaRequest then |c.wants| else |c.members|)
            && (kind == GossipWire.Digest && c.digest == [] ==> b[4..] == PutList(GossipWire.PutMeta, c.metadata))
  {
    var n := if kind == GossipWire.Digest then |c.digest| else if kind == GossipWire.DeltaRequest then |c.wants| else |c.members|;
    var b := GossipWire.PutContents(kind, c);
    U32ReadsBack(Wrapped(n));
    assert b[..4] == PutU32(Wrapped(n));
    if kind == GossipWire.Digest && c.digest == [] {
      assert PutList(GossipWire.PutDigest, c.digest) == PutU32(0);
      assert b[4..] == PutList(GossipWire.PutMeta, c.metadata);
    }
  }
}
