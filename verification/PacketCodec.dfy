/** Application packets on the wire: a strict codec, inverse in both directions. */
module PacketCodec {
  import opened Common
  import opened ByteCodec
  import opened FieldCodec
  import opened Receipts

  /** "GNA1". */
  const MAGIC: Bytes := [0x47, 0x4E, 0x41, 0x31]

  const HEADER: nat := 21
  const METADATA: nat := 10

  datatype Packet =
    | Data(id: Bytes, delivery: Delivery, horizonMs: u64, group: Option<Bytes>, payload: Bytes)
    | Acknowledgement(id: Bytes, outcome: Outcome)

  datatype Result<+T, +E> = Ok(value: T) | Err(error: E)

  datatype DecodeError =
    | Truncated | UnknownVersion | UnknownKind(kind: byte) | UnknownDelivery(delivery: byte) | HorizonMismatch
    | UnknownGroupFlag(flag: byte) | EmptyGroup | GroupNotUtf8 | TooLarge | UnknownOutcome(outcome: byte)
    | UnknownRejection(reason: byte) | TrailingBytes

  datatype EncodeError = PayloadTooLarge | GroupNameLength | RetryHorizonMismatch

  function DeliveryByte(d: Delivery): byte {
    match d
    case BestEffort => 0
    case Delivered => 1
    case Applied => 2
  }

  function DeliveryOf(b: byte): Option<Delivery> {
    match b
    case 0 => Some(BestEffort)
    case 1 => Some(Delivered)
    case 2 => Some(Applied)
    case _ => None
  }

  function ReasonByte(r: Rejection): byte {
    match r
    case Full => 0
    case Closed => 1
    case Permission => 2
    case Invalid => 3
    case Interrupted => 4
    case Other => 5
  }

  function ReasonOf(b: byte): Option<Rejection> {
    match b
    case 0 => Some(Full)
    case 1 => Some(Closed)
    case 2 => Some(Permission)
    case 3 => Some(Invalid)
    case 4 => Some(Interrupted)
    case 5 => Some(Other)
    case _ => None
  }

  function PutOutcome(o: Outcome): Bytes {
    match o
    case WasAccepted => [0]
    case WasApplied => [1]
    case WasRejected(reason) => [2, ReasonByte(reason)]
  }

  function PutMetadata(delivery: Delivery, grouped: bool, horizonMs: u64): (r: Bytes)
    ensures |r| == METADATA
  {
    [DeliveryByte(delivery), if grouped then 1 else 0] + BigEndian(horizonMs, 8)
  }

  function PutGroup(group: Option<Bytes>): Bytes
    requires group.Some? ==> |group.value| <= 255
  {
    match group
    case None => []
    case Some(name) => [|name|] + name
  }

  /** The header every packet starts with. */
  function PutHead(kind: byte, id: Bytes): Bytes {
    MAGIC + [kind] + id
  }

  function Encoded(p: Packet): Result<Bytes, EncodeError> {
    match p
    case Acknowledgement(id, outcome) => Ok(PutHead(1, id) + PutOutcome(outcome))
    case Data(id, delivery, horizonMs, group, payload) =>
      if |payload| > U32_MAX then Err(PayloadTooLarge)
      else if (delivery == BestEffort) != (horizonMs == 0) then Err(RetryHorizonMismatch)
      else if group.Some? && !(0 < |group.value| <= 255) then Err(GroupNameLength)
      else Ok(PutHead(0, id) + (PutMetadata(delivery, group.Some?, horizonMs) + (PutGroup(group) + payload)))
  }

  /** What a packet's field types rule out beforehand: identities of other than sixteen bytes, names that are not UTF-8. */
  predicate WellTyped(p: Packet) {
    |p.id| == 16 && (p.Data? && p.group.Some? ==> Utf8(p.group.value))
  }

  function DecodedOutcome(b: Bytes): Result<Outcome, DecodeError> {
    if b == [] then Err(Truncated)
    else if b[0] > 2 then Err(UnknownOutcome(b[0]))
    else if b[0] < 2 then
      if |b| > 1 then Err(TrailingBytes) else Ok(if b[0] == 0 then WasAccepted else WasApplied)
    else if |b| < 2 then Err(Truncated)
    else if ReasonOf(b[1]).None? then Err(UnknownRejection(b[1]))
    else if |b| > 2 then Err(TrailingBytes)
    else Ok(WasRejected(ReasonOf(b[1]).value))
  }

  /** The group name if one is flagged, and the payload behind it. */
  function DecodedGroup(flag: byte, b: Bytes): Result<Parsed<Option<Bytes>>, DecodeError> {
    if flag == 0 then Ok(Parsed(None, b))
    else if flag != 1 then Err(UnknownGroupFlag(flag))
    else if b == [] then Err(Truncated)
    else
      var end: nat := 1 + b[0] as nat;
      if end == 1 then Err(EmptyGroup)
      else if |b| < end then Err(Truncated)
      else if !Utf8(b[1..end]) then Err(GroupNotUtf8)
      else Ok(Parsed(Some(b[1..end]), b[end..]))
  }

  function DecodedData(id: Bytes, b: Bytes): Result<Packet, DecodeError> {
    if |b| < METADATA then Err(Truncated)
    else if DeliveryOf(b[0]).None? then Err(UnknownDelivery(b[0]))
    else
      var delivery := DeliveryOf(b[0]).value;
      Widths();
      var horizonMs: u64 := FromBigEndian(b[2..METADATA]);
      if (delivery == BestEffort) != (horizonMs == 0) then Err(HorizonMismatch)
      else
        var group := DecodedGroup(b[1], b[METADATA..]);
        if group.Err? then Err(group.error)
        else if |group.value.rest| > U32_MAX then Err(TooLarge)
        else Ok(Data(id, delivery, horizonMs, group.value.value, group.value.rest))
  }

  function Decoded(b: Bytes): Result<Packet, DecodeError> {
    if |b| < HEADER then Err(Truncated)
    else if b[..4] != MAGIC then Err(UnknownVersion)
    else
      var id, body := b[5..HEADER], b[HEADER..];
      if b[4] == 0 then DecodedData(id, body)
      else if b[4] == 1 then
        var outcome := DecodedOutcome(body);
        if outcome.Err? then Err(outcome.error) else Ok(Acknowledgement(id, outcome.value))
      else Err(UnknownKind(b[4]))
  }

  // ---- Encoding, then decoding ----

  lemma {:induction false} HeadReadsBack(kind: byte, id: Bytes, body: Bytes)
    requires |id| == 16
    ensures var b := PutHead(kind, id) + body;
            |b| >= HEADER && b[..4] == MAGIC && b[4] == kind && b[5..HEADER] == id && b[HEADER..] == body
  {
  }

  lemma {:induction false} OutcomeReadsBack(o: Outcome)
    ensures DecodedOutcome(PutOutcome(o)) == Ok(o)
  {
  }

  lemma {:induction false} GroupReadsBack(group: Option<Bytes>, payload: Bytes)
    requires group.Some? ==> 0 < |group.value| <= 255 && Utf8(group.value)
    ensures DecodedGroup(if group.Some? then 1 else 0, PutGroup(group) + payload) == Ok(Parsed(group, payload))
  {
    match group
    case None => Splits([], payload, []);
    case Some(name) =>
      Splits([|name|], name, payload);
      Splits([|name|], name + payload, []);
      Splits(name, payload, []);
      var b := [|name|] + (name + payload);
      assert b[1..1 + |name|] == b[1..][..|name|] && b[1 + |name|..] == b[1..][|name|..];
  }

  lemma {:induction false} MetadataReadsBack(delivery: Delivery, grouped: bool, horizonMs: u64, rest: Bytes)
    ensures var b := PutMetadata(delivery, grouped, horizonMs) + rest;
            && DeliveryOf(b[0]) == Some(delivery) && b[1] == (if grouped then 1 else 0)
            && FromBigEndian(b[2..METADATA]) == horizonMs && b[METADATA..] == rest
  {
    var b := PutMetadata(delivery, grouped, horizonMs) + rest;
    Widths();
    BigEndianReadsBack(horizonMs, 8);
    assert b[2..METADATA] == BigEndian(horizonMs, 8) && b[METADATA..] == rest;
  }

  lemma {:induction false} PacketReadsBack(p: Packet)
    requires WellTyped(p) && Encoded(p).Ok?
    ensures Decoded(Encoded(p).value) == Ok(p)
  {
    match p
    case Acknowledgement(id, outcome) =>
      HeadReadsBack(1, id, PutOutcome(outcome));
      OutcomeReadsBack(outcome);
    case Data(id, delivery, horizonMs, group, payload) =>
      var rest := PutGroup(group) + payload;
      HeadReadsBack(0, id, PutMetadata(delivery, group.Some?, horizonMs) + rest);
      MetadataReadsBack(delivery, group.Some?, horizonMs, rest);
      GroupReadsBack(group, payload);
  }

  // ---- Decoding, then encoding ----

  lemma {:induction false} HeadWritesBack(b: Bytes)
    requires |b| >= HEADER && b[..4] == MAGIC
    ensures b == PutHead(b[4], b[5..HEADER]) + b[HEADER..]
  {
  }

  lemma {:induction false} OutcomeWritesBack(b: Bytes)
    requires DecodedOutcome(b).Ok?
    ensures PutOutcome(DecodedOutcome(b).value) == b
  {
  }

  lemma {:induction false} GroupWritesBack(flag: byte, b: Bytes)
    requires DecodedGroup(flag, b).Ok?
    ensures var g := DecodedGroup(flag, b).value;
            && (g.value.Some? ==> 0 < |g.value.value| <= 255 && Utf8(g.value.value))
            && flag == (if g.value.Some? then 1 else 0)
            && b == PutGroup(g.value) + g.rest
  {
  }

  lemma {:induction false} MetadataWritesBack(b: Bytes)
    requires |b| >= METADATA && DeliveryOf(b[0]).Some? && b[1] <= 1
    ensures FromBigEndian(b[2..METADATA]) <= U64_MAX
    ensures b == PutMetadata(DeliveryOf(b[0]).value, b[1] == 1, FromBigEndian(b[2..METADATA])) + b[METADATA..]
  {
    Widths();
    BigEndianWritesBack(b[2..METADATA]);
    assert b == [b[0], b[1]] + b[2..METADATA] + b[METADATA..];
  }

  /** Every accepted byte string is the encoding of the packet it is taken for. */
  lemma {:induction false} AcceptedBytesAreCanonical(b: Bytes)
    requires Decoded(b).Ok?
    ensures WellTyped(Decoded(b).value) && Encoded(Decoded(b).value) == Ok(b)
  {
    HeadWritesBack(b);
    var body := b[HEADER..];
    if b[4] == 1 {
      OutcomeWritesBack(body);
    } else {
      GroupWritesBack(body[1], body[METADATA..]);
      MetadataWritesBack(body);
    }
  }

  /** What each malformed acknowledgement is refused for. */
  lemma {:induction false} BadAcknowledgementsAreNamed(b: Bytes)
    requires |b| >= HEADER && b[..4] == MAGIC && b[4] == 1
    ensures |b| == 21 ==> Decoded(b) == Err(Truncated)
    ensures |b| > 21 && b[21] > 2 ==> Decoded(b) == Err(UnknownOutcome(b[21]))
    ensures |b| > 22 && b[21] < 2 ==> Decoded(b) == Err(TrailingBytes)
    ensures |b| == 22 && b[21] == 2 ==> Decoded(b) == Err(Truncated)
    ensures |b| > 22 && b[21] == 2 && b[22] > 5 ==> Decoded(b) == Err(UnknownRejection(b[22]))
    ensures |b| > 23 && b[21] == 2 && b[22] <= 5 ==> Decoded(b) == Err(TrailingBytes)
  {
    var body := b[HEADER..];
    if |b| > 22 {
      assert body[1] == b[22];
    }
  }

  /** What each malformed data packet is refused for, up to its group. */
  lemma {:induction false} BadDataIsNamed(b: Bytes)
    requires |b| >= HEADER && b[..4] == MAGIC && b[4] == 0
    ensures |b| < 31 ==> Decoded(b) == Err(Truncated)
    ensures |b| >= 31 && b[21] > 2 ==> Decoded(b) == Err(UnknownDelivery(b[21]))
    ensures |b| >= 31 && b[21] <= 2 && (b[21] == 0) != (FromBigEndian(b[23..31]) == 0) ==> Decoded(b) == Err(HorizonMismatch)
    ensures |b| >= 31 && b[21] <= 2 && (b[21] == 0) == (FromBigEndian(b[23..31]) == 0) && b[22] > 1
            ==> Decoded(b) == Err(UnknownGroupFlag(b[22]))
  {
    var body := b[HEADER..];
    if |b| >= 31 {
      assert body[0] == b[21] && body[1] == b[22] && body[2..METADATA] == b[23..31];
    }
  }

  /** What a malformed group name is refused for. */
  lemma {:induction false} BadGroupIsNamed(b: Bytes)
    requires |b| >= 31 && b[..4] == MAGIC && b[4] == 0 && b[21] <= 2 && b[22] == 1
    requires (b[21] == 0) == (FromBigEndian(b[23..31]) == 0)
    ensures |b| == 31 ==> Decoded(b) == Err(Truncated)
    ensures |b| > 31 && b[31] == 0 ==> Decoded(b) == Err(EmptyGroup)
    ensures |b| > 31 && 0 < b[31] as nat && |b| < 32 + b[31] as nat ==> Decoded(b) == Err(Truncated)
    ensures |b| > 31 && 0 < b[31] as nat && |b| >= 32 + b[31] as nat && !Utf8(b[32..32 + b[31] as nat]) ==> Decoded(b) == Err(GroupNotUtf8)
  {
    var body := b[HEADER..];
    var named := b[31..];
    assert body[0] == b[21] && body[1] == b[22] && body[2..METADATA] == b[23..31] && body[METADATA..] == named;
    if |b| > 31 && |b| >= 32 + b[31] as nat {
      assert named[1..1 + b[31] as nat] == b[32..32 + b[31] as nat];
    }
  }

  /** Bytes that are no packet at all. */
  lemma {:induction false} BadHeadersAreNamed(b: Bytes)
    ensures |b| < 21 ==> Decoded(b) == Err(Truncated)
    ensures |b| >= 21 && b[..4] != MAGIC ==> Decoded(b) == Err(UnknownVersion)
    ensures |b| >= 21 && b[..4] == MAGIC && b[4] > 1 ==> Decoded(b) == Err(UnknownKind(b[4]))
  {
  }

  /** Exactly the representable packets have an encoding, and each comes back from it. */
  lemma {:induction false} RoundTripsIffRepresentable(p: Packet)
    requires WellTyped(p)
    ensures Encoded(p).Ok? <==> p.Acknowledgement? || (|p.payload| <= U32_MAX && (p.delivery == BestEffort <==> p.horizonMs == 0)
                                                       && (p.group.Some? ==> 0 < |p.group.value| <= 255))
    ensures Encoded(p).Ok? ==> Decoded(Encoded(p).value) == Ok(p)
  {
    if Encoded(p).Ok? {
      PacketReadsBack(p);
    }
  }
}
