/** Per-link fragmentation: the fragment header, the cut into chunks, and which links may carry frames. */
module Fragments {
  import opened Common
  import opened ByteCodec

  /** Bytes of a fragment header on the wire. */
  const FRAGMENT: nat := 28

  datatype Header = Header(magic: Bytes, id: Bytes, index: u16, count: u16, total: u32)

  predicate WellSized(h: Header) {
    |h.magic| == 4 && |h.id| == 16
  }

  function PutHeader(h: Header): (r: Bytes)
    requires WellSized(h)
    ensures |r| == FRAGMENT
  {
    h.magic + h.id + BigEndian(h.index, 2) + BigEndian(h.count, 2) + BigEndian(h.total, 4)
  }

  function GetHeader(b: Bytes): (h: Header)
    requires |b| >= FRAGMENT
    ensures WellSized(h)
  {
    Widths();
    Header(b[..4], b[4..20], FromBigEndian(b[20..22]), FromBigEndian(b[22..24]), FromBigEndian(b[24..28]))
  }

  lemma {:induction false} HeaderReadsBack(h: Header, body: Bytes)
    requires WellSized(h)
    ensures GetHeader(PutHeader(h) + body) == h && (PutHeader(h) + body)[FRAGMENT..] == body
  {
    var index, count, total := BigEndian(h.index, 2), BigEndian(h.count, 2), BigEndian(h.total, 4);
    FieldsStandApart(h.magic, h.id, index, count, total, body);
    Widths();
    BigEndianReadsBack(h.index, 2);
    BigEndianReadsBack(h.count, 2);
    BigEndianReadsBack(h.total, 4);
  }

  lemma {:induction false} FieldsStandApart(magic: Bytes, id: Bytes, index: Bytes, count: Bytes, total: Bytes, body: Bytes)
    requires |magic| == 4 && |id| == 16 && |index| == 2 && |count| == 2 && |total| == 4
    ensures var b := magic + id + index + count + total + body;
            b[..4] == magic && b[4..20] == id && b[20..22] == index && b[22..24] == count && b[24..28] == total && b[28..] == body
  {
  }

  lemma {:induction false} HeaderWritesBack(b: Bytes)
    requires |b| >= FRAGMENT
    ensures PutHeader(GetHeader(b)) == b[..FRAGMENT]
  {
    BigEndianWritesBack(b[20..22]);
    BigEndianWritesBack(b[22..24]);
    BigEndianWritesBack(b[24..28]);
  }

  // ---- Cutting a frame ----

  /** The `i`th chunk of a frame: all are `chunk` bytes long but perhaps the last. */
  function ChunkAt(frame: Bytes, chunk: nat, i: nat): Bytes
    requires chunk > 0 && i * chunk <= |frame|
  {
    frame[i * chunk..Min((i + 1) * chunk, |frame|)]
  }

  lemma {:induction false} Quotient(a: nat, b: nat)
    requires b > 0
    ensures a == a / b * b + a % b && 0 <= a % b < b
  {
  }

  lemma {:induction false} ProductAtLeast(a: nat, b: nat)
    requires b > 0
    ensures a <= a * b
  {
  }

  lemma {:induction false} CountBounds(len: nat, chunk: nat)
    requires chunk > 0
    ensures len <= DivCeil(len, chunk) * chunk < len + chunk
    ensures len > 0 ==> 1 <= DivCeil(len, chunk) <= len
  {
    var n := DivCeil(len, chunk);
    Quotient(len + chunk - 1, chunk);
    if n > 0 {
      assert (n - 1) * chunk == n * chunk - chunk;
      ProductAtLeast(n - 1, chunk);
    }
  }

  lemma {:induction false} Stepwise(m: nat, n: nat, chunk: nat)
    requires n < m && chunk > 0
    ensures n * chunk + chunk <= m * chunk
  {
    assert m * chunk == n * chunk + (m - n) * chunk;
    ProductAtLeast(chunk, m - n);
  }

  lemma {:induction false} ChunkStarts(len: nat, chunk: nat, i: nat)
    requires chunk > 0 && i < DivCeil(len, chunk)
    ensures i * chunk < len
  {
    CountBounds(len, chunk);
    Stepwise(DivCeil(len, chunk), i, chunk);
  }

  /** The chunks up to the `n`th, put together again. */
  function Joined(frame: Bytes, chunk: nat, n: nat): Bytes
    requires chunk > 0 && n <= DivCeil(|frame|, chunk)
  {
    if n == 0 then []
    else
      ChunkStarts(|frame|, chunk, n - 1);
      Joined(frame, chunk, n - 1) + ChunkAt(frame, chunk, n - 1)
  }

  lemma {:induction false} ChunksJoin(frame: Bytes, chunk: nat, n: nat)
    requires chunk > 0 && n <= DivCeil(|frame|, chunk)
    ensures Joined(frame, chunk, n) == frame[..Min(n * chunk, |frame|)]
  {
    if n > 0 {
      ChunkStarts(|frame|, chunk, n - 1);
      ChunksJoin(frame, chunk, n - 1);
      assert (n - 1) * chunk < |frame|;
      assert n * chunk == (n - 1) * chunk + chunk;
    }
  }

  /** All chunks together are the frame. */
  lemma {:induction false} AllChunksJoin(frame: Bytes, chunk: nat)
    requires chunk > 0
    ensures Joined(frame, chunk, DivCeil(|frame|, chunk)) == frame
  {
    var n := DivCeil(|frame|, chunk);
    ChunksJoin(frame, chunk, n);
    CountBounds(|frame|, chunk);
    assert frame[..|frame|] == frame;
  }

  /** How a frame is cut for one link. */
  datatype Cut = Cut(frame: Bytes, chunk: nat, count: nat, id: Bytes, magic: Bytes)

  function CutFor(frame: Bytes, mtu: nat, id: Bytes, magic: Bytes, seal: nat): Cut
    requires mtu > FRAGMENT + seal
  {
    var chunk := mtu - FRAGMENT - seal;
    Cut(frame, chunk, DivCeil(|frame|, chunk), id, magic)
  }

  /** What the admission checks establish of every frame sent over the link. */
  predicate Representable(c: Cut) {
    && c.chunk > 0 && |c.id| == 16 && |c.magic| == 4
    && c.count == DivCeil(|c.frame|, c.chunk) <= U16_MAX && |c.frame| <= U32_MAX
  }

  function HeaderAt(c: Cut, i: nat): (h: Header)
    requires Representable(c) && i < c.count
    ensures WellSized(h)
  {
    Header(c.magic, c.id, i, c.count, |c.frame|)
  }

  function BodyAt(c: Cut, i: nat): (b: Bytes)
    requires Representable(c) && i < c.count
    ensures 0 < |b| <= c.chunk
  {
    ChunkStarts(|c.frame|, c.chunk, i);
    assert (i + 1) * c.chunk == i * c.chunk + c.chunk;
    ChunkAt(c.frame, c.chunk, i)
  }

  function PacketAt(c: Cut, i: nat): Bytes
    requires Representable(c) && i < c.count
  {
    PutHeader(HeaderAt(c, i)) + BodyAt(c, i)
  }

  /** Yields the fragments of one frame in order. */
  class FragmentIterator {
    const cut: Cut
    var index: nat

    constructor (frame: Bytes, mtu: nat, id: Bytes, magic: Bytes, seal: nat)
      requires mtu > FRAGMENT + seal
      requires Representable(CutFor(frame, mtu, id, magic, seal))
      ensures cut == CutFor(frame, mtu, id, magic, seal) && index == 0
    {
      var chunk := mtu - FRAGMENT - seal;
      cut := Cut(frame, chunk, DivCeil(|frame|, chunk), id, magic);
      index := 0;
    }

    method Next() returns (packet: Option<Bytes>)
      requires Representable(cut) && index <= cut.count
      modifies this
      ensures packet == if old(index) == cut.count then None else Some(PacketAt(cut, old(index)))
      ensures index == if old(index) == cut.count then cut.count else old(index) + 1
    {
      if index == cut.count {
        return None;
      }
      ChunkStarts(|cut.frame|, cut.chunk, index);
      var offset := index * cut.chunk;
      assert (index + 1) * cut.chunk == offset + cut.chunk;
      var part := cut.frame[offset..Min(offset + cut.chunk, |cut.frame|)];
      var header := Header(cut.magic, cut.id, index, cut.count, |cut.frame|);
      packet := Some(PutHeader(header) + part);
      index := index + 1;
    }
  }

  // ---- Which links may carry frames ----

  /** The router-wide bounds; `seal` is what a cluster secret appends to every envelope and fragment. */
  datatype Router = Router(maxFrame: nat, seal: nat, maxFragments: u16)

  predicate ValidRouter(r: Router) {
    0 < r.maxFrame && r.maxFrame + r.seal <= U32_MAX && 0 < r.maxFragments
  }

  /** The MTU and fragment-count checks made when a link is attached. */
  predicate AdmitsMtu(r: Router, mtu: nat) {
    && FRAGMENT + r.seal + 1 <= mtu <= r.maxFrame
    && DivCeil(r.maxFrame + r.seal, mtu - FRAGMENT - r.seal) <= r.maxFragments
  }

  lemma {:induction false} CountIsMonotone(a: nat, b: nat, chunk: nat)
    requires a <= b && chunk > 0
    ensures DivCeil(a, chunk) <= DivCeil(b, chunk)
  {
    CountBounds(a, chunk);
    CountBounds(b, chunk);
    var m, n := DivCeil(a, chunk), DivCeil(b, chunk);
    if m > n {
      Stepwise(m, n, chunk);
      assert false;
    }
  }

  /** A cut that a receiver with the same router bounds will take, every sealed fragment within the MTU. */
  predicate Carriable(r: Router, mtu: nat, frame: Bytes)
    requires mtu > FRAGMENT + r.seal
  {
    var chunk := mtu - FRAGMENT - r.seal;
    && |frame| <= r.maxFrame + r.seal
    && 1 <= DivCeil(|frame|, chunk) <= r.maxFragments
    && DivCeil(|frame|, chunk) <= |frame|
  }

  /** The admission check passes exactly for the MTUs that carry every legal frame. */
  lemma {:induction false} AdmissionIsExact(r: Router, mtu: nat)
    requires ValidRouter(r) && FRAGMENT + r.seal + 1 <= mtu <= r.maxFrame
    ensures AdmitsMtu(r, mtu) <==> forall frame: Bytes :: 0 < |frame| <= r.maxFrame + r.seal ==> Carriable(r, mtu, frame)
  {
    var chunk := mtu - FRAGMENT - r.seal;
    if AdmitsMtu(r, mtu) {
      forall frame: Bytes | 0 < |frame| <= r.maxFrame + r.seal ensures Carriable(r, mtu, frame) {
        CountBounds(|frame|, chunk);
        CountIsMonotone(|frame|, r.maxFrame + r.seal, chunk);
      }
    } else {
      var longest: Bytes := seq(r.maxFrame + r.seal, _ => 0);
      assert !Carriable(r, mtu, longest);
    }
  }

  /** Over an admitted link every sealed fragment of every legal frame fits the MTU. */
  lemma {:induction false} FragmentsFitTheMtu(r: Router, mtu: nat, frame: Bytes, id: Bytes, magic: Bytes, i: nat)
    requires ValidRouter(r) && AdmitsMtu(r, mtu) && 0 < |frame| <= r.maxFrame + r.seal && |id| == 16 && |magic| == 4
    ensures var c := CutFor(frame, mtu, id, magic, r.seal);
            Representable(c) && (i < c.count ==> FRAGMENT < |PacketAt(c, i)| && |PacketAt(c, i)| + r.seal <= mtu)
  {
    CountIsMonotone(|frame|, r.maxFrame + r.seal, mtu - FRAGMENT - r.seal);
  }
}
