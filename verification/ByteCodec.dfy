/** Fixed-width unsigned integers as bytes, in both byte orders. */
module ByteCodec {
  import opened Common

  function Pow256(k: nat): (r: nat)
    ensures r > 0
  {
    if k == 0 then 1 else 256 * Pow256(k - 1)
  }

  /** The low `k` bytes of `n`, least significant first. */
  function LittleEndian(n: nat, k: nat): (r: Bytes)
    ensures |r| == k
  {
    if k == 0 then [] else [n % 256] + LittleEndian(n / 256, k - 1)
  }

  function FromLittleEndian(b: Bytes): (r: nat)
    ensures r < Pow256(|b|)
  {
    if b == [] then 0 else b[0] + 256 * FromLittleEndian(b[1..])
  }

  lemma {:induction false} LowByte(rest: nat, low: byte)
    ensures (256 * rest + low) % 256 == low && (256 * rest + low) / 256 == rest
  {
  }

  lemma {:induction false} LittleEndianReadsBack(n: nat, k: nat)
    requires n < Pow256(k)
    ensures FromLittleEndian(LittleEndian(n, k)) == n
  {
    if k > 0 {
      LittleEndianReadsBack(n / 256, k - 1);
      assert LittleEndian(n, k)[1..] == LittleEndian(n / 256, k - 1);
    }
  }

  lemma {:induction false} LittleEndianWritesBack(b: Bytes)
    ensures LittleEndian(FromLittleEndian(b), |b|) == b
  {
    if b != [] {
      var rest := FromLittleEndian(b[1..]);
      LittleEndianWritesBack(b[1..]);
      LowByte(rest, b[0]);
      assert [b[0]] + b[1..] == b;
    }
  }

  /** The low `k` bytes of `n`, most significant first. */
  function BigEndian(n: nat, k: nat): (r: Bytes)
    ensures |r| == k
  {
    if k == 0 then [] else BigEndian(n / 256, k - 1) + [n % 256]
  }

  function FromBigEndian(b: Bytes): (r: nat)
    ensures r < Pow256(|b|)
  {
    if b == [] then 0 else 256 * FromBigEndian(b[..|b| - 1]) + b[|b| - 1]
  }

  lemma {:induction false} BigEndianReadsBack(n: nat, k: nat)
    requires n < Pow256(k)
    ensures FromBigEndian(BigEndian(n, k)) == n
  {
    if k > 0 {
      BigEndianReadsBack(n / 256, k - 1);
      assert BigEndian(n, k)[..k - 1] == BigEndian(n / 256, k - 1);
    }
  }

  lemma {:induction false} BigEndianWritesBack(b: Bytes)
    ensures BigEndian(FromBigEndian(b), |b|) == b
  {
    if b != [] {
      var front, last := b[..|b| - 1], b[|b| - 1];
      BigEndianWritesBack(front);
      LowByte(FromBigEndian(front), last);
      assert BigEndian(FromBigEndian(b), |b|) == BigEndian(FromBigEndian(front), |b| - 1) + [last];
      assert front + [last] == b;
    }
  }

  lemma {:induction false} Widths()
    ensures Pow256(2) == U16_MAX + 1 && Pow256(4) == U32_MAX + 1 && Pow256(8) == U64_MAX + 1
  {
  }

  function PutU32(n: u32): (r: Bytes)
    ensures |r| == 4
  {
    LittleEndian(n, 4)
  }

  function PutU64(n: u64): (r: Bytes)
    ensures |r| == 8
  {
    LittleEndian(n, 8)
  }

  function GetU32(b: Bytes): (r: u32)
    requires |b| == 4
    ensures PutU32(r) == b
  {
    Widths();
    LittleEndianWritesBack(b);
    FromLittleEndian(b)
  }

  function GetU64(b: Bytes): (r: u64)
    requires |b| == 8
    ensures PutU64(r) == b
  {
    Widths();
    LittleEndianWritesBack(b);
    FromLittleEndian(b)
  }

  lemma {:induction false} U32ReadsBack(n: u32)
    ensures GetU32(PutU32(n)) == n
  {
    Widths();
    LittleEndianReadsBack(n, 4);
  }

  lemma {:induction false} U64ReadsBack(n: u64)
    ensures GetU64(PutU64(n)) == n
  {
    Widths();
    LittleEndianReadsBack(n, 8);
  }

  /** A value read off the front of a byte string, and what is left. */
  datatype Parsed<+T> = Parsed(value: T, rest: Bytes)

  function Clamp(n: nat): u32 {
    Min(n, U32_MAX)
  }

  /** A length-prefixed byte string; the prefix clamps at `u32::MAX`. */
  function PutBytes(b: Bytes): Bytes {
    PutU32(Clamp(|b|)) + b
  }

  function GetBytes(b: Bytes): (r: Option<Parsed<Bytes>>)
    ensures r.Some? ==> |r.value.value| <= U32_MAX && |r.value.rest| + 4 <= |b|
  {
    if |b| < 4 then None
    else
      var len: nat := GetU32(b[..4]);
      if |b| < 4 + len then None else Some(Parsed(b[4..4 + len], b[4 + len..]))
  }

  lemma {:induction false} BytesReadBack(x: Bytes, rest: Bytes)
    requires |x| <= U32_MAX
    ensures GetBytes(PutBytes(x) + rest) == Some(Parsed(x, rest))
  {
    var b := PutBytes(x) + rest;
    U32ReadsBack(|x|);
    assert b[..4] == PutU32(|x|);
    assert b[4..4 + |x|] == x;
    assert b[4 + |x|..] == rest;
  }

  lemma {:induction false} BytesWriteBack(b: Bytes)
    requires GetBytes(b).Some?
    ensures b == PutBytes(GetBytes(b).value.value) + GetBytes(b).value.rest
  {
  }
}
