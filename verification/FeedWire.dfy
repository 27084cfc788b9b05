/** The gossiped ring frame of a write feed and its strict byte form. */
module FeedWire {
  import opened Common
  import opened ByteCodec

  /** Which life of a writer, and which write of that life, counted from one. */
  datatype WriteToken = WriteToken(epoch: u64, at: int)

  /** Epoch-major order: any token of a newer life is above every token of an older one. */
  predicate Before(a: WriteToken, b: WriteToken) {
    a.epoch < b.epoch || (a.epoch == b.epoch && a.at < b.at)
  }

  predicate AtMost(a: WriteToken, b: WriteToken) {
    a == b || Before(a, b)
  }

  /** A window of one life: its newest writes, numbered upwards from `firstSeq`, with the seal if it has one. */
  datatype Frame = Frame(epoch: u64, firstSeq: u64, keys: seq<Bytes>, sealed: bool)

  /** One past the frame's newest write. */
  function End(f: Frame): nat {
    f.firstSeq + |f.keys|
  }

  predicate Representable(keys: seq<Bytes>) {
    |keys| <= U32_MAX && forall i :: 0 <= i < |keys| ==> |keys[i]| <= U32_MAX
  }

  /** What a decoder accepts: representable counts and lengths, and a possible ring window. */
  predicate WellFormed(f: Frame) {
    && Representable(f.keys)
    && f.firstSeq >= 1
    && (f.keys == [] ==> f.firstSeq == 1)
    && End(f) + (if f.sealed then 1 else 0) <= U64_MAX
  }

  function PutKeys(keys: seq<Bytes>): Bytes {
    if keys == [] then [] else PutBytes(keys[0]) + PutKeys(keys[1..])
  }

  function Flag(b: bool): byte {
    if b then 1 else 0
  }

  function Encoded(f: Frame): Bytes {
    PutU64(f.epoch) + PutU64(f.firstSeq) + PutU32(Clamp(|f.keys|)) + PutKeys(f.keys) + [Flag(f.sealed)]
  }

  type Keys = Parsed<seq<Bytes>>

  /** `count` length-prefixed keys off the front of `b`. */
  function GetKeys(b: Bytes, count: nat): (r: Option<Keys>)
    requires count <= U32_MAX
    ensures r.Some? ==> |r.value.value| == count && Representable(r.value.value)
  {
    if count == 0 then Some(Parsed([], b))
    else
      var key := GetBytes(b);
      if key.None? then None else Prepend([key.value.value], GetKeys(key.value.rest, count - 1))
  }

  function Prepend(keys: seq<Bytes>, got: Option<Keys>): Option<Keys> {
    if got.None? then None else Some(Parsed(keys + got.value.value, got.value.rest))
  }

  lemma {:induction false} PrependSnoc(keys: seq<Bytes>, key: Bytes, got: Option<Keys>)
    ensures Prepend([], got) == got
    ensures Prepend(keys + [key], got) == Prepend(keys, Prepend([key], got))
  {
    if got.Some? {
      assert [] + got.value.value == got.value.value;
      assert keys + [key] + got.value.value == keys + ([key] + got.value.value);
    }
  }

  lemma {:induction false} PutKeysCons(key: Bytes, keys: seq<Bytes>, rest: Bytes)
    ensures PutKeys([key] + keys) + rest == PutBytes(key) + (PutKeys(keys) + rest)
  {
  }

  lemma {:induction false} GetKeysIsExact(b: Bytes, count: nat)
    requires count <= U32_MAX && GetKeys(b, count).Some?
    ensures b == PutKeys(GetKeys(b, count).value.value) + GetKeys(b, count).value.rest
  {
    if count > 0 {
      var key := GetBytes(b).value;
      var tail := GetKeys(key.rest, count - 1).value;
      BytesWriteBack(b);
      GetKeysIsExact(key.rest, count - 1);
      PutKeysCons(key.value, tail.value, tail.rest);
    }
  }

  function Decoded(b: Bytes): Option<Frame> {
    if |b| < 20 then None
    else
      var epoch, first, count := GetU64(b[..8]), GetU64(b[8..16]), GetU32(b[16..20]);
      var got := GetKeys(b[20..], count);
      if got.None? || |got.value.rest| != 1 || got.value.rest[0] > 1 then None
      else
        var f := Frame(epoch, first, got.value.value, got.value.rest[0] == 1);
        if WellFormed(f) then Some(f) else None
  }

  lemma {:induction false} KeysReadBack(keys: seq<Bytes>, rest: Bytes)
    requires Representable(keys)
    ensures GetKeys(PutKeys(keys) + rest, |keys|) == Some(Parsed(keys, rest))
  {
    if keys == [] {
      assert PutKeys(keys) + rest == rest;
    } else {
      var tail := PutKeys(keys[1..]) + rest;
      KeysReadBack(keys[1..], rest);
      assert [keys[0]] + keys[1..] == keys;
      PutKeysCons(keys[0], keys[1..], rest);
      BytesReadBack(keys[0], tail);
    }
  }

  lemma {:induction false} EncodedSlices(f: Frame)
    requires Representable(f.keys)
    ensures var b := Encoded(f);
            && |b| >= 20 && b[..8] == PutU64(f.epoch) && b[8..16] == PutU64(f.firstSeq) && b[16..20] == PutU32(|f.keys|)
            && b[20..] == PutKeys(f.keys) + [Flag(f.sealed)]
  {
  }

  /** A representable frame decodes to itself if it is well formed, and to nothing otherwise. */
  lemma {:induction false} EncodedDecodes(f: Frame)
    requires Representable(f.keys)
    ensures Decoded(Encoded(f)) == if WellFormed(f) then Some(f) else None
  {
    EncodedSlices(f);
    U64ReadsBack(f.epoch);
    U64ReadsBack(f.firstSeq);
    U32ReadsBack(|f.keys|);
    KeysReadBack(f.keys, [Flag(f.sealed)]);
  }

  /** A frame survives its own encoding exactly when it is well formed. */
  lemma {:induction false} RoundTripsIffWellFormed(f: Frame)
    ensures Decoded(Encoded(f)) == Some(f) <==> WellFormed(f)
  {
    if WellFormed(f) {
      EncodedDecodes(f);
    }
  }

  /** A decoder refuses windows no ring can have: starting at zero, empty but not at the start, or ending past the last number. */
  lemma {:induction false} ImpossibleWindowsAreRefused(f: Frame)
    requires Representable(f.keys)
    requires f.firstSeq == 0 || (f.keys == [] && f.firstSeq != 1) || f.firstSeq + |f.keys| + (if f.sealed then 1 else 0) > U64_MAX
    ensures Decoded(Encoded(f)).None?
  {
    EncodedDecodes(f);
  }

  lemma {:induction false} HeadSlices(b: Bytes, body: Bytes, last: Bytes)
    requires |b| >= 20 && b[20..] == body + last
    ensures b[..8] + b[8..16] + b[16..20] + body + last == b
  {
  }

  /** The decoder is strict: whatever it accepts is the encoding of the frame it returns. */
  lemma {:induction false} AcceptedBytesAreCanonical(b: Bytes)
    requires Decoded(b).Some?
    ensures Encoded(Decoded(b).value) == b && WellFormed(Decoded(b).value)
  {
    var f := Decoded(b).value;
    var count := GetU32(b[16..20]);
    var got := GetKeys(b[20..], count).value;
    assert |f.keys| == count;
    GetKeysIsExact(b[20..], count);
    assert got.rest == [Flag(f.sealed)];
    HeadSlices(b, PutKeys(f.keys), got.rest);
  }

  lemma {:induction false} PutKeysSnoc(keys: seq<Bytes>, key: Bytes)
    ensures PutKeys(keys + [key]) == PutKeys(keys) + PutBytes(key)
  {
    if keys == [] {
      assert keys + [key] == [key];
      assert [key][1..] == [];
    } else {
      assert (keys + [key])[1..] == keys[1..] + [key];
      PutKeysSnoc(keys[1..], key);
    }
  }

  method Encode(f: Frame) returns (out: Bytes)
    ensures out == Encoded(f)
  {
    out := PutU64(f.epoch) + PutU64(f.firstSeq) + PutU32(Clamp(|f.keys|));
    ghost var head := out;
    for i := 0 to |f.keys|
      invariant out == head + PutKeys(f.keys[..i])
    {
      out := out + PutBytes(f.keys[i]);
      assert f.keys[..i + 1] == f.keys[..i] + [f.keys[i]];
      PutKeysSnoc(f.keys[..i], f.keys[i]);
    }
    assert f.keys[..|f.keys|] == f.keys;
    out := out + [Flag(f.sealed)];
  }

  /** The key loop of `Decode`: reads `count` keys of `b` from `start` on. */
  method DecodeKeys(b: Bytes, start: nat, count: nat) returns (got: Option<Keys>)
    requires start <= |b| && count <= U32_MAX
    ensures got == GetKeys(b[start..], count)
  {
    ghost var whole := GetKeys(b[start..], count);
    var offset: nat := start;
    var keys: seq<Bytes> := [];
    var left: nat := count;
    PrependSnoc([], [], whole);
    while left > 0
      invariant offset <= |b| && left <= count
      invariant whole == Prepend(keys, GetKeys(b[offset..], left))
    {
      var key := GetBytes(b[offset..]);
      if key.None? {
        return None;
      }
      PrependSnoc(keys, key.value.value, GetKeys(key.value.rest, left - 1));
      keys := keys + [key.value.value];
      offset := |b| - |key.value.rest|;
      assert b[offset..] == key.value.rest;
      left := left - 1;
    }
    got := Some(Parsed(keys, b[offset..]));
    assert keys + [] == keys;
  }

  method Decode(b: Bytes) returns (frame: Option<Frame>)
    ensures frame == Decoded(b)
  {
    if |b| < 20 {
      return None;
    }
    var epoch, first, count := GetU64(b[..8]), GetU64(b[8..16]), GetU32(b[16..20]);
    var got := DecodeKeys(b, 20, count);
    if got.None? || |got.value.rest| != 1 || got.value.rest[0] > 1 {
      return None;
    }
    var f := Frame(epoch, first, got.value.value, got.value.rest[0] == 1);
    if first == 0 || (f.keys == [] && first != 1) || End(f) + (if f.sealed then 1 else 0) > U64_MAX {
      return None;
    }
    return Some(f);
  }
}
