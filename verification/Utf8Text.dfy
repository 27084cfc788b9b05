/** What the codecs' text check means: the bytes are characters, one after the other. */
module Utf8Text {
  import opened Common
  import opened FieldCodec

  /** A Unicode scalar value: no surrogate, nothing above U+10FFFF. */
  type Scalar = c: int | 0 <= c < 0xD800 || 0xE000 <= c <= 0x10FFFF

  /** The bytes of one character: one to four of them, six bits in each but the first. */
  function PutScalar(c: Scalar): Bytes {
    if c < 0x80 then [c]
    else if c < 0x800 then [0xC0 + c / 64, 0x80 + c % 64]
    else if c < 0x1_0000 then [0xE0 + c / 64 / 64, 0x80 + c / 64 % 64, 0x80 + c % 64]
    else [0xF0 + c / 64 / 64 / 64, 0x80 + c / 64 / 64 % 64, 0x80 + c / 64 % 64, 0x80 + c % 64]
  }

  function PutScalars(cs: seq<Scalar>): Bytes {
    if cs == [] then [] else PutScalar(cs[0]) + PutScalars(cs[1..])
  }

  lemma {:induction false} ScalarThenText(c: Scalar, rest: Bytes)
    ensures Utf8(PutScalar(c) + rest) <==> Utf8(rest)
  {
    var b := PutScalar(c) + rest;
    assert b[|PutScalar(c)|..] == rest;
  }

  lemma {:induction false} ScalarsAreText(cs: seq<Scalar>)
    ensures Utf8(PutScalars(cs))
  {
    if cs != [] {
      ScalarsAreText(cs[1..]);
      ScalarThenText(cs[0], PutScalars(cs[1..]));
    }
  }

  lemma {:induction false} SixBits(high: nat, low: nat)
    requires low < 64
    ensures (high * 64 + low) / 64 == high && (high * 64 + low) % 64 == low
  {
  }

  lemma {:induction false} ThreeBytes(a: nat, b: nat, d: nat) returns (c: Scalar)
    requires a < 16 && b < 64 && d < 64 && (a == 0 ==> b >= 32) && (a == 13 ==> b < 32)
    ensures PutScalar(c) == [0xE0 + a, 0x80 + b, 0x80 + d]
  {
    SixBits(a * 64 + b, d);
    SixBits(a, b);
    c := (a * 64 + b) * 64 + d;
  }

  lemma {:induction false} FourBytes(a: nat, b: nat, d: nat, e: nat) returns (c: Scalar)
    requires a <= 4 && b < 64 && d < 64 && e < 64 && (a == 0 ==> b >= 16) && (a == 4 ==> b < 16)
    ensures PutScalar(c) == [0xF0 + a, 0x80 + b, 0x80 + d, 0x80 + e]
  {
    SixBits((a * 64 + b) * 64 + d, e);
    SixBits(a * 64 + b, d);
    SixBits(a, b);
    c := ((a * 64 + b) * 64 + d) * 64 + e;
  }

  /** The character text begins with. */
  lemma {:induction false} FirstScalar(b: Bytes) returns (c: Scalar, rest: Bytes)
    requires b != [] && Utf8(b)
    ensures b == PutScalar(c) + rest && Utf8(rest) && |rest| < |b|
  {
    if b[0] < 0x80 {
      c, rest := b[0], b[1..];
    } else if b[0] <= 0xDF {
      c, rest := (b[0] - 0xC0) as int * 64 + (b[1] - 0x80), b[2..];
    } else if b[0] <= 0xEF {
      c := ThreeBytes(b[0] - 0xE0, b[1] - 0x80, b[2] - 0x80);
      rest := b[3..];
    } else {
      c := FourBytes(b[0] - 0xF0, b[1] - 0x80, b[2] - 0x80, b[3] - 0x80);
      rest := b[4..];
    }
  }

  /** The check accepts exactly the encodings of sequences of characters. */
  lemma {:induction false} TextIsScalars(b: Bytes)
    ensures Utf8(b) <==> exists cs :: PutScalars(cs) == b
  {
    if Utf8(b) {
      var cs := Scalars(b);
    }
    if cs :| PutScalars(cs) == b {
      ScalarsAreText(cs);
    }
  }

  lemma {:induction false} Scalars(b: Bytes) returns (cs: seq<Scalar>)
    requires Utf8(b)
    ensures PutScalars(cs) == b
    decreases |b|
  {
    if b == [] {
      cs := [];
    } else {
      var c, rest := FirstScalar(b);
      var others := Scalars(rest);
      cs := [c] + others;
      assert cs[1..] == others;
    }
  }
}
