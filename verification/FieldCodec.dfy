/** Records as rows of typed fields: how one is written, and that reading is its exact inverse. */
module FieldCodec {
  import opened Common
  import opened ByteCodec

  /** One byte, a 0/1 flag, a 64-bit word, a length-prefixed UTF-8 string, a length-prefixed byte string. */
  datatype Field = Byte | Flag | Word | Text | Blob

  datatype Value = Num(n: u64) | Str(s: Bytes)

  type Schema = seq<Field>
  type Row = seq<Value>

  predicate Continues(b: byte) {
    0x80 <= b <= 0xBF
  }

  /** Well-formed UTF-8: shortest forms only, no surrogates, nothing above U+10FFFF. */
  predicate Utf8(b: Bytes) {
    if b == [] then true
    else if b[0] < 0x80 then Utf8(b[1..])
    else if 0xC2 <= b[0] <= 0xDF then |b| >= 2 && Continues(b[1]) && Utf8(b[2..])
    else if 0xE0 <= b[0] <= 0xEF then
      && |b| >= 3 && Continues(b[1]) && Continues(b[2])
      && (b[0] == 0xE0 ==> b[1] >= 0xA0) && (b[0] == 0xED ==> b[1] <= 0x9F) && Utf8(b[3..])
    else if 0xF0 <= b[0] <= 0xF4 then
      && |b| >= 4 && Continues(b[1]) && Continues(b[2]) && Continues(b[3])
      && (b[0] == 0xF0 ==> b[1] >= 0x90) && (b[0] == 0xF4 ==> b[1] <= 0x8F) && Utf8(b[4..])
    else false
  }

  /** A value of the field's type. */
  predicate Shaped(f: Field, v: Value) {
    match f
    case Byte => v.Num? && v.n < 256
    case Flag => v.Num? && v.n <= 1
    case Word => v.Num?
    case Text => v.Str?
    case Blob => v.Str?
  }

  /** A value the wire can carry: its length fits the prefix, and text is text. */
  predicate Fits(f: Field, v: Value) {
    Shaped(f, v) && (v.Str? ==> |v.s| <= U32_MAX) && (f == Text ==> Utf8(v.s))
  }

  /** A length as the wire's 32 bits keep it. */
  function Wrapped(n: nat): u32 {
    n % (U32_MAX + 1)
  }

  function PutSized(s: Bytes): Bytes {
    PutU32(Wrapped(|s|)) + s
  }

  function PutField(f: Field, v: Value): Bytes
    requires Shaped(f, v)
  {
    match f
    case Byte => [v.n]
    case Flag => [v.n]
    case Word => PutU64(v.n)
    case Text => PutSized(v.s)
    case Blob => PutSized(v.s)
  }

  function GetField(f: Field, b: Bytes): (r: Option<Parsed<Value>>)
    ensures r.Some? ==> Fits(f, r.value.value)
  {
    match f
    case Byte => if b == [] then None else Some(Parsed(Num(b[0]), b[1..]))
    case Flag => if b == [] || b[0] > 1 then None else Some(Parsed(Num(b[0]), b[1..]))
    case Word => if |b| < 8 then None else Some(Parsed(Num(GetU64(b[..8])), b[8..]))
    case Text =>
      var s := GetBytes(b);
      if s.None? || !Utf8(s.value.value) then None else Some(Parsed(Str(s.value.value), s.value.rest))
    case Blob =>
      var s := GetBytes(b);
      if s.None? then None else Some(Parsed(Str(s.value.value), s.value.rest))
  }

  lemma {:induction false} Splits(a: Bytes, b: Bytes, c: Bytes)
    ensures (a + b)[..|a|] == a && (a + b)[|a|..] == b
    ensures (a + b) + c == a + (b + c)
  {
  }

  lemma {:induction false} ShortLengthsStay(n: nat)
    requires n <= U32_MAX
    ensures Wrapped(n) == n
  {
  }

  lemma {:induction false} SizedReadsBack(s: Bytes, rest: Bytes)
    requires |s| <= U32_MAX
    ensures GetBytes(PutSized(s) + rest) == Some(Parsed(s, rest))
  {
    ShortLengthsStay(|s|);
    BytesReadBack(s, rest);
  }

  lemma {:induction false} SizedIsExact(b: Bytes)
    requires GetBytes(b).Some?
    ensures b == PutSized(GetBytes(b).value.value) + GetBytes(b).value.rest
  {
    ShortLengthsStay(|GetBytes(b).value.value|);
    BytesWriteBack(b);
  }

  lemma {:induction false} NumberReadsBack(n: u64, rest: Bytes)
    ensures GetField(Word, PutU64(n) + rest) == Some(Parsed(Num(n), rest))
    ensures n < 256 ==> GetField(Byte, [n] + rest) == Some(Parsed(Num(n), rest))
    ensures n <= 1 ==> GetField(Flag, [n] + rest) == Some(Parsed(Num(n), rest))
  {
    var b := PutU64(n) + rest;
    U64ReadsBack(n);
    assert b[..8] == PutU64(n) && b[8..] == rest;
    if n < 256 {
      assert ([n] + rest)[1..] == rest;
    }
  }

  lemma {:induction false} FieldReadsBack(f: Field, v: Value, rest: Bytes)
    requires Fits(f, v)
    ensures GetField(f, PutField(f, v) + rest) == Some(Parsed(v, rest))
  {
    match v
    case Num(n) => NumberReadsBack(n, rest);
    case Str(s) => SizedReadsBack(s, rest);
  }

  /** Accepted bytes are the accepted value's own encoding, and the rest. */
  lemma {:induction false} FieldIsExact(f: Field, b: Bytes)
    requires GetField(f, b).Some?
    ensures b == PutField(f, GetField(f, b).value.value) + GetField(f, b).value.rest
  {
    match f
    case Byte => assert b == [b[0]] + b[1..];
    case Flag => assert b == [b[0]] + b[1..];
    case Word => assert b == b[..8] + b[8..];
    case Text => SizedIsExact(b);
    case Blob => SizedIsExact(b);
  }

  // ---- Rows ----

  predicate RowShaped(schema: Schema, row: Row) {
    |row| == |schema| && forall i :: 0 <= i < |schema| ==> Shaped(schema[i], row[i])
  }

  predicate RowFits(schema: Schema, row: Row) {
    |row| == |schema| && forall i :: 0 <= i < |schema| ==> Fits(schema[i], row[i])
  }

  function PutRow(schema: Schema, row: Row): Bytes
    requires RowShaped(schema, row)
  {
    if schema == [] then [] else PutField(schema[0], row[0]) + PutRow(schema[1..], row[1..])
  }

  function GetRow(schema: Schema, b: Bytes): (r: Option<Parsed<Row>>)
    ensures r.Some? ==> RowFits(schema, r.value.value)
  {
    if schema == [] then Some(Parsed([], b))
    else
      var first := GetField(schema[0], b);
      if first.None? then None
      else
        var others := GetRow(schema[1..], first.value.rest);
        if others.None? then None else Some(Parsed([first.value.value] + others.value.value, others.value.rest))
  }

  lemma {:induction false} RowReadsBack(schema: Schema, row: Row, rest: Bytes)
    requires RowFits(schema, row)
    ensures GetRow(schema, PutRow(schema, row) + rest) == Some(Parsed(row, rest))
  {
    if schema == [] {
      Splits([], rest, []);
    } else {
      var first, later := PutField(schema[0], row[0]), PutRow(schema[1..], row[1..]);
      FieldReadsBack(schema[0], row[0], later + rest);
      RowReadsBack(schema[1..], row[1..], rest);
      Splits(first, later, rest);
      assert [row[0]] + row[1..] == row;
    }
  }

  lemma {:induction false} RowIsExact(schema: Schema, b: Bytes)
    requires GetRow(schema, b).Some?
    ensures b == PutRow(schema, GetRow(schema, b).value.value) + GetRow(schema, b).value.rest
  {
    if schema != [] {
      var first := GetField(schema[0], b).value;
      var others := GetRow(schema[1..], first.rest).value;
      FieldIsExact(schema[0], b);
      RowIsExact(schema[1..], first.rest);
      var row := GetRow(schema, b).value.value;
      assert row[1..] == others.value;
      assert PutField(schema[0], first.value) + (PutRow(schema[1..], others.value) + others.rest)
          == PutField(schema[0], first.value) + PutRow(schema[1..], others.value) + others.rest;
    }
  }

  // ---- Lists ----

  /** The first `n` items, one after the other. */
  function PutAll<T>(put: T -> Bytes, xs: seq<T>, n: nat): Bytes
    requires n <= |xs|
  {
    if n == 0 then [] else PutAll(put, xs, n - 1) + put(xs[n - 1])
  }

  function GetAll<T>(get: Bytes -> Option<Parsed<T>>, n: nat, b: Bytes): (r: Option<Parsed<seq<T>>>)
    ensures r.Some? ==> |r.value.value| == n
  {
    if n == 0 then Some(Parsed([], b))
    else
      var front := GetAll(get, n - 1, b);
      if front.None? then None
      else
        var last := get(front.value.rest);
        if last.None? then None else Some(Parsed(front.value.value + [last.value.value], last.value.rest))
  }

  function PutList<T>(put: T -> Bytes, xs: seq<T>): Bytes {
    PutU32(Wrapped(|xs|)) + PutAll(put, xs, |xs|)
  }

  function GetList<T>(get: Bytes -> Option<Parsed<T>>, b: Bytes): (r: Option<Parsed<seq<T>>>)
    ensures r.Some? ==> |r.value.value| <= U32_MAX
  {
    if |b| < 4 then None else GetAll(get, GetU32(b[..4]), b[4..])
  }

  /** One item comes back from in front of anything. */
  ghost predicate Inverts<T(!new)>(put: T -> Bytes, get: Bytes -> Option<Parsed<T>>, x: T) {
    forall rest :: get(put(x) + rest) == Some(Parsed(x, rest))
  }

  lemma {:induction false} AllReadBack<T(!new)>(put: T -> Bytes, get: Bytes -> Option<Parsed<T>>, xs: seq<T>, n: nat,
                                                rest: Bytes)
    requires n <= |xs| && forall i :: 0 <= i < |xs| ==> Inverts(put, get, xs[i])
    ensures GetAll(get, n, PutAll(put, xs, n) + rest) == Some(Parsed(xs[..n], rest))
  {
    if n == 0 {
      assert PutAll(put, xs, n) + rest == rest;
    } else {
      var front, last := PutAll(put, xs, n - 1), put(xs[n - 1]);
      AllReadBack(put, get, xs, n - 1, last + rest);
      assert front + last + rest == front + (last + rest);
      assert Inverts(put, get, xs[n - 1]);
      assert xs[..n] == xs[..n - 1] + [xs[n - 1]];
    }
  }

  lemma {:induction false} ListReadsBack<T(!new)>(put: T -> Bytes, get: Bytes -> Option<Parsed<T>>, xs: seq<T>, rest: Bytes)
    requires |xs| <= U32_MAX && forall i :: 0 <= i < |xs| ==> Inverts(put, get, xs[i])
    ensures GetList(get, PutList(put, xs) + rest) == Some(Parsed(xs, rest))
  {
    var count, items := PutU32(|xs|), PutAll(put, xs, |xs|);
    ShortLengthsStay(|xs|);
    U32ReadsBack(|xs|);
    AllReadBack(put, get, xs, |xs|, rest);
    Splits(count, items, rest);
    Splits(count, items + rest, []);
    assert xs[..|xs|] == xs;
  }

  /** Whatever is read was written that way. */
  ghost predicate Exact<T(!new)>(put: T -> Bytes, get: Bytes -> Option<Parsed<T>>) {
    forall b :: get(b).Some? ==> b == put(get(b).value.value) + get(b).value.rest
  }

  lemma {:induction false} AllIsExact<T(!new)>(put: T -> Bytes, get: Bytes -> Option<Parsed<T>>, n: nat, b: Bytes)
    requires Exact(put, get) && GetAll(get, n, b).Some?
    ensures b == PutAll(put, GetAll(get, n, b).value.value, n) + GetAll(get, n, b).value.rest
  {
    if n == 0 {
      Splits([], b, []);
    } else {
      var front := GetAll(get, n - 1, b).value;
      var last := get(front.rest).value;
      AllIsExact(put, get, n - 1, b);
      SamePrefixSamePut(put, front.value, front.value + [last.value], n - 1);
      Splits(PutAll(put, front.value, n - 1), put(last.value), last.rest);
    }
  }

  lemma {:induction false} SamePrefixSamePut<T(!new)>(put: T -> Bytes, a: seq<T>, b: seq<T>, n: nat)
    requires n <= |a| && n <= |b| && forall i :: 0 <= i < n ==> a[i] == b[i]
    ensures PutAll(put, a, n) == PutAll(put, b, n)
  {
    if n > 0 {
      SamePrefixSamePut(put, a, b, n - 1);
    }
  }

  lemma {:induction false} ListIsExact<T(!new)>(put: T -> Bytes, get: Bytes -> Option<Parsed<T>>, b: Bytes)
    requires Exact(put, get) && GetList(get, b).Some?
    ensures b == PutList(put, GetList(get, b).value.value) + GetList(get, b).value.rest
  {
    var p := GetList(get, b).value;
    AllIsExact(put, get, GetU32(b[..4]), b[4..]);
    ShortLengthsStay(|p.value|);
    Splits(b[..4], PutAll(put, p.value, |p.value|), p.rest);
    assert b == b[..4] + b[4..];
  }

  /** Writes the count, then the items one after the other. */
  method EncodeList<T>(put: T -> Bytes, xs: seq<T>) returns (out: Bytes)
    ensures out == PutList(put, xs)
  {
    out := PutU32(Wrapped(|xs|));
    ghost var count := out;
    for i := 0 to |xs|
      invariant out == count + PutAll(put, xs, i)
    {
      assert count + PutAll(put, xs, i + 1) == count + PutAll(put, xs, i) + put(xs[i]);
      out := out + put(xs[i]);
    }
  }

  /** A list that fails part of the way fails altogether. */
  lemma {:induction false} FailureStays<T(!new)>(get: Bytes -> Option<Parsed<T>>, m: nat, n: nat, b: Bytes)
    requires m <= n && GetAll(get, m, b).None?
    ensures GetAll(get, n, b).None?
  {
    if m < n {
      FailureStays(get, m, n - 1, b);
    }
  }

  /** Reads as many items as the count says, giving up at the first malformed one. */
  method DecodeList<T(!new)>(get: Bytes -> Option<Parsed<T>>, b: Bytes) returns (r: Option<Parsed<seq<T>>>)
    ensures r == GetList(get, b)
  {
    if |b| < 4 {
      return None;
    }
    var count: nat := GetU32(b[..4]);
    var cur, items := b[4..], [];
    for i := 0 to count
      invariant GetAll(get, i, b[4..]) == Some(Parsed(items, cur))
    {
      var item := get(cur);
      if item.None? {
        FailureStays(get, i + 1, count, b[4..]);
        return None;
      }
      items, cur := items + [item.value.value], item.value.rest;
    }
    return Some(Parsed(items, cur));
  }

  function Sum<T>(len: T -> nat, xs: seq<T>, n: nat): nat
    requires n <= |xs|
  {
    if n == 0 then 0 else Sum(len, xs, n - 1) + len(xs[n - 1])
  }

  /** Items of known lengths add up. */
  lemma {:induction false} AllLength<T(!new)>(put: T -> Bytes, len: T -> nat, xs: seq<T>, n: nat)
    requires n <= |xs| && forall i :: 0 <= i < |xs| ==> |put(xs[i])| == len(xs[i])
    ensures |PutAll(put, xs, n)| == Sum(len, xs, n)
  {
    if n > 0 {
      AllLength(put, len, xs, n - 1);
    }
  }

  /** What holds of every item read holds of every item of a list. */
  lemma {:induction false} AllAre<T(!new)>(get: Bytes -> Option<Parsed<T>>, ok: T -> bool, n: nat, b: Bytes)
    requires forall x :: get(x).Some? ==> ok(get(x).value.value)
    ensures GetAll(get, n, b).Some? ==> forall i :: 0 <= i < n ==> ok(GetAll(get, n, b).value.value[i])
  {
    if n > 0 {
      AllAre(get, ok, n - 1, b);
    }
  }

  // ---- Optional text ----

  function PutOptional(o: Option<Bytes>): Bytes {
    match o
    case None => [0]
    case Some(s) => [1] + PutSized(s)
  }

  function GetOptional(b: Bytes): (r: Option<Parsed<Option<Bytes>>>)
    ensures r.Some? && r.value.value.Some? ==> Fits(Text, Str(r.value.value.value))
  {
    if b == [] then None
    else if b[0] == 0 then Some(Parsed(None, b[1..]))
    else if b[0] != 1 then None
    else
      var s := GetField(Text, b[1..]);
      if s.None? then None else Some(Parsed(Some(s.value.value.s), s.value.rest))
  }

  lemma {:induction false} OptionalReadsBack(o: Option<Bytes>, rest: Bytes)
    requires o.Some? ==> Fits(Text, Str(o.value))
    ensures GetOptional(PutOptional(o) + rest) == Some(Parsed(o, rest))
  {
    match o
    case None => Splits([0], rest, []);
    case Some(s) =>
      FieldReadsBack(Text, Str(s), rest);
      Splits([1], PutSized(s), rest);
      Splits([1], PutSized(s) + rest, []);
  }

  lemma {:induction false} OptionalIsExact(b: Bytes)
    requires GetOptional(b).Some?
    ensures b == PutOptional(GetOptional(b).value.value) + GetOptional(b).value.rest
  {
    assert b == [b[0]] + b[1..];
    if b[0] == 1 {
      FieldIsExact(Text, b[1..]);
      var p := GetField(Text, b[1..]).value;
      Splits([1], PutSized(p.value.s), p.rest);
    }
  }
}
