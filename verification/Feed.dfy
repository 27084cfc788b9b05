/** The publisher half of a write feed: a bounded ring of the newest writes of one life. */
module Feed {
  import opened Common
  import opened ByteCodec
  import opened FeedWire

  /** One life of a writer: every key it ever published, and whether it was sealed after the last one. */
  datatype Life = Life(epoch: u64, writes: seq<Bytes>, sealed: bool)

  /** `f` is a window of `life` as some moment of that life advertised it. */
  predicate FrameOf(life: Life, f: Frame) {
    && f.epoch == life.epoch
    && 1 <= f.firstSeq
    && End(f) <= |life.writes| + 1
    && f.keys == life.writes[f.firstSeq - 1..End(f) - 1]
    && (f.keys == [] ==> f.firstSeq == 1)
    && (f.sealed ==> life.sealed && End(f) == |life.writes| + 1)
  }

  /** `later` is the same life further on: more writes, and none after the seal. */
  predicate Extends(life: Life, later: Life) {
    && later.epoch == life.epoch
    && life.writes <= later.writes
    && (life.sealed ==> later == life)
  }

  /** A frame advertised at one moment stays a window of the life as it goes on. */
  lemma {:induction false} FrameOfLaterLife(life: Life, later: Life, f: Frame)
    requires FrameOf(life, f) && Extends(life, later)
    ensures FrameOf(later, f)
  {
  }

  function KeyBytes(keys: seq<Bytes>): nat {
    if keys == [] then 0 else 4 + |keys[0]| + KeyBytes(keys[1..])
  }

  lemma {:induction false} KeyBytesSnoc(keys: seq<Bytes>, key: Bytes)
    ensures KeyBytes(keys + [key]) == KeyBytes(keys) + 4 + |key|
  {
    if keys == [] {
      assert keys + [key] == [key];
    } else {
      assert (keys + [key])[1..] == keys[1..] + [key];
      KeyBytesSnoc(keys[1..], key);
    }
  }

  lemma {:induction false} PutKeysLength(keys: seq<Bytes>)
    ensures |PutKeys(keys)| == KeyBytes(keys)
  {
    if keys != [] {
      PutKeysLength(keys[1..]);
    }
  }

  /** What one advertised frame may hold. */
  predicate Fits(keys: seq<Bytes>, capacity: nat, maxFrameBytes: nat) {
    |keys| <= capacity && (|keys| <= 1 || 21 + KeyBytes(keys) <= maxFrameBytes)
  }

  /** Where a window of a life with `count` writes starts once everything through `token` is retired. */
  function RetiredFirst(epoch: u64, firstSeq: nat, count: nat, token: WriteToken): int {
    if token.epoch == epoch && firstSeq <= count then Max(firstSeq, Min(token.at + 1, count)) else firstSeq
  }

  datatype PublishResult = Published(token: WriteToken) | LifeSealed

  class Ring {
    const epoch: u64
    const capacity: nat
    const maxFrameBytes: nat
    var firstSeq: nat
    var keys: seq<Bytes>
    var encodedKeysBytes: nat
    var sealed: bool
    ghost var published: seq<Bytes>

    ghost predicate Valid()
      reads this
    {
      && 1 <= capacity
      && 1 <= firstSeq <= |published| + 1
      && firstSeq + |keys| - 1 == |published|
      && keys == published[firstSeq - 1..]
      && (keys == [] ==> published == [])
      && encodedKeysBytes == KeyBytes(keys)
      && Fits(keys, capacity, maxFrameBytes)
    }

    /** The write at position `i` is still in the window. */
    ghost predicate Keeps(i: nat)
      reads this
    {
      firstSeq <= i < firstSeq + |keys|
    }

    ghost function TheLife(): Life
      reads this
    {
      Life(epoch, published, sealed)
    }

    constructor (epoch: u64, capacity: nat, maxFrameBytes: nat)
      requires 1 <= capacity
      ensures Valid() && this.epoch == epoch && this.capacity == capacity && this.maxFrameBytes == maxFrameBytes
      ensures TheLife() == Life(epoch, [], false)
    {
      this.epoch, this.capacity, this.maxFrameBytes := epoch, capacity, maxFrameBytes;
      firstSeq, keys, encodedKeysBytes, sealed, published := 1, [], 0, false, [];
    }

    function EncodedLen(): nat
      reads this
    {
      21 + encodedKeysBytes
    }

    /** The byte budget is measured on the real thing. */
    lemma {:induction false} EncodedLenIsExact(f: Frame)
      requires Valid() && firstSeq <= U64_MAX && f == Frame(epoch, firstSeq, keys, sealed)
      ensures EncodedLen() == |Encoded(f)|
    {
      PutKeysLength(keys);
    }

    method DropOldest()
      requires 1 <= firstSeq && firstSeq + |keys| - 1 == |published| && keys == published[firstSeq - 1..]
      requires keys != [] && encodedKeysBytes == KeyBytes(keys)
      modifies this`keys, this`encodedKeysBytes, this`firstSeq
      ensures keys == old(keys)[1..] && firstSeq == old(firstSeq) + 1
      ensures encodedKeysBytes == KeyBytes(keys)
      ensures keys == published[firstSeq - 1..]
    {
      encodedKeysBytes := encodedKeysBytes - (4 + |keys[0]|);
      keys := keys[1..];
      firstSeq := firstSeq + 1;
    }

    /** Appends a write and evicts the fewest oldest writes that make the ring fit again. */
    method Push(key: Bytes)
      requires Valid()
      modifies this`keys, this`encodedKeysBytes, this`firstSeq, this`published
      ensures Valid()
      ensures published == old(published) + [key]
      ensures keys != [] && keys[|keys| - 1] == key
      ensures old(firstSeq) <= firstSeq
      ensures old(firstSeq) < firstSeq ==> !Fits(published[firstSeq - 2..], capacity, maxFrameBytes)
    {
      KeyBytesSnoc(keys, key);
      encodedKeysBytes := encodedKeysBytes + (4 + |key|);
      published := published + [key];
      keys := keys + [key];
      assert keys == published[firstSeq - 1..];
      while |keys| > capacity || (|keys| > 1 && EncodedLen() > maxFrameBytes)
        invariant published == old(published) + [key]
        invariant old(firstSeq) <= firstSeq && firstSeq + |keys| - 1 == |published|
        invariant keys != [] && keys == published[firstSeq - 1..] && encodedKeysBytes == KeyBytes(keys)
        invariant old(firstSeq) < firstSeq ==> !Fits(published[firstSeq - 2..], capacity, maxFrameBytes)
        decreases |keys|
      {
        DropOldest();
      }
    }

    method Publish(key: Bytes) returns (r: PublishResult)
      requires Valid()
      modifies this`keys, this`encodedKeysBytes, this`firstSeq, this`published
      ensures Valid() && Extends(old(TheLife()), TheLife())
      ensures old(sealed) ==> r == LifeSealed && TheLife() == old(TheLife()) && keys == old(keys) && firstSeq == old(firstSeq)
      ensures !old(sealed) ==> r == Published(WriteToken(epoch, |old(published)| + 1)) && published == old(published) + [key]
    {
      if sealed {
        return LifeSealed;
      }
      var token := WriteToken(epoch, firstSeq + |keys|);
      Push(key);
      r := Published(token);
    }

    method Seal() returns (token: WriteToken)
      requires Valid()
      modifies this`sealed
      ensures Valid() && TheLife() == old(TheLife()).(sealed := true)
      ensures token == WriteToken(epoch, |published| + 1)
    {
      sealed := true;
      token := WriteToken(epoch, firstSeq + |keys|);
    }

    /** Retires the acknowledged prefix, keeping the newest write as the sequence anchor. */
    method RetireThrough(token: WriteToken) returns (changed: bool)
      requires Valid()
      modifies this`keys, this`encodedKeysBytes, this`firstSeq
      ensures Valid() && TheLife() == old(TheLife())
      ensures firstSeq == RetiredFirst(epoch, old(firstSeq), |published|, token)
      ensures forall i :: Keeps(i) <==> old(Keeps(i)) && (token.epoch != epoch || token.at < i || i == |published|)
      ensures keys == published[firstSeq - 1..]
      ensures changed <==> firstSeq != old(firstSeq)
    {
      changed := false;
      if token.epoch != epoch || |keys| <= 1 || token.at < firstSeq {
        return;
      }
      while |keys| > 1 && firstSeq <= token.at
        invariant Valid() && 1 <= |keys| <= |old(keys)|
        invariant old(firstSeq) <= firstSeq <= Max(old(firstSeq), token.at + 1)
        invariant changed <==> firstSeq != old(firstSeq)
        decreases |keys|
      {
        DropOldest();
        changed := true;
      }
    }

    /** The frame this ring advertises: a genuine window, read back whole unless a count overflows its field. */
    method Advertise() returns (f: Frame)
      requires Valid() && firstSeq <= U64_MAX
      ensures f == Frame(epoch, firstSeq, keys, sealed)
      ensures FrameOf(TheLife(), f)
      ensures Decoded(Encoded(f)) == Some(f) <==> Representable(keys) && |published| + (if sealed then 2 else 1) <= U64_MAX
      ensures |Encoded(f)| == EncodedLen()
      ensures |Encoded(f)| <= maxFrameBytes || |f.keys| <= 1
    {
      f := Frame(epoch, firstSeq, keys, sealed);
      RoundTripsIffWellFormed(f);
      EncodedLenIsExact(f);
    }
  }
}
