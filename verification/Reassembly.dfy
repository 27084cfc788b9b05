/** Reassembly of fragments from any peers, in any order, under fixed memory bounds. */
module Reassembly {
  import opened Common
  import opened ByteCodec
  import opened Fragments

  /** `maxFrame` includes the seal; the two magics tell whole frames and fragments apart. */
  datatype Config = Config(maxPending: nat, maxFragments: nat, timeout: nat, maxFrame: nat, magic: Bytes,
                           fragmentMagic: Bytes)

  predicate ValidConfig(c: Config) {
    && 0 < c.maxPending && 0 < c.maxFragments <= U16_MAX && 0 < c.timeout && c.maxFrame <= U32_MAX
    && |c.magic| == 4 && |c.fragmentMagic| == 4 && c.magic != c.fragmentMagic
  }

  datatype Assembly = Assembly(created: nat, total: nat, retained: nat, parts: seq<Option<Bytes>>, missing: int)

  /** Assemblies are kept apart by link, admission session, sender and fragment identity. */
  datatype Key = Key(link: nat, session: Option<nat>, from: NodeId, id: Bytes)

  type Pending = map<Key, Assembly>

  function Unexpired(p: Pending, timeout: nat, now: nat): Pending {
    map k | k in p && now - p[k].created < timeout :: p[k]
  }

  function Fresh(h: Header, now: nat): (a: Assembly)
    ensures |a.parts| == h.count
  {
    Assembly(now, h.total, 0, seq(h.count, _ => None), h.count)
  }

  /** What a fragment must claim before it may touch any assembly. */
  predicate Plausible(c: Config, bytes: Bytes) {
    && |bytes| > FRAGMENT
    && var h := GetHeader(bytes);
       && h.magic == c.fragmentMagic
       && 0 < h.count <= c.maxFragments && h.index < h.count
       && h.count <= h.total <= c.maxFrame
  }

  function Flattened(parts: seq<Option<Bytes>>): Bytes {
    if parts == [] then []
    else Flattened(parts[..|parts| - 1]) + match parts[|parts| - 1] { case Some(b) => b case None => [] }
  }

  /** The assembly with one more part, or none if the fragment contradicts it. */
  function Filled(a: Assembly, h: Header, body: Bytes): Option<Assembly>
    requires h.index < h.count
  {
    if a.total != h.total || |a.parts| != h.count then None
    else if a.parts[h.index].Some? then Some(a)
    else if a.retained + |body| > h.total then None
    else Some(a.(retained := a.retained + |body|, parts := a.parts[h.index := Some(body)], missing := a.missing - 1))
  }

  /** A plausible fragment meets the pending assemblies. */
  function Absorbed(c: Config, p: Pending, key: Key, h: Header, body: Bytes, now: nat): (Pending, Option<Bytes>)
    requires h.index < h.count
  {
    if key !in p && |p.Keys| >= c.maxPending then (p, None)
    else
      match Filled(if key in p then p[key] else Fresh(h, now), h, body)
      case None => (p - {key}, None)
      case Some(a) =>
        if a.missing != 0 then (p[key := a], None)
        else (p - {key}, if a.retained == a.total then Some(Flattened(a.parts)) else None)
  }

  /** One received packet: the assemblies afterwards and the frame it completes, if any. */
  function Received(c: Config, p: Pending, link: nat, session: Option<nat>, from: NodeId, bytes: Bytes,
                    now: nat): (Pending, Option<Bytes>) {
    var live := Unexpired(p, c.timeout, now);
    if c.magic <= bytes then (live, if |bytes| <= c.maxFrame then Some(bytes) else None)
    else if !Plausible(c, bytes) then (live, None)
    else
      var h := GetHeader(bytes);
      Absorbed(c, live, Key(link, session, from, h.id), h, bytes[FRAGMENT..], now)
  }

  class Assembler {
    const config: Config
    var pending: Pending

    constructor (config: Config)
      ensures this.config == config && pending == map[]
    {
      this.config := config;
      pending := map[];
    }

    /** Puts the parts of a finished assembly together. */
    static method Join(parts: seq<Option<Bytes>>) returns (frame: Bytes)
      ensures frame == Flattened(parts)
    {
      frame := [];
      for i := 0 to |parts|
        invariant frame == Flattened(parts[..i])
      {
        assert parts[..i + 1][..i] == parts[..i];
        match parts[i]
        case Some(part) => frame := frame + part;
        case None => assert frame + [] == frame;
      }
      assert parts[..|parts|] == parts;
    }

    /** Adds a plausible fragment to its assembly, creating, abandoning or finishing it. */
    method Absorb(key: Key, h: Header, body: Bytes, now: nat) returns (frame: Option<Bytes>)
      requires h.index < h.count
      modifies this
      ensures (pending, frame) == Absorbed(config, old(pending), key, h, body, now)
    {
      if key !in pending && |pending.Keys| >= config.maxPending {
        return None;
      }
      var entry := if key in pending then pending[key] else Fresh(h, now);
      if entry.total != h.total || |entry.parts| != h.count {
        pending := pending - {key};
        return None;
      }
      if entry.parts[h.index].None? {
        entry := entry.(retained := entry.retained + |body|);
        if entry.retained > h.total {
          pending := pending - {key};
          return None;
        }
        entry := entry.(parts := entry.parts[h.index := Some(body)], missing := entry.missing - 1);
      }
      if entry.missing != 0 {
        pending := pending[key := entry];
        return None;
      }
      pending := pending - {key};
      if entry.retained != entry.total {
        return None;
      }
      var joined := Join(entry.parts);
      return Some(joined);
    }

    method Receive(link: nat, session: Option<nat>, from: NodeId, bytes: Bytes, now: nat) returns (frame: Option<Bytes>)
      modifies this
      ensures (pending, frame) == Received(config, old(pending), link, session, from, bytes, now)
    {
      pending := map k | k in pending && now - pending[k].created < config.timeout :: pending[k];
      if config.magic <= bytes {
        return if |bytes| <= config.maxFrame then Some(bytes) else None;
      }
      if |bytes| < FRAGMENT {
        return None;
      }
      var h, body := GetHeader(bytes), bytes[FRAGMENT..];
      if h.magic != config.fragmentMagic || body == [] {
        return None;
      }
      if h.count == 0 || h.count > config.maxFragments || h.index >= h.count || h.total > config.maxFrame || h.total < h.count {
        return None;
      }
      frame := Absorb(Key(link, session, from, h.id), h, body, now);
    }
  }

  // ---- Bounded memory, whatever arrives ----

  function HeldLen(part: Option<Bytes>): nat {
    match part case Some(b) => |b| case None => 0
  }

  /** Bytes held in the first `n` parts. */
  function HeldIn(parts: seq<Option<Bytes>>, n: nat): nat
    requires n <= |parts|
  {
    if n == 0 then 0 else HeldIn(parts, n - 1) + HeldLen(parts[n - 1])
  }

  /** Empty slots among the first `n` parts. */
  function EmptyIn(parts: seq<Option<Bytes>>, n: nat): nat
    requires n <= |parts|
  {
    if n == 0 then 0 else EmptyIn(parts, n - 1) + if parts[n - 1].None? then 1 else 0
  }

  predicate SoundAssembly(c: Config, a: Assembly) {
    && 0 < |a.parts| <= c.maxFragments && |a.parts| <= a.total <= c.maxFrame
    && a.retained == HeldIn(a.parts, |a.parts|) <= a.total
    && a.missing == EmptyIn(a.parts, |a.parts|)
  }

  ghost predicate Sound(c: Config, p: Pending) {
    && |p.Keys| <= c.maxPending
    && forall k :: k in p ==> SoundAssembly(c, p[k]) && p[k].missing >= 1
  }

  lemma {:induction false} NewPartCounts(parts: seq<Option<Bytes>>, i: nat, body: Bytes, n: nat)
    requires i < |parts| && parts[i].None? && n <= |parts|
    ensures var more := parts[i := Some(body)];
            && HeldIn(more, n) == HeldIn(parts, n) + (if i < n then |body| else 0)
            && EmptyIn(more, n) == EmptyIn(parts, n) - (if i < n then 1 else 0)
  {
    if n > 0 {
      NewPartCounts(parts, i, body, n - 1);
    }
  }

  lemma {:induction false} AllEmpty(parts: seq<Option<Bytes>>, n: nat)
    requires n <= |parts| && forall i :: 0 <= i < |parts| ==> parts[i].None?
    ensures HeldIn(parts, n) == 0 && EmptyIn(parts, n) == n
  {
    if n > 0 {
      AllEmpty(parts, n - 1);
    }
  }

  lemma {:induction false} FlattenedLength(parts: seq<Option<Bytes>>)
    ensures |Flattened(parts)| == HeldIn(parts, |parts|)
  {
    if parts != [] {
      FlattenedLength(parts[..|parts| - 1]);
      SamePartsSameCounts(parts, parts[..|parts| - 1], |parts| - 1);
    }
  }

  lemma {:induction false} SamePartsSameCounts(a: seq<Option<Bytes>>, b: seq<Option<Bytes>>, n: nat)
    requires n <= |a| && n <= |b| && forall i :: 0 <= i < n ==> a[i] == b[i]
    ensures HeldIn(a, n) == HeldIn(b, n)
  {
    if n > 0 {
      SamePartsSameCounts(a, b, n - 1);
    }
  }

  lemma {:induction false} FilledIsSound(c: Config, a: Assembly, h: Header, body: Bytes)
    requires SoundAssembly(c, a) && h.index < h.count && h.total <= c.maxFrame
    ensures Filled(a, h, body).Some? ==> SoundAssembly(c, Filled(a, h, body).value)
  {
    if a.total == h.total && |a.parts| == h.count && a.parts[h.index].None? {
      NewPartCounts(a.parts, h.index, body, |a.parts|);
    }
  }

  /**
   Whatever bytes arrive, from whomever: every assembly counts its parts right and stays within
   its announced size, at most `maxPending` exist, and a completed frame has exactly that size.
   */
  lemma {:induction false} ReceivedKeepsSound(c: Config, p: Pending, link: nat, session: Option<nat>, from: NodeId,
                                              bytes: Bytes, now: nat)
    requires Sound(c, p)
    ensures var (q, frame) := Received(c, p, link, session, from, bytes, now);
            && Sound(c, q)
            && (frame.Some? ==> |frame.value| <= c.maxFrame)
            && (frame.Some? && !(c.magic <= bytes) ==> |bytes| >= FRAGMENT && |frame.value| == GetHeader(bytes).total)
  {
    var live := Unexpired(p, c.timeout, now);
    SubsetIsNoLarger(live.Keys, p.Keys);
    if !(c.magic <= bytes) && Plausible(c, bytes) {
      var h := GetHeader(bytes);
      AbsorbedKeepsSound(c, live, Key(link, session, from, h.id), h, bytes[FRAGMENT..], now);
    }
  }

  lemma {:induction false} AbsorbedKeepsSound(c: Config, p: Pending, key: Key, h: Header, body: Bytes, now: nat)
    requires Sound(c, p) && 0 < h.count <= c.maxFragments && h.index < h.count <= h.total <= c.maxFrame
    ensures var (q, frame) := Absorbed(c, p, key, h, body, now);
            Sound(c, q) && (frame.Some? ==> |frame.value| == h.total)
  {
    if key in p || |p.Keys| < c.maxPending {
      var a := if key in p then p[key] else Fresh(h, now);
      if key !in p {
        AllEmpty(a.parts, |a.parts|);
      }
      FilledIsSound(c, a, h, body);
      match Filled(a, h, body)
      case None => DropKeepsSound(c, p, key);
      case Some(b) =>
        if b.missing != 0 {
          StoreKeepsSound(c, p, key, b);
        } else {
          DropKeepsSound(c, p, key);
          FlattenedLength(b.parts);
        }
    }
  }

  lemma {:induction false} DropKeepsSound(c: Config, p: Pending, key: Key)
    requires Sound(c, p)
    ensures Sound(c, p - {key})
  {
  }

  lemma {:induction false} StoreKeepsSound(c: Config, p: Pending, key: Key, a: Assembly)
    requires Sound(c, p) && SoundAssembly(c, a) && a.missing >= 1 && (key in p || |p.Keys| < c.maxPending)
    ensures Sound(c, p[key := a])
  {
  }

  // ---- What a packet does, whatever it is ----

  /** The assembly has not timed out. */
  predicate Current(c: Config, p: Pending, k: Key, now: nat) {
    k in p && now < p[k].created + c.timeout
  }

  /**
   A whole frame within the limit is handed on as it is; a longer one is dropped. Either way the only
   assemblies that go are those past their timeout.
   */
  lemma {:induction false} WholeFramesPass(c: Config, p: Pending, link: nat, session: Option<nat>, from: NodeId, bytes: Bytes, now: nat)
    requires c.magic <= bytes
    ensures var (q, frame) := Received(c, p, link, session, from, bytes, now);
            && (|bytes| <= c.maxFrame ==> frame == Some(bytes)) && (|bytes| > c.maxFrame ==> frame == None)
            && forall k :: (k in q <==> Current(c, p, k, now)) && (k in q ==> q[k] == p[k])
  {
  }

  /** Bytes under neither magic, or whose header no sender could mean, return nothing and touch no assembly. */
  lemma {:induction false} JunkIsIgnored(c: Config, p: Pending, link: nat, session: Option<nat>, from: NodeId, bytes: Bytes, now: nat)
    requires !(c.magic <= bytes)
    requires || |bytes| <= FRAGMENT || bytes[..4] != c.fragmentMagic
             || FromBigEndian(bytes[22..24]) == 0 || c.maxFragments < FromBigEndian(bytes[22..24])
             || FromBigEndian(bytes[22..24]) <= FromBigEndian(bytes[20..22])
             || c.maxFrame < FromBigEndian(bytes[24..28]) || FromBigEndian(bytes[24..28]) < FromBigEndian(bytes[22..24])
    ensures var (q, frame) := Received(c, p, link, session, from, bytes, now);
            frame == None && forall k :: (k in q <==> Current(c, p, k, now)) && (k in q ==> q[k] == p[k])
  {
  }

  /** No assembly outlives its timeout, and no packet disturbs the assembly of another link, session, sender or frame. */
  lemma {:induction false} ReceivedTouchesOne(c: Config, p: Pending, link: nat, session: Option<nat>, from: NodeId, bytes: Bytes, now: nat)
    requires c.timeout > 0
    ensures var q := Received(c, p, link, session, from, bytes, now).0;
            && (forall k :: k in q ==> Current(c, q, k, now))
            && (forall k: Key :: k.link != link || k.session != session || k.from != from || |bytes| < FRAGMENT || k.id != bytes[4..20] ==>
                              (k in q <==> Current(c, p, k, now)) && (k in q ==> q[k] == p[k]))
  {
  }

  /** A fragment that contradicts its assembly, or would overfill it, ends it without a frame. */
  lemma {:induction false} ContradictionAbandons(c: Config, p: Pending, link: nat, session: Option<nat>, from: NodeId, bytes: Bytes, now: nat)
    requires !(c.magic <= bytes) && Plausible(c, bytes)
    requires var key := Key(link, session, from, bytes[4..20]);
             var h := GetHeader(bytes);
             && Current(c, p, key, now)
             && (p[key].total != h.total || |p[key].parts| != h.count
                 || (p[key].parts[h.index].None? && h.total < p[key].retained + (|bytes| - FRAGMENT)))
    ensures var (q, frame) := Received(c, p, link, session, from, bytes, now);
            frame == None && Key(link, session, from, bytes[4..20]) !in q
  {
  }

  // ---- Bytes held over all assemblies ----

  ghost function Pick(keys: set<Key>): (k: Key)
    requires keys != {}
    ensures k in keys
  {
    var k :| k in keys;
    k
  }

  /** Bytes held by the assemblies under `keys`. */
  ghost function HeldBytes(p: Pending, keys: set<Key>): nat
    requires keys <= p.Keys
  {
    if keys == {} then 0
    else
      var k := Pick(keys);
      HeldBytes(p, keys - {k}) + HeldIn(p[k].parts, |p[k].parts|)
  }

  lemma {:induction false} HeldIsAtMostAFrame(c: Config, p: Pending, k: Key)
    requires Sound(c, p) && k in p
    ensures HeldIn(p[k].parts, |p[k].parts|) <= c.maxFrame
  {
  }

  lemma {:induction false} OneMoreFrame(n: nat, size: nat)
    requires n > 0
    ensures n * size == (n - 1) * size + size
  {
  }

  lemma {:induction false} HeldBytesAreBounded(c: Config, p: Pending, keys: set<Key>, n: nat)
    requires Sound(c, p) && keys <= p.Keys && n == |keys|
    ensures HeldBytes(p, keys) <= n * c.maxFrame
    decreases n
  {
    if keys != {} {
      var k := Pick(keys);
      HeldBytesAreBounded(c, p, keys - {k}, n - 1);
      HeldIsAtMostAFrame(c, p, k);
      OneMoreFrame(n, c.maxFrame);
    }
  }

  /** All assemblies together never hold more than `maxPending` frames' worth of bytes. */
  lemma {:induction false} MemoryIsBounded(c: Config, p: Pending)
    requires Sound(c, p)
    ensures HeldBytes(p, p.Keys) <= c.maxPending * c.maxFrame
  {
    HeldBytesAreBounded(c, p, p.Keys, |p.Keys|);
    ProductIsMonotone(|p.Keys|, c.maxPending, c.maxFrame);
  }

  lemma {:induction false} ProductIsMonotone(a: nat, b: nat, n: nat)
    requires a <= b
    ensures a * n <= b * n
  {
  }
}
