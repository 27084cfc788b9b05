/** What reassembly makes of whole packet sequences: bounded memory always, and genuine frames come back intact. */
module ReassemblyRuns {
  import opened Common
  import opened Fragments
  import opened Reassembly

  datatype Packet = Packet(link: nat, session: Option<nat>, from: NodeId, bytes: Bytes, now: nat)

  function Step(c: Config, p: Pending, x: Packet): (Pending, Option<Bytes>) {
    Received(c, p, x.link, x.session, x.from, x.bytes, x.now)
  }

  /** The assemblies after the first `n` packets. */
  function After(c: Config, p: Pending, packets: seq<Packet>, n: nat): Pending
    requires n <= |packets|
  {
    if n == 0 then p else Step(c, After(c, p, packets, n - 1), packets[n - 1]).0
  }

  /** What receiving the `j`th packet returns. */
  function ResultAt(c: Config, p: Pending, packets: seq<Packet>, j: nat): Option<Bytes>
    requires j < |packets|
  {
    Step(c, After(c, p, packets, j), packets[j]).1
  }

  /** No packet sequence, whatever its bytes, breaks the assemblies' accounts or the memory bound. */
  lemma {:induction false} RunKeepsSound(c: Config, packets: seq<Packet>, n: nat)
    requires n <= |packets|
    ensures Sound(c, After(c, map[], packets, n))
    ensures HeldBytes(After(c, map[], packets, n), After(c, map[], packets, n).Keys) <= c.maxPending * c.maxFrame
  {
    if n > 0 {
      var x := packets[n - 1];
      RunKeepsSound(c, packets, n - 1);
      ReceivedKeepsSound(c, After(c, map[], packets, n - 1), x.link, x.session, x.from, x.bytes, x.now);
    }
    MemoryIsBounded(c, After(c, map[], packets, n));
  }

  /** The packet is a frame that travelled whole. */
  predicate IsWhole(c: Config, x: Packet) {
    c.magic <= x.bytes && |x.bytes| <= c.maxFrame
  }

  /** A frame that travelled whole is returned as it is, wherever in a packet sequence it comes, and disturbs no assembly. */
  lemma {:induction false} WholeFrameComesThrough(c: Config, p: Pending, packets: seq<Packet>, j: nat)
    requires j < |packets| && IsWhole(c, packets[j])
    ensures ResultAt(c, p, packets, j) == Some(packets[j].bytes)
    ensures var before, after := After(c, p, packets, j), After(c, p, packets, j + 1);
            forall k :: (k in after <==> Current(c, before, k, packets[j].now)) && (k in after ==> after[k] == before[k])
  {
    var x := packets[j];
    WholeFramesPass(c, After(c, p, packets, j), x.link, x.session, x.from, x.bytes, x.now);
  }

  /** After every packet sequence no assembly is past its timeout at the last packet's instant. */
  lemma {:induction false} NothingOutlivesItsTimeout(c: Config, p: Pending, packets: seq<Packet>, n: nat, k: Key)
    requires 0 < n <= |packets| && c.timeout > 0 && k in After(c, p, packets, n)
    ensures packets[n - 1].now < After(c, p, packets, n)[k].created + c.timeout
  {
    var x := packets[n - 1];
    ReceivedTouchesOne(c, After(c, p, packets, n - 1), x.link, x.session, x.from, x.bytes, x.now);
  }

  // ---- A genuine frame ----

  /** The packet reaches the assembly under `key`. */
  predicate Touches(c: Config, x: Packet, key: Key) {
    && !(c.magic <= x.bytes) && Plausible(c, x.bytes)
    && key == Key(x.link, x.session, x.from, GetHeader(x.bytes).id)
  }

  /** Sender and receiver agree on the format, and the receiver's limits take the frame. */
  predicate Matches(c: Config, cut: Cut, key: Key) {
    && ValidConfig(c) && Representable(cut) && cut.magic == c.fragmentMagic && cut.id == key.id
    && 1 <= cut.count <= c.maxFragments && cut.count <= |cut.frame| <= c.maxFrame
  }

  /** A link that was admitted cuts every legal frame so that a receiver under the same bounds takes it. */
  lemma {:induction false} AdmittedFramesMatch(r: Router, mtu: nat, c: Config, frame: Bytes, key: Key)
    requires ValidRouter(r) && AdmitsMtu(r, mtu) && 0 < |frame| <= r.maxFrame + r.seal && |key.id| == 16
    requires ValidConfig(c) && c.maxFrame == r.maxFrame + r.seal && c.maxFragments == r.maxFragments
    ensures Matches(c, CutFor(frame, mtu, key.id, c.fragmentMagic, r.seal), key)
  {
    var chunk := mtu - FRAGMENT - r.seal;
    CountBounds(|frame|, chunk);
    CountIsMonotone(|frame|, r.maxFrame + r.seal, chunk);
  }

  predicate IsFragment(cut: Cut, bytes: Bytes, i: nat)
    requires Representable(cut)
  {
    i < cut.count && bytes == PacketAt(cut, i)
  }

  predicate Has(have: set<nat>, i: int) {
    0 <= i && i in have
  }

  /** Every index below `n` is there. */
  ghost predicate Covers(have: set<nat>, n: nat) {
    forall i :: 0 <= i < n ==> Has(have, i)
  }

  ghost predicate Complete(cut: Cut, have: set<nat>) {
    Covers(have, cut.count)
  }

  /** Every fragment the sender produces passes the receiver's checks. */
  lemma {:induction false} FragmentsArePlausible(c: Config, cut: Cut, key: Key, x: Packet, i: nat)
    requires Matches(c, cut, key) && IsFragment(cut, x.bytes, i)
    requires x.link == key.link && x.session == key.session && x.from == key.from
    ensures Touches(c, x, key) && GetHeader(x.bytes) == HeaderAt(cut, i) && x.bytes[FRAGMENT..] == BodyAt(cut, i)
  {
    var h := HeaderAt(cut, i);
    HeaderReadsBack(h, BodyAt(cut, i));
    assert x.bytes[..4] == c.fragmentMagic;
  }

  predicate PartsOf(cut: Cut, parts: seq<Option<Bytes>>, have: set<nat>)
    requires Representable(cut)
  {
    && |parts| == cut.count
    && forall i :: 0 <= i < |parts| ==> parts[i] == if i in have then Some(BodyAt(cut, i)) else None
  }

  /** Held bytes are at most what the same chunks of the frame amount to. */
  lemma {:induction false} PartsFitTheFrame(cut: Cut, parts: seq<Option<Bytes>>, have: set<nat>, n: nat)
    requires Representable(cut) && PartsOf(cut, parts, have) && n <= cut.count
    ensures HeldIn(parts, n) <= |Joined(cut.frame, cut.chunk, n)|
    ensures EmptyIn(parts, n) == 0 <==> Covers(have, n)
  {
    if n > 0 {
      PartsFitTheFrame(cut, parts, have, n - 1);
      assert parts[n - 1] == if n - 1 in have then Some(BodyAt(cut, n - 1)) else None;
      assert Covers(have, n) <==> Covers(have, n - 1) && Has(have, n - 1);
    }
  }

  lemma {:induction false} PartsFit(cut: Cut, parts: seq<Option<Bytes>>, have: set<nat>)
    requires Representable(cut) && PartsOf(cut, parts, have)
    ensures HeldIn(parts, |parts|) <= |cut.frame|
    ensures EmptyIn(parts, |parts|) == 0 <==> Complete(cut, have)
  {
    PartsFitTheFrame(cut, parts, have, cut.count);
    AllChunksJoin(cut.frame, cut.chunk);
  }

  /** All chunks, flattened, are the frame. */
  lemma {:induction false} FullPartsFlatten(cut: Cut, parts: seq<Option<Bytes>>, n: nat)
    requires Representable(cut) && n <= |parts| <= cut.count
    requires forall i :: 0 <= i < |parts| ==> parts[i] == Some(BodyAt(cut, i))
    ensures Flattened(parts[..n]) == Joined(cut.frame, cut.chunk, n)
  {
    if n > 0 {
      FullPartsFlatten(cut, parts, n - 1);
      assert parts[..n][..n - 1] == parts[..n - 1];
    }
  }

  lemma {:induction false} FullPartsAreTheFrame(cut: Cut, parts: seq<Option<Bytes>>, have: set<nat>)
    requires Representable(cut) && PartsOf(cut, parts, have) && Complete(cut, have)
    ensures Flattened(parts) == cut.frame && HeldIn(parts, |parts|) == |cut.frame|
  {
    forall i | 0 <= i < |parts| ensures parts[i] == Some(BodyAt(cut, i)) {
      assert Has(have, i);
    }
    FullPartsFlatten(cut, parts, cut.count);
    assert parts[..|parts|] == parts;
    AllChunksJoin(cut.frame, cut.chunk);
    FlattenedLength(parts);
  }

  /** The assembly holds exactly the chunks in `have`, since `start`. */
  ghost predicate Holds(c: Config, cut: Cut, a: Assembly, have: set<nat>, start: nat)
    requires Representable(cut)
  {
    SoundAssembly(c, a) && a.created == start && a.total == |cut.frame| && PartsOf(cut, a.parts, have)
  }

  ghost predicate Building(c: Config, cut: Cut, key: Key, p: Pending, have: set<nat>, start: nat)
    requires Representable(cut)
  {
    && (have == {} ==> key !in p)
    && (have != {} ==> key in p && Holds(c, cut, p[key], have, start))
  }

  lemma {:induction false} PurgeKeepsBuilding(c: Config, cut: Cut, key: Key, p: Pending, have: set<nat>, start: nat,
                                              now: nat)
    requires Representable(cut) && Building(c, cut, key, p, have, start) && now < start + c.timeout
    ensures Building(c, cut, key, Unexpired(p, c.timeout, now), have, start)
  {
  }

  /** Packets of other assemblies, whole frames and junk leave it alone. */
  lemma {:induction false} OtherKeepsBuilding(c: Config, cut: Cut, key: Key, p: Pending, have: set<nat>, start: nat,
                                              x: Packet)
    requires Representable(cut) && Building(c, cut, key, p, have, start)
    requires !Touches(c, x, key) && x.now < start + c.timeout
    ensures Building(c, cut, key, Step(c, p, x).0, have, start)
  {
  }

  lemma {:induction false} FreshHolds(c: Config, cut: Cut, key: Key, i: nat, now: nat)
    requires Matches(c, cut, key) && i < cut.count
    ensures Holds(c, cut, Fresh(HeaderAt(cut, i), now), {}, now)
  {
    var a := Fresh(HeaderAt(cut, i), now);
    AllEmpty(a.parts, |a.parts|);
  }

  /** A chunk more in the assembly. */
  lemma {:induction false} FilledHolds(c: Config, cut: Cut, a: Assembly, have: set<nat>, start: nat, i: nat)
    returns (b: Assembly)
    requires Representable(cut) && Holds(c, cut, a, have, start) && i < cut.count
    ensures Filled(a, HeaderAt(cut, i), BodyAt(cut, i)) == Some(b)
    ensures Holds(c, cut, b, have + {i}, start)
    ensures b.missing == 0 <==> Complete(cut, have + {i})
  {
    var parts := if i in have then a.parts else a.parts[i := Some(BodyAt(cut, i))];
    assert PartsOf(cut, parts, have + {i});
    PartsFit(cut, parts, have + {i});
    if i !in have {
      NewPartCounts(a.parts, i, BodyAt(cut, i), |a.parts|);
    }
    b := Filled(a, HeaderAt(cut, i), BodyAt(cut, i)).value;
  }

  /** A fragment of the frame is absorbed: nothing until the last one missing, then the frame. */
  lemma {:induction false} FragmentIsAbsorbed(c: Config, cut: Cut, key: Key, p: Pending, have: set<nat>, start: nat,
                                              i: nat, now: nat)
    requires Matches(c, cut, key) && Building(c, cut, key, p, have, start) && i < cut.count
    requires have == {} ==> now == start && |p.Keys| < c.maxPending
    ensures var (q, result) := Absorbed(c, p, key, HeaderAt(cut, i), BodyAt(cut, i), now);
            if Complete(cut, have + {i}) then result == Some(cut.frame) && key !in q
            else result == None && Building(c, cut, key, q, have + {i}, start)
  {
    FreshHolds(c, cut, key, i, now);
    var a := if key in p then p[key] else Fresh(HeaderAt(cut, i), now);
    var b := FilledHolds(c, cut, a, have, start, i);
    if Complete(cut, have + {i}) {
      FullPartsAreTheFrame(cut, b.parts, have + {i});
    }
  }

  // ---- The whole delivery ----

  /** A packet marked `Some(i)` is this frame's `i`th fragment; an unmarked one is any packet that misses its assembly. */
  predicate Allowed(c: Config, cut: Cut, key: Key, x: Packet, mark: Option<nat>, start: nat)
    requires Representable(cut)
  {
    && x.now < start + c.timeout
    && match mark
       case Some(i) => IsFragment(cut, x.bytes, i) && x.link == key.link && x.session == key.session && x.from == key.from
       case None => !Touches(c, x, key)
  }

  predicate AllowedAt(c: Config, cut: Cut, key: Key, packets: seq<Packet>, marks: seq<Option<nat>>, start: nat, j: nat)
    requires Representable(cut) && j < |packets| == |marks|
  {
    Allowed(c, cut, key, packets[j], marks[j], start)
  }

  /** Nothing among the first `n` packets disturbs the assembly. */
  ghost predicate Undisturbed(c: Config, cut: Cut, key: Key, packets: seq<Packet>, marks: seq<Option<nat>>,
                              start: nat, n: nat)
    requires Representable(cut) && n <= |packets| == |marks|
  {
    forall j :: 0 <= j < n ==> AllowedAt(c, cut, key, packets, marks, start, j)
  }

  function Index(mark: Option<nat>): set<nat> {
    if mark.Some? then {mark.value} else {}
  }

  /** Indices of this frame among the first `n` packets. */
  function Have(marks: seq<Option<nat>>, n: nat): set<nat>
    requires n <= |marks|
  {
    if n == 0 then {} else Have(marks, n - 1) + Index(marks[n - 1])
  }

  /** One packet more, of whatever kind. */
  lemma {:induction false} StepKeepsBuilding(c: Config, cut: Cut, key: Key, p: Pending, have: set<nat>, start: nat,
                                             x: Packet, mark: Option<nat>)
    requires Matches(c, cut, key) && Building(c, cut, key, p, have, start) && Allowed(c, cut, key, x, mark, start)
    requires have == {} ==> mark.Some? && x.now == start && |Unexpired(p, c.timeout, start).Keys| < c.maxPending
    ensures var (q, result) := Step(c, p, x);
            if mark.Some? && Complete(cut, have + Index(mark)) then result == Some(cut.frame) && key !in q
            else Building(c, cut, key, q, have + Index(mark), start) && (mark.Some? ==> result == None)
  {
    if mark.Some? {
      var live, i := Unexpired(p, c.timeout, x.now), mark.value;
      FragmentsArePlausible(c, cut, key, x, i);
      PurgeKeepsBuilding(c, cut, key, p, have, start, x.now);
      FragmentIsAbsorbed(c, cut, key, live, have, start, i, x.now);
      assert Step(c, p, x) == Absorbed(c, live, key, HeaderAt(cut, i), BodyAt(cut, i), x.now);
    } else {
      OtherKeepsBuilding(c, cut, key, p, have, start, x);
      assert have + Index(mark) == have;
    }
  }

  /** One packet more that does not complete the frame. */
  lemma {:induction false} StillBuilding(c: Config, cut: Cut, key: Key, p: Pending, have: set<nat>, start: nat,
                                         x: Packet, mark: Option<nat>, more: set<nat>)
    requires Matches(c, cut, key) && Building(c, cut, key, p, have, start) && Allowed(c, cut, key, x, mark, start)
    requires have == {} ==> mark.Some? && x.now == start && |Unexpired(p, c.timeout, start).Keys| < c.maxPending
    requires more == have + Index(mark) && !Complete(cut, more)
    ensures Building(c, cut, key, Step(c, p, x).0, more, start) && more != {}
  {
    StepKeepsBuilding(c, cut, key, p, have, start, x, mark);
    if mark.Some? {
      assert mark.value in more;
    }
  }

  lemma {:induction false} HaveGrows(marks: seq<Option<nat>>, m: nat, n: nat)
    requires m <= n <= |marks|
    ensures Have(marks, m) <= Have(marks, n)
  {
    if m < n {
      HaveGrows(marks, m, n - 1);
    }
  }

  lemma {:induction false} StaysIncomplete(cut: Cut, marks: seq<Option<nat>>, m: nat, n: nat)
    requires m <= n <= |marks| && !Complete(cut, Have(marks, n))
    ensures !Complete(cut, Have(marks, m))
  {
    HaveGrows(marks, m, n);
    var i :| 0 <= i < cut.count && !Has(Have(marks, n), i);
    assert !Has(Have(marks, m), i);
  }

  /** The first packet is a fragment of the frame and finds a free slot. */
  ghost predicate Begins(c: Config, key: Key, p: Pending, packets: seq<Packet>, marks: seq<Option<nat>>) {
    && packets != [] && marks != [] && marks[0].Some? && key !in p
    && |Unexpired(p, c.timeout, packets[0].now).Keys| < c.maxPending
  }

  /** Until the frame is complete its fragments are kept. */
  lemma {:induction false} IncompleteIsKept(c: Config, cut: Cut, key: Key, p: Pending, packets: seq<Packet>,
                                            marks: seq<Option<nat>>, n: nat)
    requires Matches(c, cut, key) && n <= |packets| == |marks| && Begins(c, key, p, packets, marks)
    requires Undisturbed(c, cut, key, packets, marks, packets[0].now, n) && !Complete(cut, Have(marks, n))
    ensures Building(c, cut, key, After(c, p, packets, n), Have(marks, n), packets[0].now) && (n > 0 ==> Have(marks, n) != {})
  {
    if n > 0 {
      StaysIncomplete(cut, marks, n - 1, n);
      IncompleteIsKept(c, cut, key, p, packets, marks, n - 1);
      assert AllowedAt(c, cut, key, packets, marks, packets[0].now, n - 1);
      StillBuilding(c, cut, key, After(c, p, packets, n - 1), Have(marks, n - 1), packets[0].now, packets[n - 1], marks[n - 1], Have(marks, n));
    }
  }

  /** A fragment that does not complete the frame returns nothing; one that does returns the frame. */
  lemma {:induction false} FragmentReturns(c: Config, cut: Cut, key: Key, p: Pending, packets: seq<Packet>,
                                           marks: seq<Option<nat>>, j: nat)
    requires Matches(c, cut, key) && j < |packets| == |marks| && Begins(c, key, p, packets, marks) && marks[j].Some?
    requires Undisturbed(c, cut, key, packets, marks, packets[0].now, j + 1) && !Complete(cut, Have(marks, j))
    ensures if Complete(cut, Have(marks, j + 1)) then ResultAt(c, p, packets, j) == Some(cut.frame) && key !in After(c, p, packets, j + 1)
            else ResultAt(c, p, packets, j) == None
  {
    IncompleteIsKept(c, cut, key, p, packets, marks, j);
    assert AllowedAt(c, cut, key, packets, marks, packets[0].now, j);
    StepKeepsBuilding(c, cut, key, After(c, p, packets, j), Have(marks, j), packets[0].now, packets[j], marks[j]);
  }

  lemma {:induction false} EarlyReturnsNothing(c: Config, cut: Cut, key: Key, p: Pending, packets: seq<Packet>,
                                               marks: seq<Option<nat>>, j: nat)
    requires Matches(c, cut, key) && j < |packets| == |marks| && Begins(c, key, p, packets, marks) && marks[j].Some?
    requires Undisturbed(c, cut, key, packets, marks, packets[0].now, j + 1) && !Complete(cut, Have(marks, j + 1))
    ensures ResultAt(c, p, packets, j) == None
  {
    StaysIncomplete(cut, marks, j, j + 1);
    FragmentReturns(c, cut, key, p, packets, marks, j);
  }

  lemma {:induction false} EarlierReturnsNothing(c: Config, cut: Cut, key: Key, p: Pending, packets: seq<Packet>,
                                                 marks: seq<Option<nat>>, last: nat, j: nat)
    requires Matches(c, cut, key) && j < last < |packets| == |marks| && Begins(c, key, p, packets, marks) && marks[j].Some?
    requires Undisturbed(c, cut, key, packets, marks, packets[0].now, last + 1) && !Complete(cut, Have(marks, last))
    ensures ResultAt(c, p, packets, j) == None
  {
    StaysIncomplete(cut, marks, j + 1, last);
    EarlyReturnsNothing(c, cut, key, p, packets, marks, j);
  }

  lemma {:induction false} LastIsMarked(cut: Cut, marks: seq<Option<nat>>, last: nat)
    requires last < |marks| && !Complete(cut, Have(marks, last)) && Complete(cut, Have(marks, last + 1))
    ensures marks[last].Some?
  {
    assert Have(marks, last) + {} == Have(marks, last);
  }

  /**
   All fragments of a frame, in any order, with any repetitions and any other traffic in between,
   return nothing until the last one missing, and then exactly the frame.
   */
  lemma {:induction false} FrameComesBack(c: Config, cut: Cut, key: Key, p: Pending, packets: seq<Packet>,
                                          marks: seq<Option<nat>>, last: nat)
    requires Matches(c, cut, key) && last < |packets| == |marks| && Begins(c, key, p, packets, marks)
    requires Undisturbed(c, cut, key, packets, marks, packets[0].now, last + 1)
    requires !Complete(cut, Have(marks, last)) && Complete(cut, Have(marks, last + 1))
    ensures ResultAt(c, p, packets, last) == Some(cut.frame)
    ensures key !in After(c, p, packets, last + 1)
    ensures forall j :: 0 <= j < last && marks[j].Some? ==> ResultAt(c, p, packets, j) == None
    ensures forall j :: 0 <= j <= last && IsWhole(c, packets[j]) ==> ResultAt(c, p, packets, j) == Some(packets[j].bytes)
  {
    forall j | 0 <= j <= last && IsWhole(c, packets[j]) ensures ResultAt(c, p, packets, j) == Some(packets[j].bytes) {
      WholeFrameComesThrough(c, p, packets, j);
    }
    forall j | 0 <= j < last && marks[j].Some? ensures ResultAt(c, p, packets, j) == None {
      EarlierReturnsNothing(c, cut, key, p, packets, marks, last, j);
    }
    LastIsMarked(cut, marks, last);
    FragmentReturns(c, cut, key, p, packets, marks, last);
  }
}
