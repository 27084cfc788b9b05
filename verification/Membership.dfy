/** One member's replicated entries and the deadline index that finds the due ones without a scan. */
module Membership {
  import opened Common
  import opened Ids

  /** The instant that is never due. */
  const TIME_MAX: u64 := U64_MAX

  datatype StateEntry = StateEntry(version: u64, value: Bytes, ttlMs: u64, expiresAt: u64, tombstone: bool,
                                   tombstoneSince: u64)

  /** When an entry falls due: a tombstone when its reaping does, any other entry when it expires. */
  function ReapDue(e: StateEntry, reapAfter: u64): u64 {
    if e.tombstone then SatAdd(e.tombstoneSince, reapAfter) else e.expiresAt
  }

  type Entries = map<Bytes, StateEntry>
  type Dues = map<u64, set<Bytes>>

  predicate Listed(dues: Dues, at: u64, k: Bytes) {
    at in dues && k in dues[at]
  }

  /** Where an entry belongs in the index: nowhere, if it is never due. */
  predicate Belongs(entries: Entries, reapAfter: u64, at: u64, k: Bytes) {
    k in entries && ReapDue(entries[k], reapAfter) == at && at != TIME_MAX
  }

  /** The index is exactly the entries turned around, with no empty slot. */
  ghost predicate Inverse(dues: Dues, entries: Entries, reapAfter: u64) {
    && (forall at :: at in dues ==> dues[at] != {})
    && (forall at, k :: Listed(dues, at, k) <==> Belongs(entries, reapAfter, at, k))
  }

  function Unlisted(dues: Dues, at: u64, k: Bytes): Dues {
    if at !in dues then dues
    else if dues[at] - {k} == {} then dues - {at}
    else dues[at := dues[at] - {k}]
  }

  function Relisted(dues: Dues, at: u64, k: Bytes): Dues {
    if at == TIME_MAX then dues else dues[at := (if at in dues then dues[at] else {}) + {k}]
  }

  /** What a scan of all entries would call due. */
  predicate DueBy(e: StateEntry, reapAfter: u64, now: u64) {
    ReapDue(e, reapAfter) <= now
  }

  /** What is left after removing what a scan would. */
  function Unscanned(entries: Entries, reapAfter: u64, now: u64): Entries {
    map k | k in entries && !DueBy(entries[k], reapAfter, now) :: entries[k]
  }

  /** What is left after removing what the index lists. */
  function Untaken(entries: Entries, reapAfter: u64, now: u64): Entries {
    map k | k in entries && !(DueBy(entries[k], reapAfter, now) && ReapDue(entries[k], reapAfter) != TIME_MAX) :: entries[k]
  }

  lemma {:induction false} MovingKeepsInverse(dues: Dues, entries: Entries, reapAfter: u64, key: Bytes, entry: StateEntry)
    requires Inverse(dues, entries, reapAfter)
    ensures var due := ReapDue(entry, reapAfter);
            var taken := if key in entries then Unlisted(dues, ReapDue(entries[key], reapAfter), key) else dues;
            Inverse(Relisted(taken, due, key), entries[key := entry], reapAfter)
  {
    var due := ReapDue(entry, reapAfter);
    var taken := if key in entries then Unlisted(dues, ReapDue(entries[key], reapAfter), key) else dues;
    var new_, all := Relisted(taken, due, key), entries[key := entry];
    forall at, k ensures Listed(taken, at, k) <==> Belongs(entries, reapAfter, at, k) && k != key {
      assert Listed(dues, at, k) <==> Belongs(entries, reapAfter, at, k);
      if Listed(dues, at, k) && k != key {
        assert k in dues[at] - {key};
      }
    }
    forall at, k ensures Listed(new_, at, k) <==> Belongs(all, reapAfter, at, k) {
      assert Listed(taken, at, k) <==> Belongs(entries, reapAfter, at, k) && k != key;
    }
  }

  /** Re-listing under the deadline it already has changes nothing. */
  lemma {:induction false} StayingKeepsInverse(dues: Dues, entries: Entries, reapAfter: u64, key: Bytes, entry: StateEntry)
    requires Inverse(dues, entries, reapAfter) && key in entries && ReapDue(entries[key], reapAfter) == ReapDue(entry, reapAfter)
    ensures Inverse(dues, entries[key := entry], reapAfter)
  {
  }

  /** Taking the slots up to `now` out of the index is taking the due entries out of the map. */
  lemma {:induction false} TakingKeepsInverse(dues: Dues, left: Dues, entries: Entries, reapAfter: u64, now: u64,
                                              keys: set<Bytes>)
    requires Inverse(dues, entries, reapAfter)
    requires forall at :: at in left <==> at in dues && at > now
    requires forall at :: at in left ==> left[at] == dues[at]
    requires forall k :: k in keys <==> exists at: u64 :: at <= now && Listed(dues, at, k)
    ensures keys == set k | k in entries && DueBy(entries[k], reapAfter, now) && ReapDue(entries[k], reapAfter) != TIME_MAX
    ensures Inverse(left, entries - keys, reapAfter)
  {
    forall k ensures k in keys <==> k in entries && DueBy(entries[k], reapAfter, now) && ReapDue(entries[k], reapAfter) != TIME_MAX {
      if k in keys {
        var at: u64 :| at <= now && Listed(dues, at, k);
        assert Belongs(entries, reapAfter, at, k);
      }
      if k in entries && DueBy(entries[k], reapAfter, now) && ReapDue(entries[k], reapAfter) != TIME_MAX {
        assert Listed(dues, ReapDue(entries[k], reapAfter), k) by {
          assert Belongs(entries, reapAfter, ReapDue(entries[k], reapAfter), k);
        }
      }
    }
    forall at, k ensures Listed(left, at, k) <==> Belongs(entries - keys, reapAfter, at, k) {
      assert Listed(dues, at, k) <==> Belongs(entries, reapAfter, at, k);
    }
  }

  class Member {
    const reapAfter: u64
    var entries: Entries
    var entryDues: Dues

    constructor (reapAfter: u64)
      ensures this.reapAfter == reapAfter && entries == map[] && entryDues == map[] && Valid()
    {
      this.reapAfter := reapAfter;
      entries, entryDues := map[], map[];
    }

    ghost predicate Valid()
      reads this
    {
      Inverse(entryDues, entries, reapAfter)
    }

    /** Takes a key out of the deadline it is listed under. */
    method UnlistDue(at: u64, key: Bytes)
      modifies this`entryDues
      ensures entryDues == Unlisted(old(entryDues), at, key)
    {
      if at !in entryDues {
        return;
      }
      var keys := entryDues[at] - {key};
      if keys == {} {
        entryDues := entryDues - {at};
      } else {
        entryDues := entryDues[at := keys];
      }
    }

    /** Stores an entry and lists its key under the new deadline. */
    method PutEntry(key: Bytes, entry: StateEntry)
      requires Valid()
      modifies this
      ensures Valid() && entries == old(entries)[key := entry]
    {
      var due := ReapDue(entry, reapAfter);
      if key in entries && ReapDue(entries[key], reapAfter) == due {
        StayingKeepsInverse(entryDues, entries, reapAfter, key, entry);
      } else {
        MovingKeepsInverse(entryDues, entries, reapAfter, key, entry);
        if key in entries {
          UnlistDue(ReapDue(entries[key], reapAfter), key);
        }
        if due != TIME_MAX {
          entryDues := entryDues[due := (if due in entryDues then entryDues[due] else {}) + {key}];
        }
      }
      entries := entries[key := entry];
    }

    /** The index's first slot. */
    method First() returns (first: Option<u64>)
      ensures first.None? <==> entryDues == map[]
      ensures first.Some? ==> first.value in entryDues && forall at :: at in entryDues ==> first.value <= at
    {
      var rest := entryDues.Keys;
      first := None;
      while rest != {}
        invariant rest <= entryDues.Keys
        invariant first.None? ==> rest == entryDues.Keys
        invariant first.Some? ==> first.value in entryDues && forall at :: at in entryDues && at !in rest ==> first.value <= at
        decreases |rest|
      {
        var at :| at in rest;
        if first.None? || at < first.value {
          first := Some(at);
        }
        rest := rest - {at};
      }
    }

    /** The least reap instant over the member's entries, or the end of time if it has none. */
    method NextEntryDue() returns (at: u64)
      requires Valid()
      ensures forall k :: k in entries ==> at <= ReapDue(entries[k], reapAfter)
      ensures at != TIME_MAX ==> exists k :: k in entries && ReapDue(entries[k], reapAfter) == at
    {
      var first := First();
      at := if first.None? then TIME_MAX else first.value;
      forall k | k in entries ensures at <= ReapDue(entries[k], reapAfter) {
        var due := ReapDue(entries[k], reapAfter);
        assert Listed(entryDues, due, k) <==> Belongs(entries, reapAfter, due, k);
      }
      if at != TIME_MAX {
        ghost var k :| k in entryDues[at];
        assert Listed(entryDues, at, k);
      }
    }

    /** Empties every slot up to `now`. */
    method TakeSlots(now: u64) returns (keys: set<Bytes>)
      modifies this`entryDues
      ensures forall at :: at in entryDues <==> at in old(entryDues) && at > now
      ensures forall at :: at in entryDues ==> entryDues[at] == old(entryDues)[at]
      ensures forall k :: k in keys <==> exists at: u64 :: at <= now && Listed(old(entryDues), at, k)
    {
      keys := {};
      while true
        invariant forall at :: at in entryDues ==> at in old(entryDues) && entryDues[at] == old(entryDues)[at]
        invariant forall at :: at in old(entryDues) && at > now ==> at in entryDues
        invariant forall k :: k in keys <==> exists at: u64 :: at <= now && at !in entryDues && Listed(old(entryDues), at, k)
        decreases |entryDues|
      {
        var first := First();
        if first.None? || first.value > now {
          return;
        }
        ghost var was, before := entryDues, keys;
        keys := keys + entryDues[first.value];
        entryDues := entryDues - {first.value};
        forall k ensures k in keys <==> exists at: u64 :: at <= now && at !in entryDues && Listed(old(entryDues), at, k) {
          if k in was[first.value] {
            assert Listed(old(entryDues), first.value, k);
          }
          if k in before {
            var at: u64 :| at <= now && at !in was && Listed(old(entryDues), at, k);
            assert at !in entryDues;
          }
        }
      }
    }

    /** Takes out what has fallen due, least key first. */
    method TakeDueEntries(now: u64) returns (due: seq<(Bytes, StateEntry)>)
      requires Valid()
      modifies this
      ensures Valid()
      ensures entries == Untaken(old(entries), reapAfter, now)
      ensures Increasing(Keys(due))
      ensures forall i :: 0 <= i < |due| ==> due[i].0 in old(entries) && due[i].1 == old(entries)[due[i].0]
      ensures forall k :: k in Keys(due) <==> k in old(entries) && k !in entries
      ensures forall k :: k in old(entries) && now < TIME_MAX ==>
                            var e := old(entries)[k];
                            (k in entries <==> if e.tombstone then now < SatAdd(e.tombstoneSince, reapAfter) else now < e.expiresAt)
    {
      var keys := TakeSlots(now);
      TakingKeepsInverse(old(entryDues), entryDues, entries, reapAfter, now, keys);
      var sorted := Sorted(keys);
      due := [];
      ghost var left := entryDues;
      for i := 0 to |sorted|
        invariant entryDues == left
        invariant entries == old(entries) - (set k | k in sorted[..i])
        invariant Keys(due) == sorted[..i]
        invariant forall j :: 0 <= j < i ==> due[j].0 in old(entries) && due[j].1 == old(entries)[due[j].0]
      {
        LessIrreflexive(sorted[i]);
        assert sorted[i] in keys && sorted[i] !in sorted[..i];
        assert sorted[..i + 1] == sorted[..i] + [sorted[i]];
        due := due + [(sorted[i], entries[sorted[i]])];
        entries := entries - {sorted[i]};
      }
      assert sorted[..|sorted|] == sorted;
      assert entries == old(entries) - keys;
    }
  }

  function Keys(due: seq<(Bytes, StateEntry)>): seq<Bytes> {
    seq(|due|, i requires 0 <= i < |due| => due[i].0)
  }

  /** Key order. */
  method Sorted(keys: set<Bytes>) returns (r: seq<Bytes>)
    ensures Increasing(r) && forall k :: k in r <==> k in keys
  {
    r := [];
    var rest := keys;
    while rest != {}
      invariant rest <= keys && Increasing(r) && forall k :: k in r <==> k in keys && k !in rest
      decreases |rest|
    {
      var k :| k in rest;
      r := InsertOnce(r, k);
      rest := rest - {k};
    }
  }

  /**
   The index finds exactly what a full scan would, unless the clock itself stands at the
   instant that means never and some entry is never due.
   */
  lemma {:induction false} IndexAgreesWithScanIff(entries: Entries, reapAfter: u64, now: u64)
    ensures Untaken(entries, reapAfter, now) == Unscanned(entries, reapAfter, now)
            <==> now < TIME_MAX || forall k :: k in entries ==> ReapDue(entries[k], reapAfter) != TIME_MAX
  {
    var untaken, unscanned := Untaken(entries, reapAfter, now), Unscanned(entries, reapAfter, now);
    if now == TIME_MAX && exists k :: k in entries && ReapDue(entries[k], reapAfter) == TIME_MAX {
      var k :| k in entries && ReapDue(entries[k], reapAfter) == TIME_MAX;
      assert k in untaken && k !in unscanned;
    } else {
      forall k ensures k in untaken <==> k in unscanned {
      }
      assert untaken == unscanned;
    }
  }
}
