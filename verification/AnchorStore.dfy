/**
 The linearizable register the anchor lives in. The register's life is the
 sequence of records it has held; the version marker of `held[i]` is `i`, so equal
 records written twice are told apart.
 */
module AnchorStore {
  import opened Common
  import opened AnchorRules
  import opened AnchorClaimant

  function Standing(held: seq<AnchorRecord>): Option<Entry> {
    if held == [] then None else Some(Entry(held[|held| - 1], |held| - 1))
  }

  predicate Allowed(held: seq<AnchorRecord>, pre: WriteIf) {
    match pre
    case Absent => held == []
    case Matches(token) => held != [] && token == |held| - 1
  }

  /** The in-memory register: one object and a counter that numbers its versions. */
  class MemAnchor {
    var object_: Option<Entry>
    var nextEtag: nat
    ghost var held: seq<AnchorRecord>

    ghost predicate Valid()
      reads this
    {
      object_ == Standing(held) && nextEtag == |held|
    }

    constructor ()
      ensures Valid() && held == []
    {
      object_, nextEtag, held := None, 0, [];
    }

    method Load() returns (entry: Option<Entry>)
      requires Valid()
      ensures entry == Standing(held)
    {
      entry := object_;
    }

    method Store(pre: WriteIf, record: AnchorRecord) returns (outcome: Cas)
      requires Valid()
      modifies this
      ensures Valid()
      ensures Allowed(old(held), pre) ==> outcome == Stored(|old(held)|) && held == old(held) + [record]
      ensures !Allowed(old(held), pre) ==> outcome == Mismatch && held == old(held)
    {
      var allowed := match (pre, object_)
        case (Absent, None) => true
        case (Matches(token), Some(entry)) => token == entry.token
        case (Absent, Some(_)) => false
        case (Matches(_), None) => false;
      if allowed {
        var etag := nextEtag;
        nextEtag := nextEtag + 1;
        object_ := Some(Entry(record, etag));
        held := held + [record];
        outcome := Stored(etag);
      } else {
        outcome := Mismatch;
      }
    }
  }
}
