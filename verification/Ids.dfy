/** The order of node identities: byte by byte, as string slices compare. */
module Ids {
  import opened Common

  predicate Less(a: NodeId, b: NodeId) {
    if b == [] then false
    else if a == [] then true
    else a[0] < b[0] || (a[0] == b[0] && Less(a[1..], b[1..]))
  }

  /** One name precedes another exactly when it is its proper prefix or has the lesser byte where they first differ. */
  lemma {:induction false} LessIsLexicographic(a: NodeId, b: NodeId)
    ensures Less(a, b) <==> exists k :: 0 <= k <= |a| && k < |b| && a[..k] == b[..k] && (k == |a| || a[k] < b[k])
  {
    if a != [] && b != [] && a[0] == b[0] {
      LessIsLexicographic(a[1..], b[1..]);
      if k :| 0 <= k <= |a| && k < |b| && a[..k] == b[..k] && (k == |a| || a[k] < b[k]) {
        assert a[1..][..k - 1] == a[..k][1..] && b[1..][..k - 1] == b[..k][1..];
      }
      if k :| 0 <= k <= |a[1..]| && k < |b[1..]| && a[1..][..k] == b[1..][..k] && (k == |a[1..]| || a[1..][k] < b[1..][k]) {
        assert a[..k + 1] == [a[0]] + a[1..][..k] && b[..k + 1] == [b[0]] + b[1..][..k];
      }
    } else if Less(a, b) {
      assert a[..0] == b[..0];
    }
  }

  lemma {:induction false} LessIrreflexive(a: NodeId)
    ensures !Less(a, a)
  {
    if a != [] {
      LessIrreflexive(a[1..]);
    }
  }

  lemma {:induction false} LessTransitive(a: NodeId, b: NodeId, c: NodeId)
    requires Less(a, b) && Less(b, c)
    ensures Less(a, c)
  {
    if a != [] && a[0] == b[0] && b[0] == c[0] {
      LessTransitive(a[1..], b[1..], c[1..]);
    }
  }

  lemma {:induction false} LessTotal(a: NodeId, b: NodeId)
    ensures Less(a, b) || a == b || Less(b, a)
  {
    if a != [] && b != [] && a[0] == b[0] {
      LessTotal(a[1..], b[1..]);
      assert a == [a[0]] + a[1..] && b == [b[0]] + b[1..];
    }
  }

  /** Strictly increasing, so also free of duplicates. */
  predicate Increasing(s: seq<NodeId>) {
    forall i, j :: 0 <= i < j < |s| ==> Less(s[i], s[j])
  }

  /** Inserts `x` at its place in `s`, or nowhere when it is already there. */
  method InsertOnce(s: seq<NodeId>, x: NodeId) returns (r: seq<NodeId>)
    requires Increasing(s)
    ensures Increasing(r)
    ensures forall y :: y in r <==> y in s || y == x
  {
    var i := 0;
    while i < |s| && Less(s[i], x)
      invariant 0 <= i <= |s|
      invariant forall k :: 0 <= k < i ==> Less(s[k], x)
    {
      i := i + 1;
    }
    if i < |s| && s[i] == x {
      return s;
    }
    r := s[..i] + [x] + s[i..];
    forall j, k | 0 <= j < k < |r| ensures Less(r[j], r[k]) {
      if k > i && j <= i {
        LessTotal(s[i], x);
        if k - 1 > i {
          LessTransitive(x, s[i], s[k - 1]);
        }
        if j < i {
          assert Less(s[j], s[k - 1]);
        }
      }
    }
    forall y ensures y in r <==> y in s || y == x {
      assert s == s[..i] + s[i..];
    }
  }

  /** Sorts and drops duplicates. */
  method SortDedup(xs: seq<NodeId>) returns (r: seq<NodeId>)
    ensures Increasing(r)
    ensures forall y :: y in r <==> y in xs
  {
    r := [];
    for i := 0 to |xs|
      invariant Increasing(r)
      invariant forall y :: y in r <==> y in xs[..i]
    {
      r := InsertOnce(r, xs[i]);
      assert xs[..i + 1] == xs[..i] + [xs[i]];
    }
    assert xs[..|xs|] == xs;
  }
}
