/** Rendezvous placement: who owns a key, and how little a change of members moves. */
module Placement {
  import opened Common
  import opened Ids

  /** The score of a node's `i`th virtual token for one fixed key; any hash will do. */
  type Scores = (NodeId, nat) -> u64

  type Members = map<NodeId, u32>

  /** A node's score: the best of its `weight` tokens, or zero if it has none. */
  function NodeScore(score: Scores, node: NodeId, weight: nat): (r: u64)
    ensures forall t :: 0 <= t < weight ==> score(node, t) <= r
    ensures weight > 0 ==> exists t :: 0 <= t < weight && score(node, t) == r
  {
    if weight == 0 then 0
    else if weight == 1 then score(node, 0)
    else Max(NodeScore(score, node, weight - 1), score(node, weight - 1))
  }

  /** Higher score first, the smaller identity winning a tie. */
  predicate Beats(score: Scores, members: Members, a: NodeId, b: NodeId) {
    && a in members && b in members
    && var x, y := NodeScore(score, a, members[a]), NodeScore(score, b, members[b]);
       x > y || (x == y && Less(a, b))
  }

  /** Weight zero makes a node ineligible. */
  predicate Eligible(members: Members, node: NodeId) {
    node in members && members[node] > 0
  }

  /** All eligible members, best first. */
  ghost predicate Ranks(score: Scores, members: Members, r: seq<NodeId>) {
    (forall n :: n in r <==> Eligible(members, n)) && Ordered(score, members, r)
  }

  /** Members in ranking order, none twice. */
  ghost predicate Ordered(score: Scores, members: Members, r: seq<NodeId>) {
    && (forall i :: 0 <= i < |r| ==> r[i] in members)
    && (forall i, j :: 0 <= i < j < |r| ==> Beats(score, members, r[i], r[j]))
  }

  lemma {:induction false} BeatsIsStrict(score: Scores, members: Members, a: NodeId, b: NodeId)
    requires Beats(score, members, a, b)
    ensures a != b && !Beats(score, members, b, a)
  {
    LessIrreflexive(a);
    if Less(a, b) && Less(b, a) {
      LessTransitive(a, b, a);
    }
  }

  lemma {:induction false} BeatsIsTotal(score: Scores, members: Members, a: NodeId, b: NodeId)
    requires a in members && b in members && a != b
    ensures Beats(score, members, a, b) || Beats(score, members, b, a)
  {
    LessTotal(a, b);
  }

  lemma {:induction false} BeatsIsTransitive(score: Scores, members: Members, a: NodeId, b: NodeId, c: NodeId)
    requires Beats(score, members, a, b) && Beats(score, members, b, c)
    ensures Beats(score, members, a, c)
  {
    if Less(a, b) && Less(b, c) {
      LessTransitive(a, b, c);
    }
  }

  // ---- The ranking and the winner, computed ----

  /** The place of `node` in a ranking so far. */
  method Insert(score: Scores, members: Members, r: seq<NodeId>, node: NodeId) returns (s: seq<NodeId>)
    requires Ordered(score, members, r) && node in members && node !in r
    ensures Ordered(score, members, s) && forall n :: n in s <==> n in r || n == node
  {
    var k := 0;
    while k < |r| && Beats(score, members, r[k], node)
      invariant 0 <= k <= |r|
      invariant forall i :: 0 <= i < k ==> Beats(score, members, r[i], node)
    {
      k := k + 1;
    }
    s := r[..k] + [node] + r[k..];
    assert r == r[..k] + r[k..];
    forall i | k <= i < |r| ensures Beats(score, members, node, r[i]) {
      BeatsIsTotal(score, members, r[k], node);
      if i > k {
        BeatsIsTransitive(score, members, node, r[k], r[i]);
      }
    }
    InsertedIsOrdered(score, members, r, k, node);
  }

  lemma {:induction false} InsertedIsOrdered(score: Scores, members: Members, r: seq<NodeId>, k: nat, node: NodeId)
    requires Ordered(score, members, r) && k <= |r| && node in members
    requires forall i :: 0 <= i < k ==> Beats(score, members, r[i], node)
    requires forall i :: k <= i < |r| ==> Beats(score, members, node, r[i])
    ensures Ordered(score, members, r[..k] + [node] + r[k..])
  {
  }

  /** A better score ranks first, and of two equal scores the lesser name. */
  lemma {:induction false} RankingGoesByScoreThenName(score: Scores, members: Members, r: seq<NodeId>, i: nat, j: nat)
    requires Ranks(score, members, r) && i < j < |r|
    ensures var x, y := NodeScore(score, r[i], members[r[i]]), NodeScore(score, r[j], members[r[j]]);
            y <= x && (x == y ==> Less(r[i], r[j]))
  {
    assert Beats(score, members, r[i], r[j]);
  }

  /** Ranks the eligible members and returns the first `replicas` of them. */
  method Owners(score: Scores, members: Members, replicas: nat) returns (owners: seq<NodeId>)
    ensures exists ranking :: Ranks(score, members, ranking) && owners == ranking[..Min(replicas, |ranking|)]
  {
    var ranked: seq<NodeId> := [];
    var rest := members.Keys;
    while rest != {}
      invariant rest <= members.Keys
      invariant forall n :: n in ranked <==> n !in rest && Eligible(members, n)
      invariant Ordered(score, members, ranked)
      decreases |rest|
    {
      var node :| node in rest;
      if members[node] > 0 {
        assert node !in ranked;
        ranked := Insert(score, members, ranked, node);
      }
      rest := rest - {node};
    }
    owners := ranked[..Min(replicas, |ranked|)];
    assert Ranks(score, members, ranked);
  }

  function Unit(members: set<NodeId>): Members {
    map n | n in members :: 1
  }

  /** The single owner among unweighted members. */
  method Owner(score: Scores, members: set<NodeId>) returns (owner: Option<NodeId>)
    ensures owner.None? <==> members == {}
    ensures owner.Some? ==> owner.value in members
                            && forall n :: n in members && n != owner.value ==> Beats(score, Unit(members), owner.value, n)
  {
    owner := None;
    var rest := members;
    while rest != {}
      invariant rest <= members
      invariant owner.None? <==> rest == members
      invariant owner.Some? ==> owner.value in members - rest
                                && forall n :: n in members - rest && n != owner.value ==> Beats(score, Unit(members), owner.value, n)
      decreases |rest|
    {
      var node :| node in rest;
      ghost var was := rest;
      rest := rest - {node};
      if owner.None? {
        owner := Some(node);
      } else {
        var best := owner.value;
        BeatsIsTotal(score, Unit(members), node, best);
        if score(node, 0) > score(best, 0) || (score(node, 0) == score(best, 0) && Less(node, best)) {
          forall n | n in members - rest && n != node ensures Beats(score, Unit(members), node, n) {
            if n != best {
              BeatsIsTransitive(score, Unit(members), node, best, n);
            }
          }
          owner := Some(node);
        }
      }
    }
  }

  // ---- What a change of members moves ----

  function Without(r: seq<NodeId>, x: NodeId): seq<NodeId> {
    if r == [] then []
    else Without(r[..|r| - 1], x) + if r[|r| - 1] == x then [] else [r[|r| - 1]]
  }

  lemma {:induction false} WithoutKeeps(r: seq<NodeId>, x: NodeId)
    ensures forall n :: n in Without(r, x) <==> n in r && n != x
  {
    if r != [] {
      WithoutKeeps(r[..|r| - 1], x);
      assert r == r[..|r| - 1] + [r[|r| - 1]];
    }
  }

  /** The same nodes with the same weights are ranked the same way. */
  predicate SameScores(score: Scores, a: Members, b: Members, n: NodeId)
    requires n in a && n in b
  {
    NodeScore(score, n, a[n]) == NodeScore(score, n, b[n])
  }

  lemma {:induction false} WithoutIsOrdered(score: Scores, members: Members, fewer: Members, r: seq<NodeId>, x: NodeId)
    requires Ordered(score, members, r)
    requires forall i :: 0 <= i < |r| && r[i] != x ==> r[i] in fewer && SameScores(score, members, fewer, r[i])
    ensures Ordered(score, fewer, Without(r, x))
  {
    if r != [] {
      var front, last := r[..|r| - 1], r[|r| - 1];
      WithoutIsOrdered(score, members, fewer, front, x);
      WithoutKeeps(front, x);
      var s := Without(front, x);
      forall i | 0 <= i < |s| && last != x ensures Beats(score, fewer, s[i], last) {
        assert s[i] in s;
        var k :| 0 <= k < |front| && front[k] == s[i];
        assert Beats(score, members, r[k], r[|r| - 1]);
        assert SameScores(score, members, fewer, r[k]) && SameScores(score, members, fewer, r[|r| - 1]);
      }
    }
  }

  /** Two orderings of the same nodes agree element by element. */
  lemma {:induction false} OrderIsUnique(score: Scores, members: Members, a: seq<NodeId>, b: seq<NodeId>)
    requires Ordered(score, members, a) && Ordered(score, members, b) && forall n :: n in a <==> n in b
    ensures a == b
    decreases |a|
  {
    if b != [] {
      assert b[0] in b;
    }
    if a != [] {
      assert a[0] in b && b[0] in a;
      FirstsAgree(score, members, a, b);
      TailHolds(score, members, a, b);
      TailHolds(score, members, b, a);
      OrderIsUnique(score, members, a[1..], b[1..]);
      assert a == [a[0]] + a[1..] && b == [b[0]] + b[1..];
    }
  }

  lemma {:induction false} FirstsAgree(score: Scores, members: Members, a: seq<NodeId>, b: seq<NodeId>)
    requires Ordered(score, members, a) && Ordered(score, members, b) && a != [] && b != [] && a[0] in b && b[0] in a
    ensures a[0] == b[0]
  {
    if a[0] != b[0] {
      assert Beats(score, members, a[0], b[0]);
      assert Beats(score, members, b[0], a[0]);
      BeatsIsStrict(score, members, a[0], b[0]);
      assert false;
    }
  }

  lemma {:induction false} TailHolds(score: Scores, members: Members, a: seq<NodeId>, b: seq<NodeId>)
    requires Ordered(score, members, a) && a != [] && b != [] && a[0] == b[0] && forall n :: n in a ==> n in b
    ensures forall n :: n in a[1..] ==> n in b[1..]
  {
    forall n | n in a[1..] ensures n in b[1..] {
      var i :| 0 <= i < |a[1..]| && a[1..][i] == n;
      BeatsIsStrict(score, members, a[0], a[i + 1]);
      assert n in a;
      assert b == [b[0]] + b[1..];
    }
  }

  /**
   A node that leaves only disappears from the ranking, and one that joins is only inserted:
   everybody else keeps their order.
   */
  lemma {:induction false} LeavingOnlyDeletes(score: Scores, members: Members, x: NodeId, before: seq<NodeId>,
                                              after: seq<NodeId>)
    requires Ranks(score, members, before) && Ranks(score, members - {x}, after)
    ensures after == Without(before, x)
  {
    WithoutKeeps(before, x);
    WithoutIsOrdered(score, members, members - {x}, before, x);
    OrderIsUnique(score, members - {x}, after, Without(before, x));
  }

  lemma {:induction false} DistinctNodes(score: Scores, members: Members, r: seq<NodeId>, n: nat)
    requires n <= |r| && Ordered(score, members, r)
    ensures |set i | 0 <= i < n :: r[i]| == n
  {
    var upTo := set i | 0 <= i < n :: r[i];
    if n > 0 {
      var less := set i | 0 <= i < n - 1 :: r[i];
      DistinctNodes(score, members, r, n - 1);
      forall i | 0 <= i < n - 1 ensures r[i] != r[n - 1] {
        BeatsIsStrict(score, members, r[i], r[n - 1]);
      }
      assert upTo == less + {r[n - 1]};
    }
  }

  /** Whoever is ahead of a node after its weight was raised was ahead of it before. */
  lemma {:induction false} AheadWasAhead(score: Scores, members: Members, x: NodeId, more: u32, y: NodeId)
    requires Eligible(members, x) && members[x] <= more && y in members && y != x
    requires Beats(score, members[x := more], y, x)
    ensures Beats(score, members, y, x)
  {
  }

  lemma {:induction false} AheadWasRankedAhead(score: Scores, members: Members, x: NodeId, more: u32,
                                               before: seq<NodeId>, i: nat, y: NodeId)
    requires Eligible(members, x) && members[x] <= more && Eligible(members, y)
    requires Ranks(score, members, before) && i < |before| && before[i] == x && Beats(score, members[x := more], y, x)
    ensures exists m :: 0 <= m < i && before[m] == y
  {
    BeatsIsStrict(score, members[x := more], y, x);
    AheadWasAhead(score, members, x, more, y);
    var m :| 0 <= m < |before| && before[m] == y;
    if m > i {
      BeatsIsStrict(score, members, before[i], before[m]);
      assert false;
    }
  }

  /** Raising a node's weight never moves it down the ranking. */
  lemma {:induction false} RaisingNeverLoses(score: Scores, members: Members, x: NodeId, more: u32,
                                             before: seq<NodeId>, after: seq<NodeId>, i: nat, j: nat)
    requires Eligible(members, x) && members[x] <= more
    requires Ranks(score, members, before) && Ranks(score, members[x := more], after)
    requires i < |before| && before[i] == x && j < |after| && after[j] == x
    ensures j <= i
  {
    var ahead := set k | 0 <= k < j :: after[k];
    var was := set k | 0 <= k < i :: before[k];
    forall k | 0 <= k < j ensures after[k] in was {
      BeatsIsStrict(score, members[x := more], after[k], after[j]);
      assert after[k] in after && Eligible(members, after[k]);
      AheadWasRankedAhead(score, members, x, more, before, i, after[k]);
    }
    DistinctNodes(score, members[x := more], after, j);
    DistinctNodes(score, members, before, i);
    SubsetIsNoLarger(ahead, was);
  }

  /** At unit weights the single owner is the first of the ranked owners. */
  lemma {:induction false} OwnerHeadsTheRanking(score: Scores, members: set<NodeId>, owner: NodeId, ranking: seq<NodeId>)
    requires owner in members && forall n :: n in members && n != owner ==> Beats(score, Unit(members), owner, n)
    requires Ranks(score, Unit(members), ranking)
    ensures ranking != [] && ranking[0] == owner
  {
    assert Eligible(Unit(members), owner);
    var k :| 0 <= k < |ranking| && ranking[k] == owner;
    if k > 0 {
      assert ranking[0] in ranking && Eligible(Unit(members), ranking[0]);
      BeatsIsStrict(score, Unit(members), ranking[0], ranking[k]);
      assert false;
    }
  }

  /** Deleting a node moves nobody down. */
  lemma {:induction false} WithoutMovesUp(r: seq<NodeId>, x: NodeId, i: nat)
    requires i < |r| && r[i] != x
    ensures exists j :: 0 <= j <= i && j < |Without(r, x)| && Without(r, x)[j] == r[i]
  {
    var front := r[..|r| - 1];
    if i < |front| {
      WithoutMovesUp(front, x, i);
      var j :| 0 <= j <= i && j < |Without(front, x)| && Without(front, x)[j] == front[i];
      assert Without(r, x)[j] == r[i];
    } else {
      WithoutIsNoLonger(front, x);
      assert Without(r, x)[|Without(front, x)|] == r[i];
    }
  }

  lemma {:induction false} WithoutIsNoLonger(r: seq<NodeId>, x: NodeId)
    ensures |Without(r, x)| <= |r|
  {
    if r != [] {
      WithoutIsNoLonger(r[..|r| - 1], x);
    }
  }

  /** When a node leaves, every other owner of a key still owns it. */
  lemma {:induction false} LeavingMovesOnlyItsOwnKeys(score: Scores, members: Members, x: NodeId, before: seq<NodeId>,
                                                      after: seq<NodeId>, replicas: nat, i: nat)
    requires Ranks(score, members, before) && Ranks(score, members - {x}, after)
    requires i < |before| && i < replicas && before[i] != x
    ensures before[i] in after[..Min(replicas, |after|)]
  {
    LeavingOnlyDeletes(score, members, x, before, after);
    WithoutMovesUp(before, x, i);
    var j :| 0 <= j <= i && j < |after| && after[j] == before[i];
    assert after[..Min(replicas, |after|)][j] == before[i];
  }
}
