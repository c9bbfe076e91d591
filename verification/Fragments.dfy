/**
 The ordering of the fragments of a slide.  A fragment is known by its position in the document; its
 index attribute, when there is one, names the group it belongs to.
 */
module Fragments {
  import opened Options

  /** What fragments are ordered by: those with an index by it, the others after them, each on its own. */
  function Key(indices: seq<Option<nat>>, bound: nat, i: nat): nat
    requires i < |indices|
  {
    match indices[i]
    case Some(k) => k
    case None => bound + i
  }

  function Keys(indices: seq<Option<nat>>, bound: nat): (ks: seq<nat>)
    ensures |ks| == |indices|
  {
    seq(|indices|, i requires 0 <= i < |indices| => Key(indices, bound, i))
  }

  /** The bound that JavaScript's array length gives: above every index. */
  ghost predicate IsBound(indices: seq<Option<nat>>, bound: nat)
  {
    forall i :: 0 <= i < |indices| && indices[i].Some? ==> indices[i].value < bound
  }

  /** The length of a sparse array with an element at each index: one more than the highest. */
  function LengthTo(indices: seq<Option<nat>>, i: nat): (n: nat)
    requires i <= |indices|
    ensures forall j :: 0 <= j < i && indices[j].Some? ==> indices[j].value < n
  {
    if i == 0 then 0
    else
      var n := LengthTo(indices, i - 1);
      match indices[i - 1]
      case Some(index) => if index + 1 > n then index + 1 else n
      case None => n
  }

  /** The keys that sortFragments orders by. */
  function SortKeys(indices: seq<Option<nat>>): (ks: seq<nat>)
    ensures |ks| == |indices|
  {
    Keys(indices, LengthTo(indices, |indices|))
  }

  /**
   Fragments compare by their indices; one without comes after all that have one, and after others without that
   stand before it.
   */
  lemma {:induction false} KeysCompare(indices: seq<Option<nat>>, i: nat, j: nat)
    requires i < |indices| && j < |indices| && i != j
    ensures var keys := SortKeys(indices);
      match indices[i]
      case Some(a) => if indices[j].Some? then (keys[i] < keys[j] <==> a < indices[j].value)
                                               && (keys[i] == keys[j] <==> a == indices[j].value)
                      else keys[i] < keys[j]
      case None => if indices[j].Some? then keys[j] < keys[i] else keys[i] < keys[j] <==> i < j
  {
  }

  predicate Before(keys: seq<nat>, i: nat, j: nat)
    requires i < |keys| && j < |keys|
  {
    keys[i] < keys[j] || (keys[i] == keys[j] && i < j)
  }

  predicate Occurs(order: seq<nat>, i: nat)
  {
    i in order
  }

  /** One position further in the order the rank is the same, or, at a greater key, the next. */
  predicate Follows(keys: seq<nat>, order: seq<nat>, ranks: seq<nat>, a: nat)
    requires |keys| == |ranks| && 1 <= a < |order| && order[a] < |keys| && order[a - 1] < |keys|
  {
    ranks[order[a]] == ranks[order[a - 1]] + if keys[order[a]] == keys[order[a - 1]] then 0 else 1
  }

  /**
   The order is a stable sort of all positions by key, and the ranks number the groups of equal keys
   in that order, without gaps, from 0.
   */
  ghost predicate Ranked(keys: seq<nat>, order: seq<nat>, ranks: seq<nat>)
  {
    && |order| == |ranks| == |keys|
    && (forall a :: 0 <= a < |order| ==> order[a] < |keys|)
    && (forall i :: 0 <= i < |keys| ==> Occurs(order, i))
    && (forall a, b :: 0 <= a < b < |order| ==> Before(keys, order[a], order[b]))
    && (|order| > 0 ==> ranks[order[0]] == 0)
    && (forall a: nat {:trigger Follows(keys, order, ranks, a)} :: 1 <= a < |order| ==> Follows(keys, order, ranks, a))
  }

  /** No gaps: below every key is the next smaller one, down to 0. */
  ghost predicate Dense(keys: seq<nat>)
  {
    forall i :: 0 <= i < |keys| && keys[i] > 0 ==> keys[i] - 1 in keys
  }

  /** Where a position stands in the order. */
  lemma {:induction false} PlaceOf(keys: seq<nat>, order: seq<nat>, ranks: seq<nat>, i: nat) returns (a: nat)
    requires Ranked(keys, order, ranks) && i < |keys|
    ensures a < |order| && order[a] == i
  {
    assert Occurs(order, i);
    a :| 0 <= a < |order| && order[a] == i;
  }

  lemma {:induction false} Compare(keys: seq<nat>, order: seq<nat>, ranks: seq<nat>, a: nat, b: nat)
    requires Ranked(keys, order, ranks) && a < |order| && b < |order|
    ensures a < b ==> Before(keys, order[a], order[b])
    ensures b < a ==> Before(keys, order[b], order[a])
  {
  }

  lemma {:induction false} RanksRise(keys: seq<nat>, order: seq<nat>, ranks: seq<nat>, a: nat, b: nat)
    requires Ranked(keys, order, ranks) && a <= b < |order|
    ensures ranks[order[a]] <= ranks[order[b]]
    ensures ranks[order[a]] == ranks[order[b]] <==> keys[order[a]] == keys[order[b]]
    decreases b
  {
    if a < b {
      RanksRise(keys, order, ranks, a, b - 1);
      assert Follows(keys, order, ranks, b);
      assert Before(keys, order[b - 1], order[b]);
      if a < b - 1 {
        assert Before(keys, order[a], order[b - 1]);
      }
    }
  }

  /** Ranks order the fragments exactly as their keys did. */
  lemma {:induction false} RanksFollowKeys(keys: seq<nat>, order: seq<nat>, ranks: seq<nat>, i: nat, j: nat)
    requires Ranked(keys, order, ranks) && i < |keys| && j < |keys|
    ensures ranks[i] < ranks[j] <==> keys[i] < keys[j]
    ensures ranks[i] == ranks[j] <==> keys[i] == keys[j]
  {
    var a := PlaceOf(keys, order, ranks, i);
    var b := PlaceOf(keys, order, ranks, j);
    if a <= b {
      RanksRise(keys, order, ranks, a, b);
    } else {
      RanksRise(keys, order, ranks, b, a);
    }
    if a < b {
      assert Before(keys, order[a], order[b]);
    }
    if b < a {
      assert Before(keys, order[b], order[a]);
    }
  }

  /** Groups are numbered densely from 0. */
  lemma {:induction false} RanksDense(keys: seq<nat>, order: seq<nat>, ranks: seq<nat>)
    requires Ranked(keys, order, ranks)
    ensures Dense(ranks)
  {
    forall i | 0 <= i < |keys| && ranks[i] > 0 ensures ranks[i] - 1 in ranks {
      var a := PlaceOf(keys, order, ranks, i);
      RankBelow(keys, order, ranks, a);
    }
  }

  lemma {:induction false} RankBelow(keys: seq<nat>, order: seq<nat>, ranks: seq<nat>, a: nat)
    requires Ranked(keys, order, ranks) && a < |order| && ranks[order[a]] > 0
    ensures ranks[order[a]] - 1 in ranks
  {
    assert a > 0 && Follows(keys, order, ranks, a);
    if keys[order[a]] == keys[order[a - 1]] {
      RankBelow(keys, order, ranks, a - 1);
    }
  }

  /** Indices that are already dense are not rewritten: sorting is idempotent on what it has numbered. */
  lemma {:induction false} DenseKept(keys: seq<nat>, order: seq<nat>, ranks: seq<nat>)
    requires Ranked(keys, order, ranks) && Dense(keys)
    ensures ranks == keys
  {
    forall i | 0 <= i < |keys| ensures ranks[i] == keys[i] {
      var a := PlaceOf(keys, order, ranks, i);
      DenseKeptAt(keys, order, ranks, a);
    }
  }

  lemma {:induction false} DenseKeptAt(keys: seq<nat>, order: seq<nat>, ranks: seq<nat>, a: nat)
    requires Ranked(keys, order, ranks) && Dense(keys) && a < |order|
    ensures ranks[order[a]] == keys[order[a]]
  {
    if a > 0 {
      DenseKeptAt(keys, order, ranks, a - 1);
      assert Follows(keys, order, ranks, a);
      assert Before(keys, order[a - 1], order[a]);
    }
    if keys[order[a]] > 0 {
      var j :| 0 <= j < |keys| && keys[j] == keys[order[a]] - 1;
      var c := PlaceOf(keys, order, ranks, j);
      Compare(keys, order, ranks, a, c);
      Compare(keys, order, ranks, if a > 0 then a - 1 else 0, c);
    }
  }

  ghost predicate SameComparisons(keys: seq<nat>, keys': seq<nat>)
  {
    |keys| == |keys'| &&
    forall i, j :: 0 <= i < |keys| && 0 <= j < |keys| ==> (keys[i] < keys[j] <==> keys'[i] < keys'[j])
  }

  /** The result depends only on how the keys compare, so a second sort reproduces the first. */
  lemma {:induction false} RankedUnique(keys: seq<nat>, order: seq<nat>, ranks: seq<nat>, keys': seq<nat>,
          order': seq<nat>, ranks': seq<nat>)
    requires Ranked(keys, order, ranks) && Ranked(keys', order', ranks') && SameComparisons(keys, keys')
    ensures order == order' && ranks == ranks'
  {
    SameOrder(keys, order, ranks, keys', order', ranks');
    SameRanks(keys, order, ranks, keys', ranks');
  }

  lemma {:induction false} SameOrder(keys: seq<nat>, order: seq<nat>, ranks: seq<nat>, keys': seq<nat>,
          order': seq<nat>, ranks': seq<nat>)
    requires Ranked(keys, order, ranks) && Ranked(keys', order', ranks') && SameComparisons(keys, keys')
    ensures order == order'
  {
    forall a: nat | a < |order| ensures order[a] == order'[a] {
      SamePlace(keys, order, ranks, keys', order', ranks', a);
    }
  }

  lemma {:induction false} SameRanks(keys: seq<nat>, order: seq<nat>, ranks: seq<nat>, keys': seq<nat>,
          ranks': seq<nat>)
    requires Ranked(keys, order, ranks) && Ranked(keys', order, ranks') && SameComparisons(keys, keys')
    ensures ranks == ranks'
  {
    forall i | 0 <= i < |keys| ensures ranks[i] == ranks'[i] {
      var a := PlaceOf(keys, order, ranks, i);
      SameRank(keys, order, ranks, keys', ranks', a);
    }
  }

  lemma {:induction false} SamePlace(keys: seq<nat>, order: seq<nat>, ranks: seq<nat>, keys': seq<nat>,
          order': seq<nat>, ranks': seq<nat>, a: nat)
    requires Ranked(keys, order, ranks) && Ranked(keys', order', ranks') && SameComparisons(keys, keys') && a < |keys|
    ensures order[a] == order'[a]
    decreases a
  {
    forall e | 0 <= e < a ensures order[e] == order'[e] {
      SamePlace(keys, order, ranks, keys', order', ranks', e);
    }
    var c := PlaceOf(keys', order', ranks', order[a]);
    var d := PlaceOf(keys, order, ranks, order'[a]);
    Compare(keys', order', ranks', a, c);
    Compare(keys, order, ranks, a, d);
    Compare(keys, order, ranks, if c < a then c else a, a);
    Compare(keys', order', ranks', if d < a then d else a, a);
  }

  lemma {:induction false} SameRank(keys: seq<nat>, order: seq<nat>, ranks: seq<nat>, keys': seq<nat>,
          ranks': seq<nat>, a: nat)
    requires Ranked(keys, order, ranks) && Ranked(keys', order, ranks') && SameComparisons(keys, keys') && a < |keys|
    ensures ranks[order[a]] == ranks'[order[a]]
  {
    if a > 0 {
      SameRank(keys, order, ranks, keys', ranks', a - 1);
      assert Follows(keys, order, ranks, a) && Follows(keys', order, ranks', a);
    }
  }

  /** The fragments whose rank is at most m, as a list with their ranks, keep those ranks when sorted alone. */
  lemma {:induction false} PrefixDense(keys: seq<nat>, visible: seq<nat>, m: int)
    requires Dense(keys)
    requires forall k :: k in visible <==> k in keys && k <= m
    ensures Dense(visible)
  {
    forall i | 0 <= i < |visible| && visible[i] > 0 ensures visible[i] - 1 in visible {
      assert visible[i] in keys;
      var j :| 0 <= j < |keys| && keys[j] == visible[i];
      assert keys[j] - 1 in keys;
    }
  }

  /** Sorting once more, now by the indices that the first sort wrote, changes neither order nor indices. */
  lemma {:induction false} SortIdempotent(keys: seq<nat>, order: seq<nat>, ranks: seq<nat>, order': seq<nat>,
          ranks': seq<nat>)
    requires Ranked(keys, order, ranks) && Ranked(ranks, order', ranks')
    ensures order' == order && ranks' == ranks
  {
    RanksCompare(keys, order, ranks);
    RankedUnique(keys, order, ranks, ranks, order', ranks');
  }

  lemma {:induction false} RanksCompare(keys: seq<nat>, order: seq<nat>, ranks: seq<nat>)
    requires Ranked(keys, order, ranks)
    ensures SameComparisons(keys, ranks)
  {
    forall i: nat, j: nat | i < |keys| && j < |keys| ensures keys[i] < keys[j] <==> ranks[i] < ranks[j] {
      RanksFollowKeys(keys, order, ranks, i, j);
    }
  }

  // ---- the algorithm ----

  /** The positions below n whose index is k, in document order. */
  function Group(indices: seq<Option<nat>>, k: nat, n: nat): seq<nat>
    requires n <= |indices|
  {
    if n == 0 then [] else Group(indices, k, n - 1) + if indices[n - 1] == Some(k) then [n - 1] else []
  }

  lemma {:induction false} GroupMembers(indices: seq<Option<nat>>, k: nat, n: nat)
    requires n <= |indices|
    ensures forall a :: 0 <= a < |Group(indices, k, n)| ==>
              Group(indices, k, n)[a] < n && indices[Group(indices, k, n)[a]] == Some(k)
    ensures forall i :: 0 <= i < n && indices[i] == Some(k) ==> i in Group(indices, k, n)
    ensures forall a, b :: 0 <= a < b < |Group(indices, k, n)| ==> Group(indices, k, n)[a] < Group(indices, k, n)[b]
  {
    if n > 0 {
      GroupMembers(indices, k, n - 1);
    }
  }

  /** The positions below n without an index, each a group of its own. */
  function Loose(indices: seq<Option<nat>>, n: nat): seq<seq<nat>>
    requires n <= |indices|
  {
    if n == 0 then [] else Loose(indices, n - 1) + if indices[n - 1].None? then [[n - 1]] else []
  }

  lemma {:induction false} LooseMembers(indices: seq<Option<nat>>, n: nat)
    requires n <= |indices|
    ensures forall g :: 0 <= g < |Loose(indices, n)| ==>
              |Loose(indices, n)[g]| == 1 && Loose(indices, n)[g][0] < n && indices[Loose(indices, n)[g][0]].None?
    ensures forall i :: 0 <= i < n && indices[i].None? ==> [i] in Loose(indices, n)
    ensures forall g, h :: 0 <= g < h < |Loose(indices, n)| ==> Loose(indices, n)[g][0] < Loose(indices, n)[h][0]
  {
    if n > 0 {
      LooseMembers(indices, n - 1);
    }
  }

  /** A list of groups: inside one the key is constant and positions rise, from one to the next keys rise. */
  ghost predicate Grouped(keys: seq<nat>, groups: seq<seq<nat>>)
  {
    && (forall g :: 0 <= g < |groups| ==> |groups[g]| > 0)
    && (forall g, a :: 0 <= g < |groups| && 0 <= a < |groups[g]| ==> groups[g][a] < |keys|)
    && (forall g, a, b :: 0 <= g < |groups| && 0 <= a < b < |groups[g]| ==>
          keys[groups[g][a]] == keys[groups[g][b]] && groups[g][a] < groups[g][b])
    && (forall g, h, a, b :: 0 <= g < h < |groups| && 0 <= a < |groups[g]| && 0 <= b < |groups[h]| ==>
          keys[groups[g][a]] < keys[groups[h][b]])
  }

  /** All groups of indices below b, empty ones left out. */
  function Indexed(indices: seq<Option<nat>>, b: nat): seq<seq<nat>>
  {
    if b == 0 then [] else
    Indexed(indices, b - 1) + if Group(indices, b - 1, |indices|) == [] then [] else [Group(indices, b - 1, |indices|)]
  }

  /** The index that a group has in common. */
  function Lead(indices: seq<Option<nat>>, s: seq<nat>): nat
  {
    if |s| > 0 && s[0] < |indices| && indices[s[0]].Some? then indices[s[0]].value else 0
  }

  ghost predicate IsGroup(indices: seq<Option<nat>>, s: seq<nat>, b: nat)
  {
    && |s| > 0 && s[0] < |indices| && indices[s[0]].Some? && indices[s[0]].value < b
    && s == Group(indices, indices[s[0]].value, |indices|)
  }

  lemma {:induction false} IndexedAreGroups(indices: seq<Option<nat>>, b: nat)
    ensures forall g :: 0 <= g < |Indexed(indices, b)| ==> IsGroup(indices, Indexed(indices, b)[g], b)
  {
    if b > 0 {
      IndexedAreGroups(indices, b - 1);
      GroupMembers(indices, b - 1, |indices|);
    }
  }

  lemma {:induction false} IndexedLeads(indices: seq<Option<nat>>, b: nat)
    ensures forall g, h :: 0 <= g < h < |Indexed(indices, b)| ==>
              Lead(indices, Indexed(indices, b)[g]) < Lead(indices, Indexed(indices, b)[h])
  {
    if b > 0 {
      IndexedLeads(indices, b - 1);
      IndexedAreGroups(indices, b - 1);
      GroupMembers(indices, b - 1, |indices|);
    }
  }

  lemma {:induction false} IndexedHas(indices: seq<Option<nat>>, b: nat, k: nat)
    requires k < b && Group(indices, k, |indices|) != []
    ensures Group(indices, k, |indices|) in Indexed(indices, b)
  {
    var last := Group(indices, b - 1, |indices|);
    assert Indexed(indices, b) == Indexed(indices, b - 1) + if last == [] then [] else [last];
    if k < b - 1 {
      IndexedHas(indices, b - 1, k);
    } else {
      assert last in [last];
    }
  }

  /** The groups that the code flattens: those with an index, then the loose fragments. */
  function AllGroups(indices: seq<Option<nat>>, bound: nat): seq<seq<nat>>
  {
    Indexed(indices, bound) + Loose(indices, |indices|)
  }

  lemma {:induction false} AllGrouped(indices: seq<Option<nat>>, bound: nat)
    requires IsBound(indices, bound)
    ensures Grouped(Keys(indices, bound), AllGroups(indices, bound))
  {
    IndexedAreGroups(indices, bound);
    IndexedLeads(indices, bound);
    LooseMembers(indices, |indices|);
    var front, groups := Indexed(indices, bound), AllGroups(indices, bound);
    forall g | 0 <= g < |front|
      ensures forall a :: 0 <= a < |front[g]| ==>
                front[g][a] < |indices| && indices[front[g][a]] == indices[front[g][0]]
      ensures forall a, b :: 0 <= a < b < |front[g]| ==> front[g][a] < front[g][b]
    {
      GroupMembers(indices, indices[front[g][0]].value, |indices|);
    }
  }

  /** Every fragment is in one of them. */
  lemma {:induction false} AllCovered(indices: seq<Option<nat>>, bound: nat, i: nat) returns (g: nat, a: nat)
    requires IsBound(indices, bound) && i < |indices|
    ensures g < |AllGroups(indices, bound)| && a < |AllGroups(indices, bound)[g]|
    ensures AllGroups(indices, bound)[g][a] == i
  {
    var front := Indexed(indices, bound);
    match indices[i]
    case Some(k) =>
      GroupMembers(indices, k, |indices|);
      assert i in Group(indices, k, |indices|);
      IndexedHas(indices, bound, k);
      assert Group(indices, k, |indices|) in front;
      g :| 0 <= g < |front| && front[g] == Group(indices, k, |indices|);
      a :| 0 <= a < |front[g]| && front[g][a] == i;
    case None =>
      LooseMembers(indices, |indices|);
      var loose := Loose(indices, |indices|);
      assert [i] in loose;
      var l :| 0 <= l < |loose| && loose[l] == [i];
      g, a := |front| + l, 0;
  }

  /** The part of an order made so far. */
  ghost predicate SoFar(keys: seq<nat>, order: seq<nat>, ranks: seq<nat>)
  {
    && |ranks| == |keys|
    && (forall a :: 0 <= a < |order| ==> order[a] < |keys|)
    && (forall a, b :: 0 <= a < b < |order| ==> Before(keys, order[a], order[b]))
    && (|order| > 0 ==> ranks[order[0]] == 0)
    && (forall a: nat {:trigger Follows(keys, order, ranks, a)} :: 1 <= a < |order| ==> Follows(keys, order, ranks, a))
  }

  lemma {:induction false} Push(keys: seq<nat>, order: seq<nat>, ranks: seq<nat>, f: nat, rank: nat)
    requires SoFar(keys, order, ranks) && f < |keys|
    requires if |order| == 0 then rank == 0
             else var last := order[|order| - 1];
               Before(keys, last, f) && rank == ranks[last] + if keys[f] == keys[last] then 0 else 1
    ensures SoFar(keys, order + [f], ranks[f := rank])
  {
    var last := |order| - 1;
    forall a | 0 <= a < |order| ensures Before(keys, order[a], f) && order[a] != f {
      if a < last {
        assert Before(keys, order[a], order[last]);
      }
    }
    var order', ranks' := order + [f], ranks[f := rank];
    forall a: nat | 1 <= a < |order'| ensures Follows(keys, order', ranks', a) {
      assert a <= last ==> Follows(keys, order, ranks, a);
    }
  }

  /** A strictly sorted list of positions in which all occur has each exactly once. */
  lemma {:induction false} SortedLength(keys: seq<nat>, order: seq<nat>, n: nat)
    requires forall a :: 0 <= a < |order| ==> order[a] < |keys|
    requires forall a, b :: 0 <= a < b < |order| ==> Before(keys, order[a], order[b])
    requires n == |keys| && forall i :: 0 <= i < n ==> Occurs(order, i)
    ensures |order| == n
  {
    var used := set a | 0 <= a < |order| :: order[a];
    forall i: nat ensures i in UpTo(n) <==> i in used {
      if i < n {
        assert Occurs(order, i);
      }
    }
    assert UpTo(n) == used;
    DistinctSize(keys, order);
  }

  function UpTo(n: nat): (s: set<nat>)
    ensures |s| == n
    ensures forall i: nat :: i in s <==> i < n
  {
    if n == 0 then {} else UpTo(n - 1) + {n - 1}
  }

  lemma {:induction false} DistinctSize(keys: seq<nat>, order: seq<nat>)
    requires forall a :: 0 <= a < |order| ==> order[a] < |keys|
    requires forall a, b :: 0 <= a < b < |order| ==> Before(keys, order[a], order[b])
    ensures |set a | 0 <= a < |order| :: order[a]| == |order|
  {
    if order != [] {
      var front, last := order[..|order| - 1], order[|order| - 1];
      DistinctSize(keys, front);
      assert (set a | 0 <= a < |order| :: order[a]) == (set a | 0 <= a < |front| :: front[a]) + {last};
    }
  }

  /** The group of an index with one more fragment. */
  function Added(ordered: map<nat, seq<nat>>, index: nat, i: nat): map<nat, seq<nat>>
  {
    ordered[index := (if index in ordered then ordered[index] else []) + [i]]
  }

  /** The sparse array after the fragments below i. */
  function OrderedTo(indices: seq<Option<nat>>, i: nat): map<nat, seq<nat>>
    requires i <= |indices|
  {
    if i == 0 then map[]
    else
      match indices[i - 1]
      case Some(index) => Added(OrderedTo(indices, i - 1), index, i - 1)
      case None => OrderedTo(indices, i - 1)
  }

  /** It holds the groups, and holes where they are empty. */
  lemma {:induction false} OrderedAt(indices: seq<Option<nat>>, i: nat, k: nat)
    requires i <= |indices|
    ensures var ordered := OrderedTo(indices, i);
      Group(indices, k, i) == if k in ordered then ordered[k] else []
    ensures k in OrderedTo(indices, i) ==> OrderedTo(indices, i)[k] != []
  {
    if i > 0 {
      OrderedAt(indices, i - 1, k);
    }
  }

  /** forEach skips the holes of the sparse array. */
  method Present(ordered: map<nat, seq<nat>>, length: nat, ghost indices: seq<Option<nat>>)
    returns (groups: seq<seq<nat>>)
    requires ordered == OrderedTo(indices, |indices|)
    ensures groups == Indexed(indices, length)
  {
    groups := [];
    for index := 0 to length
      invariant groups == Indexed(indices, index)
    {
      OrderedAt(indices, |indices|, index);
      if index in ordered {
        groups := groups + [ordered[index]];
      }
    }
  }

  /** The first loop: fragments by index, those without one, and the length of the sparse array. */
  method Collect(indices: seq<Option<nat>>) returns (ordered: map<nat, seq<nat>>, unordered: seq<seq<nat>>, length: nat)
    ensures ordered == OrderedTo(indices, |indices|) && unordered == Loose(indices, |indices|)
    ensures length == LengthTo(indices, |indices|)
  {
    ordered, unordered, length := map[], [], 0;
    for i := 0 to |indices|
      invariant ordered == OrderedTo(indices, i) && unordered == Loose(indices, i) && length == LengthTo(indices, i)
    {
      if indices[i].Some? {
        var index := indices[i].value;
        ordered := ordered[index := (if index in ordered then ordered[index] else []) + [i]];
        length := if index + 1 > length then index + 1 else length;
      } else {
        unordered := unordered + [[i]];
      }
    }
  }

  /** sortFragments: the flattened order, and the index attribute each fragment ends with. */
  method SortFragments(indices: seq<Option<nat>>) returns (sorted: seq<nat>, newIndices: seq<nat>)
    ensures Ranked(SortKeys(indices), sorted, newIndices)
  {
    var ordered, unordered, length := Collect(indices);
    var groups := Present(ordered, length, indices);
    sorted, newIndices := Flatten(indices, length, groups + unordered);
  }

  /** Where the flattening stands: everything up to some fragment of the group with number rank. */
  ghost predicate Reached(keys: seq<nat>, order: seq<nat>, ranks: seq<nat>, last: nat, rank: nat)
  {
    SoFar(keys, order, ranks) && |order| > 0 && order[|order| - 1] == last && ranks[last] == rank
  }

  ghost predicate AllIn(group: seq<nat>, n: nat, order: seq<nat>)
    requires n <= |group|
  {
    forall a :: 0 <= a < n ==> group[a] in order
  }

  /** The outer of the two nested loops at the end. */
  method Flatten(indices: seq<Option<nat>>, ghost bound: nat, groups: seq<seq<nat>>)
    returns (sorted: seq<nat>, newIndices: seq<nat>)
    requires IsBound(indices, bound) && groups == AllGroups(indices, bound)
    ensures Ranked(Keys(indices, bound), sorted, newIndices)
  {
    ghost var keys := Keys(indices, bound);
    AllGrouped(indices, bound);
    sorted, newIndices := [], seq(|indices|, _ => 0);
    for g := 0 to |groups|
      invariant Flattened(keys, groups, g, sorted, newIndices)
    {
      ghost var before := sorted;
      sorted, newIndices := FlattenGroup(keys, groups, g, sorted, newIndices);
      FlattenedMore(groups, g, before, sorted);
    }
    FlattenedAll(indices, bound, groups, sorted, newIndices);
  }

  /** The first g groups are in the order, numbered one by one. */
  ghost predicate Flattened(keys: seq<nat>, groups: seq<seq<nat>>, g: nat, order: seq<nat>, ranks: seq<nat>)
    requires Grouped(keys, groups) && g <= |groups|
  {
    && (if g == 0 then order == [] && |ranks| == |keys|
        else Reached(keys, order, ranks, groups[g - 1][|groups[g - 1]| - 1], g - 1))
    && AllFirst(groups, g, order)
  }

  ghost predicate AllFirst(groups: seq<seq<nat>>, g: nat, order: seq<nat>)
    requires g <= |groups|
  {
    forall h :: 0 <= h < g ==> AllIn(groups[h], |groups[h]|, order)
  }

  lemma {:induction false} FlattenedMore(groups: seq<seq<nat>>, g: nat, before: seq<nat>, order: seq<nat>)
    requires g < |groups| && AllFirst(groups, g, before) && before <= order && AllIn(groups[g], |groups[g]|, order)
    ensures AllFirst(groups, g + 1, order)
  {
    forall h | 0 <= h < g ensures AllIn(groups[h], |groups[h]|, order) {
      assert AllIn(groups[h], |groups[h]|, before);
    }
  }

  lemma {:induction false} FlattenedAll(indices: seq<Option<nat>>, bound: nat, groups: seq<seq<nat>>, order: seq<nat>,
          ranks: seq<nat>)
    requires IsBound(indices, bound) && groups == AllGroups(indices, bound) && Grouped(Keys(indices, bound), groups)
    requires Flattened(Keys(indices, bound), groups, |groups|, order, ranks)
    ensures Ranked(Keys(indices, bound), order, ranks)
  {
    Complete(indices, bound, groups, order);
    SortedLength(Keys(indices, bound), order, |indices|);
  }

  lemma {:induction false} Complete(indices: seq<Option<nat>>, bound: nat, groups: seq<seq<nat>>, sorted: seq<nat>)
    requires IsBound(indices, bound) && groups == AllGroups(indices, bound)
    requires forall g :: 0 <= g < |groups| ==> AllIn(groups[g], |groups[g]|, sorted)
    ensures forall i :: 0 <= i < |indices| ==> Occurs(sorted, i)
  {
    forall i | 0 <= i < |indices| ensures Occurs(sorted, i) {
      var g, a := AllCovered(indices, bound, i);
      assert AllIn(groups[g], |groups[g]|, sorted);
    }
  }

  /** The inner loop: the fragments of one group are pushed, and numbered alike. */
  method FlattenGroup(ghost keys: seq<nat>, groups: seq<seq<nat>>, g: nat, order: seq<nat>, ranks: seq<nat>)
    returns (sorted: seq<nat>, newIndices: seq<nat>)
    requires Grouped(keys, groups) && g < |groups|
    requires Flattened(keys, groups, g, order, ranks)
    ensures Reached(keys, sorted, newIndices, groups[g][|groups[g]| - 1], g)
    ensures order <= sorted && AllIn(groups[g], |groups[g]|, sorted)
  {
    sorted, newIndices := order, ranks;
    for n := 0 to |groups[g]|
      invariant if n > 0 then Reached(keys, sorted, newIndices, groups[g][n - 1], g)
                else sorted == order && newIndices == ranks
      invariant order <= sorted && AllIn(groups[g], n, sorted)
    {
      var fragment := groups[g][n];
      Push(keys, sorted, newIndices, fragment, g);
      sorted := sorted + [fragment];
      newIndices := newIndices[fragment := g];
    }
  }
}
