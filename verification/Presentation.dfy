/**
 The presentation as reveal.js keeps it: classes on slides, index attributes and visibility on
 fragments, memories on stacks, all updated in place.  Every operation is shown to do to this state what
 the functions of Decks say about (h, v, k, mem).  The deferred reset of the stacks' memories on arriving
 at the first column is taken to happen within the step that schedules it.
 */
module Presentations {
  import opened Options
  import opened Fragments
  import opened Decks

  datatype Frag = Frag(index: Option<nat>, visible: bool, current: bool)

  datatype Class = Past | Present | Future | NoClass

  function ClassOf(i: int, index: int): Class
  {
    if i < index then Past else if i == index then Present else Future
  }

  function ShowAll(slide: seq<Frag>): (r: seq<Frag>)
    ensures |r| == |slide|
  {
    seq(|slide|, i requires 0 <= i < |slide| => slide[i].(visible := true, current := false))
  }

  function HideAll(slide: seq<Frag>): (r: seq<Frag>)
    ensures |r| == |slide|
  {
    seq(|slide|, i requires 0 <= i < |slide| =>
      if slide[i].visible then slide[i].(visible := false, current := false) else slide[i])
  }

  /** What updateSlides does to the fragments of an element before, at or after the present one. */
  function Passed(slide: seq<Frag>, c: Class): (r: seq<Frag>)
    ensures |r| == |slide|
  {
    match c
    case Past => ShowAll(slide)
    case Present => slide
    case _ => HideAll(slide)
  }

  function PassedColumn(column: seq<seq<Frag>>, c: Class): (r: seq<seq<Frag>>)
    ensures |r| == |column|
  {
    seq(|column|, j requires 0 <= j < |column| => Passed(column[j], c))
  }

  /** A slide with its groups numbered and the first k of them visible; only the last visible one may be current. */
  ghost predicate Shows(slide: seq<Frag>, groups: seq<nat>, k: nat)
  {
    && |slide| == |groups|
    && forall i :: 0 <= i < |slide| ==>
         && slide[i].index == Some(groups[i]) && slide[i].visible == (groups[i] < k)
         && (slide[i].current ==> groups[i] == k - 1)
  }

  lemma {:induction false} PassedShows(slide: seq<Frag>, groups: seq<nat>, k: nat, c: Class)
    requires Shows(slide, groups, k)
    ensures Shows(Passed(slide, c), groups, match c case Past => GroupCount(groups) case Present => k case _ => 0)
  {
    GroupCountBounds(groups);
  }

  /** A slide shows what its arrival at the present position demands. */
  ghost predicate ShownAt(d: Deck, s: Nav, frags: seq<seq<seq<Frag>>>, h: nat, v: nat)
    requires d.Has(h, v) && h < |frags| && v < |frags[h]|
  {
    Shows(frags[h][v], d.groups[h][v], Arrival(d, s, h, v))
  }

  /** The whole table of fragments as a position in the deck demands it. */
  ghost predicate AllShown(d: Deck, s: Nav, frags: seq<seq<seq<Frag>>>)
  {
    && |frags| == |d.groups|
    && (forall h :: 0 <= h < |frags| ==> |frags[h]| == |d.groups[h]|)
    && (forall h: nat, v: nat {:trigger ShownAt(d, s, frags, h, v)} :: d.Has(h, v) ==> ShownAt(d, s, frags, h, v))
  }

  /** The classes on the vertical slides: none is present outside the current stack. */
  ghost predicate VerticalClasses(d: Deck, h: nat, v: nat, vclass: seq<seq<Class>>)
    requires h < |d.groups|
  {
    && ClassTable(d, vclass)
    && (forall i, j :: 0 <= i < |vclass| && 0 <= j < |vclass[i]| && i != h ==> vclass[i][j] != Present)
    && (forall j :: 0 <= j < |vclass[h]| ==> vclass[h][j] == ClassOf(j, v))
  }

  ghost predicate ClassTable(d: Deck, vclass: seq<seq<Class>>)
  {
    && |vclass| == |d.groups| == |d.stacked|
    && (forall h :: 0 <= h < |vclass| ==> |vclass[h]| == if d.stacked[h] then |d.groups[h]| else 0)
  }

  /** The table after the vertical pass of updateSlides ran in column h1. */
  ghost predicate Repassed(vclass: seq<seq<Class>>, h1: nat, v1: nat, vclass': seq<seq<Class>>)
  {
    && |vclass'| == |vclass| && h1 < |vclass'|
    && (forall i :: 0 <= i < |vclass| && i != h1 ==> vclass'[i] == vclass[i])
    && |vclass'[h1]| == |vclass[h1]| && (forall j :: 0 <= j < |vclass'[h1]| ==> vclass'[h1][j] == ClassOf(j, v1))
  }

  /** The slide left behind may still be present after that, until its class is removed. */
  function WithoutPresent(stack: bool, h: nat, v: nat, vclass: seq<seq<Class>>): (r: seq<seq<Class>>)
    requires h < |vclass| && (stack ==> v < |vclass[h]|)
    ensures |r| == |vclass|
  {
    if stack && vclass[h][v] == Present then vclass[h := vclass[h][v := NoClass]] else vclass
  }

  lemma {:induction false} LeaveSlide(d: Deck, h: nat, v: nat, h1: nat, v1: nat, vclass: seq<seq<Class>>,
          vclass': seq<seq<Class>>)
    requires d.Valid() && d.Has(h, v) && d.Has(h1, v1)
    requires VerticalClasses(d, h, v, vclass) && Repassed(vclass, h1, v1, vclass')
    ensures VerticalClasses(d, h1, v1,
                            if h == h1 && v == v1 then vclass' else WithoutPresent(d.stacked[h], h, v, vclass'))
  {
    var r := if h == h1 && v == v1 then vclass' else WithoutPresent(d.stacked[h], h, v, vclass');
    forall i, j | 0 <= i < |r| && 0 <= j < |r[i]| && i != h1 ensures r[i][j] != Present {
      assert vclass'[i] == vclass[i];
      if i == h {
        assert vclass[i][j] == ClassOf(j, v);
      } else {
        assert r[i] == vclass[i];
        assert vclass[i][j] != Present;
      }
    }
  }

  ghost predicate HorizontalClasses(h: nat, hclass: seq<Class>)
  {
    forall i :: 0 <= i < |hclass| ==> hclass[i] == ClassOf(i, h)
  }

  /** The horizontal pass of updateSlides over the fragments. */
  ghost predicate PassedAll(frags: seq<seq<seq<Frag>>>, r: nat, frags': seq<seq<seq<Frag>>>)
  {
    && |frags'| == |frags| && r < |frags|
    && forall i :: 0 <= i < |frags| ==> frags'[i] == if i == r then frags[i] else PassedColumn(frags[i], ClassOf(i, r))
  }

  /** The vertical pass, in one column. */
  ghost predicate PassedIn(frags: seq<seq<seq<Frag>>>, h: nat, r: nat, frags': seq<seq<seq<Frag>>>)
  {
    && |frags'| == |frags| && h < |frags| && |frags'[h]| == |frags[h]|
    && (forall i :: 0 <= i < |frags| && i != h ==> frags'[i] == frags[i])
    && (forall j :: 0 <= j < |frags[h]| ==> frags'[h][j] == Passed(frags[h][j], ClassOf(j, r)))
  }

  /** Both passes. */
  ghost predicate PassedBoth(frags: seq<seq<seq<Frag>>>, h: nat, v: nat, frags': seq<seq<seq<Frag>>>)
  {
    && |frags'| == |frags| && h < |frags| && |frags'[h]| == |frags[h]|
    && (forall i :: 0 <= i < |frags| && i != h ==> frags'[i] == PassedColumn(frags[i], ClassOf(i, h)))
    && (forall j :: 0 <= j < |frags[h]| ==> frags'[h][j] == Passed(frags[h][j], ClassOf(j, v)))
  }

  lemma {:induction false} PassesCompose(frags: seq<seq<seq<Frag>>>, mid: seq<seq<seq<Frag>>>, h: nat, v: nat,
          frags': seq<seq<seq<Frag>>>)
    requires PassedAll(frags, h, mid) && PassedIn(mid, h, v, frags')
    ensures PassedBoth(frags, h, v, frags')
  {
  }

  /** Both passes of updateSlides put every slide where its arrival at the new position demands. */
  lemma {:induction false} ArrivalShown(d: Deck, s: Nav, t: Nav, frags: seq<seq<seq<Frag>>>,
          frags': seq<seq<seq<Frag>>>)
    requires s.Valid(d) && AllShown(d, s, frags) && d.Has(t.h, t.v) && t.k == Arrival(d, s, t.h, t.v)
    requires PassedBoth(frags, t.h, t.v, frags')
    ensures AllShown(d, t, frags')
  {
    forall h: nat, v: nat | d.Has(h, v) ensures ShownAt(d, t, frags', h, v) {
      var c := if h == t.h then ClassOf(v, t.v) else ClassOf(h, t.h);
      assert ShownAt(d, s, frags, h, v);
      PassedShows(frags[h][v], d.groups[h][v], Arrival(d, s, h, v), c);
      assert frags'[h][v] == Passed(frags[h][v], c);
    }
  }

  /** Only the current slide changed. */
  lemma {:induction false} CurrentShown(d: Deck, s: Nav, k: nat, frags: seq<seq<seq<Frag>>>, slide: seq<Frag>)
    requires s.Valid(d) && AllShown(d, s, frags) && Shows(slide, d.groups[s.h][s.v], k)
    ensures AllShown(d, s.(k := k), frags[s.h := frags[s.h][s.v := slide]])
  {
    var frags' := frags[s.h := frags[s.h][s.v := slide]];
    forall h: nat, v: nat | d.Has(h, v) ensures ShownAt(d, s.(k := k), frags', h, v) {
      assert ShownAt(d, s, frags, h, v);
    }
  }

  function Indices(slide: seq<Frag>): (r: seq<Option<nat>>)
    ensures |r| == |slide|
  {
    seq(|slide|, i requires 0 <= i < |slide| => slide[i].index)
  }

  function WithIndices(slide: seq<Frag>, indices: seq<nat>): (r: seq<Frag>)
    requires |indices| == |slide|
    ensures |r| == |slide|
  {
    seq(|slide|, i requires 0 <= i < |slide| => slide[i].(index := Some(indices[i])))
  }

  /** A densely numbered slide keeps its numbers when it is sorted again. */
  lemma {:induction false} SortKeeps(slide: seq<Frag>, groups: seq<nat>, k: nat, order: seq<nat>, ranks: seq<nat>)
    requires Shows(slide, groups, k) && Dense(groups)
    requires Ranked(SortKeys(Indices(slide)), order, ranks)
    ensures ranks == groups && WithIndices(slide, ranks) == slide
  {
    assert SortKeys(Indices(slide)) == groups;
    DenseKept(groups, order, ranks);
    assert WithIndices(slide, ranks) == slide;
  }

  // ---- the visible fragments alone ----

  /** The positions of the visible fragments among the first n, in document order. */
  function VisiblePositions(slide: seq<Frag>, n: nat): (r: seq<nat>)
    requires n <= |slide|
    ensures forall a :: 0 <= a < |r| ==> r[a] < n && slide[r[a]].visible
  {
    if n == 0 then []
    else VisiblePositions(slide, n - 1) + if slide[n - 1].visible then [n - 1] else []
  }

  lemma {:induction false} VisibleListed(slide: seq<Frag>, n: nat, i: nat)
    requires i < n <= |slide| && slide[i].visible
    ensures i in VisiblePositions(slide, n)
  {
    if i < n - 1 {
      VisibleListed(slide, n - 1, i);
    }
  }

  function Picked(slide: seq<Frag>, at: seq<nat>): (r: seq<Frag>)
    requires forall a :: 0 <= a < |at| ==> at[a] < |slide|
    ensures |r| == |at|
  {
    seq(|at|, a requires 0 <= a < |at| => slide[at[a]])
  }

  function PickedGroups(groups: seq<nat>, at: seq<nat>): (r: seq<nat>)
    requires forall a :: 0 <= a < |at| ==> at[a] < |groups|
    ensures |r| == |at|
  {
    seq(|at|, a requires 0 <= a < |at| => groups[at[a]])
  }

  /** Sorting only the visible fragments rewrites no index, and the last of them belongs to the last visible group. */
  lemma {:induction false} VisibleSorted(slide: seq<Frag>, groups: seq<nat>, k: nat, at: seq<nat>,
                                         order: seq<nat>, ranks: seq<nat>)
    requires Shows(slide, groups, k) && Dense(groups) && k <= GroupCount(groups)
    requires at == VisiblePositions(slide, |slide|)
    requires Ranked(SortKeys(Indices(Picked(slide, at))), order, ranks)
    ensures ranks == PickedGroups(groups, at)
    ensures at == [] <==> k == 0
    ensures at != [] ==> groups[at[order[|order| - 1]]] == k - 1
  {
    VisibleKeys(slide, groups, k, at);
    VisibleDense(slide, groups, k);
    DenseKept(PickedGroups(groups, at), order, ranks);
    VisibleGroups(slide, groups, k);
    VisibleLast(groups, k, at, order, ranks);
  }

  lemma {:induction false} VisibleKeys(slide: seq<Frag>, groups: seq<nat>, k: nat, at: seq<nat>)
    requires Shows(slide, groups, k) && forall a :: 0 <= a < |at| ==> at[a] < |slide|
    ensures SortKeys(Indices(Picked(slide, at))) == PickedGroups(groups, at)
  {
  }

  lemma {:induction false} VisibleDense(slide: seq<Frag>, groups: seq<nat>, k: nat)
    requires Shows(slide, groups, k) && Dense(groups)
    ensures Dense(PickedGroups(groups, VisiblePositions(slide, |slide|)))
  {
    VisibleGroups(slide, groups, k);
    PrefixDense(groups, PickedGroups(groups, VisiblePositions(slide, |slide|)), k - 1);
  }

  lemma {:induction false} VisibleLast(groups: seq<nat>, k: nat, at: seq<nat>, order: seq<nat>, ranks: seq<nat>)
    requires Dense(groups) && k <= GroupCount(groups) && forall a :: 0 <= a < |at| ==> at[a] < |groups|
    requires forall g :: g in PickedGroups(groups, at) <==> g in groups && g <= k - 1
    requires Ranked(PickedGroups(groups, at), order, ranks)
    ensures (at == [] <==> k == 0) && (at != [] ==> groups[at[order[|order| - 1]]] == k - 1)
  {
    if k > 0 {
      GroupInhabited(groups, k - 1);
    }
    LastOf(PickedGroups(groups, at), order, ranks, k);
  }

  lemma {:induction false} LastOf(keys: seq<nat>, order: seq<nat>, ranks: seq<nat>, k: nat)
    requires Ranked(keys, order, ranks)
    requires (k > 0 ==> k - 1 in keys) && forall g :: g in keys ==> g <= k - 1
    ensures keys == [] <==> k == 0
    ensures keys != [] ==> keys[order[|order| - 1]] == k - 1
  {
    assert keys != [] ==> keys[0] in keys;
    if k > 0 {
      LastIsTop(keys, order, ranks, k - 1);
    }
  }

  lemma {:induction false} VisibleGroups(slide: seq<Frag>, groups: seq<nat>, k: nat)
    requires Shows(slide, groups, k)
    ensures forall g :: g in PickedGroups(groups, VisiblePositions(slide, |slide|)) <==> g in groups && g <= k - 1
  {
    var at := VisiblePositions(slide, |slide|);
    var keys := PickedGroups(groups, at);
    forall g ensures g in keys <==> g in groups && g <= k - 1 {
      if g in groups && g <= k - 1 {
        var i :| 0 <= i < |groups| && groups[i] == g;
        VisibleListed(slide, |slide|, i);
        var a :| 0 <= a < |at| && at[a] == i;
        assert keys[a] == g;
      }
      if g in keys {
        var a :| 0 <= a < |keys| && keys[a] == g;
        assert slide[at[a]].visible;
      }
    }
  }

  /** The last fragment of a sorted list has the greatest index. */
  lemma {:induction false} LastIsTop(keys: seq<nat>, order: seq<nat>, ranks: seq<nat>, top: nat)
    requires Ranked(keys, order, ranks) && top in keys && forall g :: g in keys ==> g <= top
    ensures |order| > 0 && keys[order[|order| - 1]] == top
  {
    var i :| 0 <= i < |keys| && keys[i] == top;
    var a := PlaceOf(keys, order, ranks, i);
    Compare(keys, order, ranks, a, |order| - 1);
    assert keys[order[|order| - 1]] in keys;
  }

  /** updateFragments for one fragment. */
  function Updated(f: Frag, index: int): Frag
    requires f.index.Some?
  {
    if f.index.value <= index then f.(visible := true, current := f.index.value == index)
    else f.(visible := false, current := false)
  }

  /** How many groups are visible when all up to the given index are shown. */
  function Shown(groups: seq<nat>, index: int): nat
  {
    Clamp(index + 1, 0, GroupCount(groups))
  }

  method UpdateSlide(slide: seq<Frag>, index: int) returns (updated: seq<Frag>, changed: bool)
    requires forall i :: 0 <= i < |slide| ==> slide[i].index.Some?
    ensures |updated| == |slide| && forall i :: 0 <= i < |slide| ==> updated[i] == Updated(slide[i], index)
    ensures changed <==> exists i :: 0 <= i < |slide| && updated[i].visible != slide[i].visible
  {
    changed, updated := false, slide;
    for i := 0 to |slide|
      invariant |updated| == |slide|
      invariant forall j :: 0 <= j < |slide| ==> updated[j] == if j < i then Updated(slide[j], index) else slide[j]
      invariant changed <==> exists j :: 0 <= j < i && updated[j].visible != slide[j].visible
    {
      updated := updated[i := Updated(slide[i], index)];
      changed := changed || updated[i].visible != slide[i].visible;
    }
  }

  /** sortFragments over the visible fragments of a slide, and the index of the last of them; -1 when there is none. */
  method SortVisible(slide: seq<Frag>, ghost groups: seq<nat>, ghost k: nat) returns (renumbered: seq<Frag>, index: int)
    requires Shows(slide, groups, k) && Dense(groups) && k <= GroupCount(groups)
    ensures renumbered == slide && index == k - 1
  {
    var at := ListVisible(slide);
    var sorted, newIndices := SortFragments(Indices(Picked(slide, at)));
    VisibleSorted(slide, groups, k, at, sorted, newIndices);
    renumbered := Renumber(slide, at, newIndices, groups, k);
    if at == [] {
      return renumbered, -1;
    }
    index := renumbered[at[sorted[|sorted| - 1]]].index.value;
  }

  method ListVisible(slide: seq<Frag>) returns (at: seq<nat>)
    ensures at == VisiblePositions(slide, |slide|)
  {
    at := [];
    for i := 0 to |slide|
      invariant at == VisiblePositions(slide, i)
    {
      if slide[i].visible {
        at := at + [i];
      }
    }
  }

  method Renumber(slide: seq<Frag>, at: seq<nat>, newIndices: seq<nat>, ghost groups: seq<nat>, ghost k: nat)
    returns (renumbered: seq<Frag>)
    requires Shows(slide, groups, k) && forall a :: 0 <= a < |at| ==> at[a] < |slide|
    requires newIndices == PickedGroups(groups, at)
    ensures renumbered == slide
  {
    renumbered := slide;
    for a := 0 to |at|
      invariant renumbered == slide
    {
      assert newIndices[a] == groups[at[a]];
      renumbered := renumbered[at[a] := renumbered[at[a]].(index := Some(newIndices[a]))];
    }
  }

  lemma {:induction false} UpdatedShows(slide: seq<Frag>, groups: seq<nat>, k: nat, index: int, slide': seq<Frag>)
    requires Shows(slide, groups, k) && Dense(groups) && k <= GroupCount(groups) && |slide'| == |slide|
    requires forall i :: 0 <= i < |slide| ==> slide'[i] == Updated(slide[i], index)
    ensures Shows(slide', groups, Shown(groups, index))
    ensures (exists i :: 0 <= i < |slide| && slide'[i].visible != slide[i].visible) <==> Shown(groups, index) != k
  {
    GroupCountBounds(groups);
    var k' := Shown(groups, index);
    if k' != k {
      var g := if k' < k then k' else k;
      GroupInhabited(groups, g);
      var i :| 0 <= i < |groups| && groups[i] == g;
      assert slide'[i].visible != slide[i].visible;
    }
  }

  /** When some but not all groups are visible, a fragment of the last visible one is marked current. */
  ghost predicate Marked(slide: seq<Frag>, groups: seq<nat>, k: nat)
  {
    0 < k < GroupCount(groups) ==> exists i :: 0 <= i < |slide| && slide[i].current
  }

  lemma {:induction false} UpdatedMarked(slide: seq<Frag>, groups: seq<nat>, k: nat, index: int, slide': seq<Frag>)
    requires Shows(slide, groups, k) && Dense(groups) && |slide'| == |slide|
    requires forall i :: 0 <= i < |slide| ==> slide'[i] == Updated(slide[i], index)
    ensures Marked(slide', groups, Shown(groups, index))
  {
    if 0 < Shown(groups, index) < GroupCount(groups) {
      GroupInhabited(groups, index);
      var i :| 0 <= i < |groups| && groups[i] == index;
      assert slide'[i].current;
    }
  }

  /**
   The fragment index that getIndices reports: that of the first current fragment, or one less than the number
   visible.
   */
  method FragmentIndex(slide: seq<Frag>, ghost groups: seq<nat>, ghost k: nat) returns (f: Option<int>)
    requires Shows(slide, groups, k) && Dense(groups) && k <= GroupCount(groups) && Marked(slide, groups, k)
    ensures f.Some? <==> slide != []
    ensures f.Some? ==> Shown(groups, f.value) == k
  {
    if slide == [] {
      return None;
    }
    GroupCountBounds(groups);
    var visible := 0;
    for i := 0 to |slide|
      invariant forall j :: 0 <= j < i ==> !slide[j].current
      invariant 0 <= visible <= i && (k == 0 ==> visible == 0) && (k == GroupCount(groups) ==> visible == i)
    {
      if slide[i].current {
        return Some(slide[i].index.value);
      }
      if slide[i].visible {
        visible := visible + 1;
      }
    }
    GroupsFew(groups);
    return Some(visible - 1);
  }

  /** There are no more groups than fragments. */
  lemma {:induction false} GroupsFew(groups: seq<nat>)
    ensures Dense(groups) ==> GroupCount(groups) <= |groups|
  {
    if Dense(groups) {
      forall g: nat | g < GroupCount(groups) ensures g in groups {
        GroupInhabited(groups, g);
      }
      Pigeons(groups, GroupCount(groups));
    }
  }

  lemma {:induction false} Pigeons(s: seq<nat>, n: nat)
    requires forall g: nat :: g < n ==> g in s
    ensures n <= |s|
  {
    if n > 0 {
      var m: nat := n - 1;
      assert m in s;
      var i :| 0 <= i < |s| && s[i] == m;
      var rest := s[..i] + s[i + 1..];
      forall g: nat | g < n - 1 ensures g in rest {
        assert g in s;
        var j :| 0 <= j < |s| && s[j] == g;
        assert rest[if j < i then j else j - 1] == g;
      }
      Pigeons(rest, n - 1);
    }
  }
}
