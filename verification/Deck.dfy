/**
 Navigation through a deck of slides, on values: which slide is current, how many fragment groups it
 shows, and which vertical slide every stack remembers.  The configuration is the default one (no loop,
 no right-to-left, no grid, no overview, fragments on).
 */
module Decks {
  import opened Options
  import opened Fragments

  /**
   The structure of a deck, fixed once it is loaded: for every horizontal slide whether it is a stack
   of vertical ones, its start-index attribute, and the group numbers of the fragments of its slides.
   A horizontal slide that is no stack counts as a column with itself as the only slide.
   */
  datatype Deck = Deck(stacked: seq<bool>, start: seq<Option<int>>, groups: seq<seq<seq<nat>>>)
  {
    ghost predicate Valid()
    {
      && |groups| == |stacked| == |start| > 0
      && (forall h :: 0 <= h < |groups| ==> |groups[h]| > 0)
      && (forall h :: 0 <= h < |groups| && !stacked[h] ==> |groups[h]| == 1)
      && (forall h, v :: 0 <= h < |groups| && 0 <= v < |groups[h]| ==> Dense(groups[h][v]))
    }

    predicate Has(h: int, v: int)
    {
      0 <= h < |groups| && 0 <= v < |groups[h]|
    }

    /** The number of fragment steps of a slide. */
    function Steps(h: nat, v: nat): nat
      requires Has(h, v)
    {
      GroupCount(groups[h][v])
    }
  }

  function GroupCount(indices: seq<nat>): nat
  {
    if indices == [] then 0
    else
      var rest := GroupCount(indices[..|indices| - 1]);
      var last := indices[|indices| - 1] + 1;
      if last > rest then last else rest
  }

  lemma {:induction false} GroupCountBounds(indices: seq<nat>)
    ensures forall i :: 0 <= i < |indices| ==> indices[i] < GroupCount(indices)
    ensures GroupCount(indices) > 0 ==> GroupCount(indices) - 1 in indices
    ensures GroupCount(indices) == 0 <==> indices == []
  {
    if indices != [] {
      GroupCountBounds(indices[..|indices| - 1]);
    }
  }

  /** Every group of a densely numbered slide has a fragment. */
  lemma {:induction false} GroupInhabited(indices: seq<nat>, g: nat)
    requires Dense(indices) && g < GroupCount(indices)
    ensures g in indices
    decreases GroupCount(indices) - g
  {
    GroupCountBounds(indices);
    if g < GroupCount(indices) - 1 {
      GroupInhabited(indices, g + 1);
    }
  }

  function Clamp(x: int, low: int, high: int): int
  {
    var m := if x < high then x else high;
    if m > low then m else low
  }

  /** The nearest number within the limits. */
  lemma {:induction false} ClampIs(x: int, low: int, high: int)
    requires low <= high
    ensures low <= Clamp(x, low, high) <= high
    ensures low <= x <= high ==> Clamp(x, low, high) == x
    ensures x < low ==> Clamp(x, low, high) == low
    ensures x > high ==> Clamp(x, low, high) == high
  {
  }

  /** Where a presentation stands: the slide, the number of groups it shows, and the stacks' memories. */
  datatype Nav = Nav(h: nat, v: nat, k: nat, mem: seq<nat>)
  {
    ghost predicate Valid(d: Deck)
    {
      && d.Valid() && d.Has(h, v) && k <= d.Steps(h, v)
      && |mem| == |d.groups| && (forall i :: 0 <= i < |mem| ==> mem[i] < |d.groups[i]|)
    }

    predicate SamePlace(other: Nav)
    {
      h == other.h && v == other.v && k == other.k
    }
  }

  /** getPreviousVerticalIndex, for an index that may name no slide at all. */
  function PreviousVertical(stacked: seq<bool>, start: seq<Option<int>>, mem: seq<nat>, h: Option<int>): int
    requires |mem| == |stacked| == |start|
  {
    if h.Some? && 0 <= h.value < |stacked| && stacked[h.value] then
      if start[h.value].Some? then start[h.value].value else mem[h.value]
    else 0
  }

  /** How many groups a slide shows on arrival from another one: all when it lies behind, none when ahead. */
  function Arrival(d: Deck, s: Nav, h: nat, v: nat): nat
    requires d.Has(h, v)
  {
    if h == s.h && v == s.v then s.k
    else if h < s.h || (h == s.h && v < s.v) then d.Steps(h, v)
    else 0
  }

  /** The first half of slide(): the stack left remembers its slide, the slide asked for becomes current. */
  ghost function MoveTo(d: Deck, s: Nav, h: int, v: int): (t: Nav)
    requires s.Valid(d)
    ensures t.Valid(d)
    ensures d.Has(h, v) ==> t.h == h && t.v == v
    ensures d.stacked[s.h] ==> t.mem[s.h] == s.v
  {
    var h1 := Clamp(h, 0, |d.groups| - 1);
    var v1 := Clamp(v, 0, |d.groups[h1]| - 1);
    Nav(h1, v1, Arrival(d, s, h1, v1), if d.stacked[s.h] then s.mem[s.h := s.v] else s.mem)
  }

  /**
   The second half: a fragment may be asked for, and arriving in the first column from elsewhere wipes the
   memories.
   */
  ghost function ArriveAt(d: Deck, s: Nav, fromh: nat, fromv: nat, f: Option<int>): (t: Nav)
    requires s.Valid(d)
    ensures t.Valid(d) && t.h == s.h && t.v == s.v
    ensures f.None? ==> t.k == s.k
    ensures f.Some? && -1 <= f.value < d.Steps(s.h, s.v) ==> t.k == f.value + 1
    ensures s.h > 0 || (fromh == 0 && fromv == s.v) ==> t.mem == s.mem
  {
    var k := if f.Some? then Clamp(f.value + 1, 0, d.Steps(s.h, s.v)) else s.k;
    var home := s.h == 0 && (s.h != fromh || s.v != fromv);
    Nav(s.h, s.v, k, if home then seq(|s.mem|, _ => 0) else s.mem)
  }

  /** slide( h, v, f ) */
  ghost function Slide(d: Deck, s: Nav, h: Option<int>, v: Option<int>, f: Option<int>): (t: Nav)
    requires s.Valid(d)
    ensures t.Valid(d)
  {
    var v0 := if v.Some? then v.value else PreviousVertical(d.stacked, d.start, s.mem, h);
    ArriveAt(d, MoveTo(d, s, if h.Some? then h.value else s.h, v0), s.h, s.v, f)
  }

  /** Where slide() leads, whatever it is asked: the nearest slide there is, and the nearest number of groups. */
  lemma {:induction false} SlidePlace(d: Deck, s: Nav, h: Option<int>, v: Option<int>, f: Option<int>)
    requires s.Valid(d)
    ensures var t := Slide(d, s, h, v, f);
      && t.h == Clamp(if h.Some? then h.value else s.h, 0, |d.groups| - 1)
      && t.v == Clamp(if v.Some? then v.value else PreviousVertical(d.stacked, d.start, s.mem, h), 0,
                      |d.groups[t.h]| - 1)
      && t.k == (if f.Some? then Clamp(f.value + 1, 0, d.Steps(t.h, t.v)) else Arrival(d, s, t.h, t.v))
      && t.mem == if t.h == 0 && (t.h != s.h || t.v != s.v) then seq(|s.mem|, _ => 0)
                  else if d.stacked[s.h] then s.mem[s.h := s.v] else s.mem
  {
  }

  /** Any place is reached from any other by its indices and a fragment index that shows what it shows. */
  lemma {:induction false} SlideToPlace(d: Deck, u: Nav, s: Nav, f: int)
    requires u.Valid(d) && s.Valid(d) && Clamp(f + 1, 0, d.Steps(s.h, s.v)) == s.k
    ensures Slide(d, u, Some(s.h), Some(s.v), Some(f)).SamePlace(s)
  {
  }

  /** A place on a slide without fragments is told by its indices. */
  lemma {:induction false} SlideWithout(d: Deck, u: Nav, s: Nav)
    requires u.Valid(d) && s.Valid(d) && d.groups[s.h][s.v] == []
    ensures Slide(d, u, Some(s.h), Some(s.v), None).SamePlace(s)
    ensures u.h == s.h && u.v == s.v ==> u.SamePlace(s)
  {
    assert d.Steps(s.h, s.v) == 0;
  }

  /** Going where one is, with a fragment index that shows what shows, changes at most the memories. */
  lemma {:induction false} SlideToSelf(d: Deck, s: Nav, f: Option<int>)
    requires s.Valid(d) && (f.Some? ==> Clamp(f.value + 1, 0, d.Steps(s.h, s.v)) == s.k)
    ensures Slide(d, s, Some(s.h), Some(s.v), f).SamePlace(s)
  {
  }

  ghost function NextFragment(d: Deck, s: Nav): Nav
    requires s.Valid(d)
  {
    if s.k < d.Steps(s.h, s.v) then s.(k := s.k + 1) else s
  }

  function PreviousFragment(s: Nav): Nav
  {
    if s.k > 0 then s.(k := s.k - 1) else s
  }

  predicate CanDown(d: Deck, s: Nav)
    requires d.Has(s.h, s.v)
  {
    s.v < |d.groups[s.h]| - 1
  }

  predicate CanRight(d: Deck, s: Nav)
  {
    s.h < |d.groups| - 1
  }

  ghost function Down(d: Deck, s: Nav): Nav
    requires s.Valid(d)
  {
    if s.k < d.Steps(s.h, s.v) then NextFragment(d, s)
    else if CanDown(d, s) then Slide(d, s, Some(s.h), Some(s.v + 1), None)
    else s
  }

  ghost function Up(d: Deck, s: Nav): Nav
    requires s.Valid(d)
  {
    if s.k > 0 then PreviousFragment(s)
    else if s.v > 0 then Slide(d, s, Some(s.h), Some(s.v - 1), None)
    else s
  }

  ghost function Right(d: Deck, s: Nav): Nav
    requires s.Valid(d)
  {
    if s.k < d.Steps(s.h, s.v) then NextFragment(d, s)
    else if CanRight(d, s) then Slide(d, s, Some(s.h + 1), None, None)
    else s
  }

  ghost function Left(d: Deck, s: Nav): Nav
    requires s.Valid(d)
  {
    if s.k > 0 then PreviousFragment(s)
    else if s.h > 0 then Slide(d, s, Some(s.h - 1), None, None)
    else s
  }

  ghost function Next(d: Deck, s: Nav): (t: Nav)
    requires s.Valid(d)
    ensures t.Valid(d)
  {
    if s.k < d.Steps(s.h, s.v) then NextFragment(d, s)
    else if CanDown(d, s) then Down(d, s)
    else Right(d, s)
  }

  /** The vertical index that navigatePrev passes for a column: none for a stack of one, -1 for no stack. */
  function LastVertical(d: Deck, h: nat): Option<int>
    requires h < |d.stacked| == |d.groups|
  {
    if !d.stacked[h] then Some(-1)
    else if |d.groups[h]| == 1 then None
    else Some(|d.groups[h]| - 1)
  }

  ghost function Prev(d: Deck, s: Nav): Nav
    requires s.Valid(d)
  {
    if s.k > 0 then PreviousFragment(s)
    else if s.v > 0 then Up(d, s)
    else if s.h > 0 then Slide(d, s, Some(s.h - 1), LastVertical(d, s.h - 1), None)
    else s
  }

  // ---- where the arrows lead ----

  /** A column is entered at its start slide, if it has one, else where it was left, or at its only slide. */
  ghost predicate Entered(d: Deck, s: Nav, t: Nav)
    requires s.Valid(d) && t.Valid(d)
  {
    t.v == if !d.stacked[t.h] then 0
           else if d.start[t.h].Some? then Clamp(d.start[t.h].value, 0, |d.groups[t.h]| - 1)
           else s.mem[t.h]
  }

  /** To the left: a group less, or the end of a slide of the column before. */
  lemma {:induction false} LeftPlace(d: Deck, s: Nav)
    requires s.Valid(d)
    ensures var t := Left(d, s);
      if s.k > 0 then t == s.(k := s.k - 1)
      else if s.h == 0 then t == s
      else t.h == s.h - 1 && t.k == d.Steps(t.h, t.v) && Entered(d, s, t)
  {
  }

  /** To the right: a group more, or the beginning of a slide of the next column. */
  lemma {:induction false} RightPlace(d: Deck, s: Nav)
    requires s.Valid(d)
    ensures var t := Right(d, s);
      if s.k < d.Steps(s.h, s.v) then t == s.(k := s.k + 1)
      else if s.h == |d.groups| - 1 then t == s
      else t.h == s.h + 1 && t.k == 0 && Entered(d, s, t)
  {
  }

  lemma {:induction false} UpPlace(d: Deck, s: Nav)
    requires s.Valid(d)
    ensures var t := Up(d, s);
      if s.k > 0 then t == s.(k := s.k - 1)
      else if s.v == 0 then t == s
      else t.h == s.h && t.v == s.v - 1 && t.k == d.Steps(t.h, t.v)
  {
  }

  lemma {:induction false} DownPlace(d: Deck, s: Nav)
    requires s.Valid(d)
    ensures var t := Down(d, s);
      if s.k < d.Steps(s.h, s.v) then t == s.(k := s.k + 1)
      else if s.v == |d.groups[s.h]| - 1 then t == s
      else t.h == s.h && t.v == s.v + 1 && t.k == 0
  {
  }

  // ---- what stacks remember ----

  /**
   A column without a vertical index asked for: a stack shows its start slide, if it has one, whatever it
   remembers.
   */
  lemma {:induction false} StartShown(d: Deck, s: Nav, h: nat, f: Option<int>)
    requires s.Valid(d) && h < |d.groups|
    ensures var t := Slide(d, s, Some(h), None, f);
      && t.h == h
      && (d.stacked[h] && d.start[h].Some? ==> t.v == Clamp(d.start[h].value, 0, |d.groups[h]| - 1))
      && (!d.stacked[h] ==> t.v == 0)
  {
  }

  /** A stack that was left is resumed at the slide where it was left. */
  lemma {:induction false} StackResumed(d: Deck, s: Nav, h: int, v: Option<int>, f: Option<int>)
    requires s.Valid(d) && d.stacked[s.h] && d.start[s.h] == None
    requires var t := Slide(d, s, Some(h), v, f); t.h > 0 && t.h != s.h
    ensures var u := Slide(d, Slide(d, s, Some(h), v, f), Some(s.h), None, None);
      u.h == s.h && u.v == s.v
  {
  }

  /** What slide() is asked. */
  datatype Request = Request(h: Option<int>, v: Option<int>, f: Option<int>)

  ghost function Wander(d: Deck, s: Nav, requests: seq<Request>): (t: Nav)
    requires s.Valid(d)
    ensures t.Valid(d)
    decreases |requests|
  {
    if requests == [] then s
    else Wander(d, Slide(d, s, requests[0].h, requests[0].v, requests[0].f), requests[1..])
  }

  /** None of the slides on the way is in the first column or in the given one. */
  ghost predicate KeepsAway(d: Deck, s: Nav, requests: seq<Request>, h: nat)
    requires s.Valid(d)
    decreases |requests|
  {
    requests != [] ==>
      var t := Slide(d, s, requests[0].h, requests[0].v, requests[0].f);
      t.h > 0 && t.h != h && KeepsAway(d, t, requests[1..], h)
  }

  lemma {:induction false} MemoryKept(d: Deck, s: Nav, requests: seq<Request>, h: nat)
    requires s.Valid(d) && s.h != h && h < |s.mem| && KeepsAway(d, s, requests, h)
    ensures Wander(d, s, requests).h != h && Wander(d, s, requests).mem[h] == s.mem[h]
    decreases |requests|
  {
    if requests != [] {
      SlidePlace(d, s, requests[0].h, requests[0].v, requests[0].f);
      MemoryKept(d, Slide(d, s, requests[0].h, requests[0].v, requests[0].f), requests[1..], h);
    }
  }

  /** However far one goes, as long as it is not home: the stack is resumed where it was left. */
  lemma {:induction false} StackRemembers(d: Deck, s: Nav, requests: seq<Request>)
    requires s.Valid(d) && d.stacked[s.h] && d.start[s.h] == None
    requires requests != [] && KeepsAway(d, s, requests, s.h)
    ensures var u := Slide(d, Wander(d, s, requests), Some(s.h), None, None);
      u.h == s.h && u.v == s.v
  {
    var t := Slide(d, s, requests[0].h, requests[0].v, requests[0].f);
    SlidePlace(d, s, requests[0].h, requests[0].v, requests[0].f);
    MemoryKept(d, t, requests[1..], s.h);
    SlidePlace(d, Wander(d, t, requests[1..]), Some(s.h), None, None);
  }

  /** Going home makes stacks without a start slide begin anew. */
  lemma {:induction false} HomeForgets(d: Deck, s: Nav, v: Option<int>, f: Option<int>, h: nat)
    requires s.Valid(d) && s.h > 0 && 0 < h < |d.groups| && d.start[h] == None
    ensures var t := Slide(d, s, Some(0), v, f);
      t.h == 0 && Slide(d, t, Some(h), None, None).v == 0
  {
    SlidePlace(d, s, Some(0), v, f);
  }

  // ---- document order ----

  /** The steps of the slides of a column above v: one for the slide and one for each of its groups. */
  function StepsAbove(d: Deck, h: nat, v: nat): nat
    requires h < |d.groups| && v <= |d.groups[h]|
  {
    if v == 0 then 0 else StepsAbove(d, h, v - 1) + d.Steps(h, v - 1) + 1
  }

  function StepsLeft(d: Deck, h: nat): nat
    requires h <= |d.groups|
  {
    if h == 0 then 0 else StepsLeft(d, h - 1) + StepsAbove(d, h - 1, |d.groups[h - 1]|)
  }

  /** The place of a step in document order. */
  function StepRank(d: Deck, h: nat, v: nat, k: nat): nat
    requires d.Has(h, v)
  {
    StepsLeft(d, h) + StepsAbove(d, h, v) + k
  }

  function TotalSteps(d: Deck): nat
  {
    StepsLeft(d, |d.groups|)
  }

  ghost function RankOf(d: Deck, s: Nav): nat
    requires s.Valid(d)
  {
    StepRank(d, s.h, s.v, s.k)
  }

  lemma {:induction false} StepsAboveMonotone(d: Deck, h: nat, v: nat, w: nat)
    requires h < |d.groups| && v <= w <= |d.groups[h]|
    ensures StepsAbove(d, h, v) <= StepsAbove(d, h, w)
    ensures v < w ==> StepsAbove(d, h, v) + d.Steps(h, v) + 1 <= StepsAbove(d, h, w)
    decreases w
  {
    if v < w {
      StepsAboveMonotone(d, h, v, w - 1);
    }
  }

  lemma {:induction false} StepsLeftMonotone(d: Deck, h: nat, i: nat)
    requires h <= i <= |d.groups|
    ensures StepsLeft(d, h) <= StepsLeft(d, i)
    ensures h < i ==> StepsLeft(d, h) + StepsAbove(d, h, |d.groups[h]|) <= StepsLeft(d, i)
    decreases i
  {
    if h < i {
      StepsLeftMonotone(d, h, i - 1);
    }
  }

  /** Ranks order steps as the document does: columns first, then slides, then groups. */
  lemma {:induction false} RankOrder(d: Deck, s: Nav, t: Nav)
    requires s.Valid(d) && t.Valid(d)
    requires s.h < t.h || (s.h == t.h && (s.v < t.v || (s.v == t.v && s.k < t.k)))
    ensures RankOf(d, s) < RankOf(d, t)
  {
    if s.h < t.h {
      StepsLeftMonotone(d, s.h, t.h);
      StepsAboveMonotone(d, s.h, s.v, |d.groups[s.h]|);
    } else if s.v < t.v {
      StepsAboveMonotone(d, s.h, s.v, t.v);
    }
  }

  /** So the rank tells the step. */
  lemma {:induction false} RankInjective(d: Deck, s: Nav, t: Nav)
    requires s.Valid(d) && t.Valid(d) && RankOf(d, s) == RankOf(d, t)
    ensures s.SamePlace(t)
  {
    if !s.SamePlace(t) {
      if s.h < t.h || (s.h == t.h && (s.v < t.v || (s.v == t.v && s.k < t.k))) {
        RankOrder(d, s, t);
      } else {
        RankOrder(d, t, s);
      }
    }
  }

  lemma {:induction false} RankBelowTotal(d: Deck, s: Nav)
    requires s.Valid(d)
    ensures RankOf(d, s) < TotalSteps(d)
    ensures RankOf(d, s) == TotalSteps(d) - 1
       <==> s.h == |d.groups| - 1 && s.v == |d.groups[s.h]| - 1 && s.k == d.Steps(s.h, s.v)
  {
    var last := |d.groups| - 1;
    StepsAboveMonotone(d, s.h, s.v, |d.groups[s.h]|);
    StepsLeftMonotone(d, s.h, |d.groups|);
    if s.h < last {
      StepsLeftMonotone(d, s.h, last);
      StepsAboveMonotone(d, last, 0, |d.groups[last]|);
    } else if s.v < |d.groups[s.h]| - 1 {
      StepsAboveMonotone(d, s.h, s.v, |d.groups[s.h]| - 1);
    }
  }

  // ---- the tour from a freshly loaded deck ----

  ghost function Fresh(d: Deck): (s: Nav)
    requires d.Valid()
    ensures s.Valid(d)
  {
    Nav(0, 0, 0, seq(|d.groups|, _ => 0))
  }

  ghost function After(d: Deck, n: nat): (s: Nav)
    requires d.Valid()
    ensures s.Valid(d)
  {
    if n == 0 then Fresh(d) else Next(d, After(d, n - 1))
  }

  lemma {:induction false} NextValid(d: Deck, s: Nav)
    requires s.Valid(d)
    ensures Next(d, s).Valid(d)
  {
  }

  /** The stacks ahead still have nothing to remember, and none has a start index. */
  ghost predicate Untouched(d: Deck, s: Nav)
    requires s.Valid(d)
  {
    && (forall h :: 0 <= h < |d.start| ==> d.start[h] == None)
    && (forall h :: s.h < h < |s.mem| ==> s.mem[h] == 0)
  }

  lemma {:induction false} NextPlace(d: Deck, s: Nav)
    requires s.Valid(d) && Untouched(d, s)
    ensures var t := Next(d, s);
      if s.k < d.Steps(s.h, s.v) then t.SamePlace(s.(k := s.k + 1))
      else if CanDown(d, s) then t.SamePlace(Nav(s.h, s.v + 1, 0, s.mem))
      else if CanRight(d, s) then t.SamePlace(Nav(s.h + 1, 0, 0, s.mem))
      else t == s
    ensures Next(d, s).Valid(d) && Untouched(d, Next(d, s))
  {
    NextValid(d, s);
  }

  /** One step: to the next step in document order, or nowhere from the last one. */
  lemma {:induction false} NextRank(d: Deck, s: Nav)
    requires s.Valid(d) && Untouched(d, s)
    ensures Next(d, s).Valid(d) && Untouched(d, Next(d, s))
    ensures RankOf(d, Next(d, s)) == if RankOf(d, s) == TotalSteps(d) - 1 then RankOf(d, s) else RankOf(d, s) + 1
  {
    NextPlace(d, s);
    RankBelowTotal(d, s);
    if s.k == d.Steps(s.h, s.v) && !CanDown(d, s) && CanRight(d, s) {
      assert StepsAbove(d, s.h, |d.groups[s.h]|) == StepsAbove(d, s.h, s.v) + s.k + 1;
      assert StepsLeft(d, s.h + 1) == StepsLeft(d, s.h) + StepsAbove(d, s.h, |d.groups[s.h]|);
    }
  }

  /** At the n-th step in document order, or the last one when there are not so many. */
  ghost predicate AtStep(d: Deck, s: Nav, n: nat)
  {
    && s.Valid(d) && Untouched(d, s)
    && RankOf(d, s) == if n < TotalSteps(d) then n else TotalSteps(d) - 1
  }

  lemma {:induction false} NextStep(d: Deck, s: Nav, n: nat)
    requires AtStep(d, s, n)
    ensures AtStep(d, Next(d, s), n + 1)
  {
    NextRank(d, s);
  }

  lemma {:induction false} FreshStep(d: Deck)
    requires d.Valid() && forall h :: 0 <= h < |d.start| ==> d.start[h] == None
    ensures AtStep(d, Fresh(d), 0)
  {
    RankBelowTotal(d, Fresh(d));
  }

  /** AtStep as a claim about one number, for the induction. */
  ghost predicate Arrived(d: Deck, s: Nav, n: nat)
  {
    forall m: nat {:trigger AtStep(d, s, m)} :: m == n ==> AtStep(d, s, m)
  }

  lemma {:induction false} NextArrived(d: Deck, s: Nav, n: nat)
    requires d.Valid() && s.Valid(d) && Arrived(d, s, n)
    ensures Arrived(d, Next(d, s), n + 1)
  {
    assert AtStep(d, s, n);
    NextStep(d, s, n);
  }

  lemma {:induction false} AfterArrived(d: Deck, n: nat)
    requires d.Valid() && forall h :: 0 <= h < |d.start| ==> d.start[h] == None
    ensures Arrived(d, After(d, n), n)
  {
    if n == 0 {
      FreshStep(d);
    } else {
      AfterArrived(d, n - 1);
      AfterOne(d, n - 1);
    }
  }

  lemma {:induction false} AfterOne(d: Deck, n: nat)
    requires d.Valid() && Arrived(d, After(d, n), n)
    ensures Arrived(d, After(d, n + 1), n + 1)
  {
    NextArrived(d, After(d, n), n);
    assert After(d, n + 1) == Next(d, After(d, n));
  }

  /**
   The tour: from a freshly loaded deck without start indices, n calls of navigateNext lead to the n-th
   step in document order, and all further calls stay at the last one.
   */
  lemma {:induction false} Tour(d: Deck, n: nat)
    requires d.Valid() && forall h :: 0 <= h < |d.start| ==> d.start[h] == None
    ensures AtStep(d, After(d, n), n)
  {
    AfterArrived(d, n);
    assert AtStep(d, After(d, n), n);
  }

  /** So every slide and every fragment step is shown exactly once before the end is reached, in document order. */
  lemma {:induction false} TourVisits(d: Deck, s: Nav, n: nat)
    requires s.Valid(d) && forall h :: 0 <= h < |d.start| ==> d.start[h] == None
    requires n < TotalSteps(d)
    ensures After(d, n).SamePlace(s) <==> n == RankOf(d, s)
  {
    Tour(d, n);
    if n == RankOf(d, s) {
      RankInjective(d, After(d, n), s);
    }
  }

  // ---- there and back ----

  predicate IsLast(d: Deck, s: Nav)
    requires d.Has(s.h, s.v)
  {
    s.k == d.Steps(s.h, s.v) && !CanDown(d, s) && !CanRight(d, s)
  }

  /** The vertical slide at which navigateNext enters the next column. */
  function Entrance(d: Deck, s: Nav): nat
    requires |s.mem| == |d.stacked| == |d.start| == |d.groups| && s.h + 1 < |d.groups|
    requires |d.groups[s.h + 1]| > 0
  {
    Clamp(PreviousVertical(d.stacked, d.start, s.mem, Some(s.h + 1)), 0, |d.groups[s.h + 1]| - 1)
  }

  /**
   navigatePrev undoes navigateNext, slide and visible fragments, from every state but the last,
   exactly when the step does not enter a stack anywhere but at its first slide.
   */
  lemma {:induction false} PrevUndoesNext(d: Deck, s: Nav)
    requires s.Valid(d) && !IsLast(d, s)
    ensures Next(d, s).Valid(d)
    ensures Prev(d, Next(d, s)).SamePlace(s) <==>
            (s.k == d.Steps(s.h, s.v) && !CanDown(d, s) ==> Entrance(d, s) == 0)
  {
    if s.k < d.Steps(s.h, s.v) || CanDown(d, s) {
      PrevWithin(d, s);
    } else {
      PrevAcross(d, s);
    }
  }

  lemma {:induction false} PrevWithin(d: Deck, s: Nav)
    requires s.Valid(d) && (s.k < d.Steps(s.h, s.v) || CanDown(d, s))
    ensures Prev(d, Next(d, s)).SamePlace(s)
  {
    if s.k == d.Steps(s.h, s.v) {
      DownPlace(d, s);
      UpPlace(d, Next(d, s));
    }
  }

  lemma {:induction false} PrevAcross(d: Deck, s: Nav)
    requires s.Valid(d) && s.k == d.Steps(s.h, s.v) && !CanDown(d, s) && CanRight(d, s)
    ensures Prev(d, Next(d, s)).SamePlace(s) <==> Entrance(d, s) == 0
  {
    NextAcross(d, s);
    PrevBack(d, s, Next(d, s));
  }

  lemma {:induction false} NextAcross(d: Deck, s: Nav)
    requires s.Valid(d) && s.k == d.Steps(s.h, s.v) && !CanDown(d, s) && CanRight(d, s)
    ensures var t := Next(d, s); t.h == s.h + 1 && t.v == Entrance(d, s) && t.k == 0
  {
  }

  lemma {:induction false} PrevBack(d: Deck, s: Nav, t: Nav)
    requires s.Valid(d) && s.k == d.Steps(s.h, s.v) && !CanDown(d, s) && CanRight(d, s)
    requires t.Valid(d) && t.h == s.h + 1 && t.k == 0
    ensures Prev(d, t).SamePlace(s) <==> t.v == 0
  {
    if t.v > 0 {
      UpPlace(d, t);
    } else {
      SlidePlace(d, t, Some(s.h), LastVertical(d, s.h), None);
    }
  }

  // ---- progress ----

  /** The slides of the columns before h. */
  function SlidesLeft(d: Deck, h: nat): nat
    requires h <= |d.groups|
  {
    if h == 0 then 0 else SlidesLeft(d, h - 1) + |d.groups[h - 1]|
  }

  lemma {:induction false} SlidesLeftMonotone(d: Deck, h: nat, i: nat)
    requires h <= i <= |d.groups|
    ensures SlidesLeft(d, h) <= SlidesLeft(d, i)
    ensures h < i ==> SlidesLeft(d, h) + |d.groups[h]| <= SlidesLeft(d, i)
    decreases i
  {
    if h < i {
      SlidesLeftMonotone(d, h, i - 1);
    }
  }

  function Total(d: Deck): nat
  {
    SlidesLeft(d, |d.groups|)
  }

  /** How many fragments of a slide lie in its first k groups. */
  function VisibleCount(indices: seq<nat>, k: nat): (n: nat)
    ensures n <= |indices|
  {
    if indices == [] then 0
    else VisibleCount(indices[..|indices| - 1], k) + if indices[|indices| - 1] < k then 1 else 0
  }

  lemma {:induction false} VisibleCountMonotone(indices: seq<nat>, k: nat, l: nat)
    requires k <= l
    ensures VisibleCount(indices, k) <= VisibleCount(indices, l)
  {
    if indices != [] {
      VisibleCountMonotone(indices[..|indices| - 1], k, l);
    }
  }

  /** The share of a slide that its visible fragments make up, at most nine tenths. */
  function FragmentShare(indices: seq<nat>, k: nat): (x: real)
    ensures 0.0 <= x <= 0.9
  {
    if indices == [] then 0.0
    else (VisibleCount(indices, k) as real / |indices| as real) * 0.9
  }

  /** The slides past and the share of the current one, before they are divided by the number of slides. */
  function PastAndShare(d: Deck, s: Nav): (x: real)
    requires d.Has(s.h, s.v)
    ensures x >= 0.0
  {
    (SlidesLeft(d, s.h) + s.v) as real + FragmentShare(d.groups[s.h][s.v], s.k)
  }

  /** getProgress, over the reals, for a deck of at least two slides. */
  function Progress(d: Deck, s: Nav): real
    requires d.Has(s.h, s.v) && Total(d) >= 2
  {
    var x := PastAndShare(d, s) / (Total(d) - 1) as real;
    if x < 1.0 then x else 1.0
  }

  lemma {:induction false} DivideMonotone(x: real, y: real, n: real)
    requires x <= y && n > 0.0
    ensures x / n <= y / n
  {
  }

  lemma {:induction false} ShareMonotone(indices: seq<nat>, k: nat, l: nat)
    requires k <= l
    ensures FragmentShare(indices, k) <= FragmentShare(indices, l)
  {
    VisibleCountMonotone(indices, k, l);
    if indices != [] {
      var a, b, n := VisibleCount(indices, k) as real, VisibleCount(indices, l) as real, |indices| as real;
      DivideMonotone(a, b, n);
    }
  }

  /** Along navigateNext the slide stays, and no group is hidden, or more slides are past. */
  lemma {:induction false} NextFurther(d: Deck, s: Nav)
    requires s.Valid(d)
    ensures var t := Next(d, s);
      if t.h == s.h && t.v == s.v then s.k <= t.k
      else SlidesLeft(d, s.h) + s.v + 1 <= SlidesLeft(d, t.h) + t.v
  {
    if s.h + 1 < |d.groups| {
      SlidesLeftMonotone(d, s.h, s.h + 1);
    }
  }

  lemma {:induction false} PastMonotone(d: Deck, s: Nav)
    requires s.Valid(d)
    ensures PastAndShare(d, s) <= PastAndShare(d, Next(d, s))
  {
    var t := Next(d, s);
    NextFurther(d, s);
    if t.h == s.h && t.v == s.v {
      ShareMonotone(d.groups[s.h][s.v], s.k, t.k);
    }
  }

  /** How many slides stand before one in the document. */
  function SlidesBefore(d: Deck, h: nat, v: nat): nat
    requires d.Has(h, v)
  {
    SlidesLeft(d, h) + v
  }

  lemma {:induction false} BeforeLast(d: Deck, h: nat, v: nat)
    requires d.Valid() && d.Has(h, v)
    ensures SlidesBefore(d, h, v) <= Total(d) - 1
    ensures SlidesBefore(d, h, v) == Total(d) - 1 <==> h == |d.groups| - 1 && v == |d.groups[h]| - 1
  {
    SlidesLeftMonotone(d, h, |d.groups| - 1);
    SlidesLeftMonotone(d, h, |d.groups|);
  }

  /**
   Progress is complete on the last slide and only there; on any other it is the share of the slides before it,
   and of what its fragments count for, among all slides but one.
   */
  lemma {:induction false} ProgressIs(d: Deck, s: Nav)
    requires s.Valid(d) && Total(d) >= 2
    ensures Progress(d, s) == 1.0 <==> s.h == |d.groups| - 1 && s.v == |d.groups[s.h]| - 1
    ensures s.h < |d.groups| - 1 || s.v < |d.groups[s.h]| - 1 ==>
              Progress(d, s) ==
              (SlidesBefore(d, s.h, s.v) as real + FragmentShare(d.groups[s.h][s.v], s.k)) / (Total(d) - 1) as real
  {
    BeforeLast(d, s.h, s.v);
    Capped(Progress(d, s), SlidesBefore(d, s.h, s.v), FragmentShare(d.groups[s.h][s.v], s.k), Total(d) - 1);
  }

  lemma {:induction false} Capped(p: real, before: nat, share: real, n: nat)
    requires before <= n && n > 0 && 0.0 <= share <= 0.9
    requires var x := (before as real + share) / n as real; p == if x < 1.0 then x else 1.0
    ensures p == 1.0 <==> before == n
    ensures before < n ==> p == (before as real + share) / n as real
  {
    var x, m := before as real + share, n as real;
    assert x / m * m == x;
    assert x / m >= 1.0 ==> x / m * m >= m;
    assert x >= m ==> x / m >= 1.0;
  }

  /** The visible fragments count for nine tenths of their part of all fragments of the slide. */
  lemma {:induction false} ShareTimes(indices: seq<nat>, k: nat)
    ensures FragmentShare(indices, k) * |indices| as real == 0.9 * VisibleCount(indices, k) as real
  {
    if indices != [] {
      var x, n := VisibleCount(indices, k) as real, |indices| as real;
      assert x / n * n == x;
    }
  }

  /** The fragments counted are those of the first k groups, however they stand. */
  lemma {:induction false} VisibleCountIs(indices: seq<nat>, k: nat)
    ensures VisibleCount(indices, k) == |set i | 0 <= i < |indices| && indices[i] < k|
  {
    var all := set i | 0 <= i < |indices| && indices[i] < k;
    if indices == [] {
      assert all == {};
    } else {
      var n := |indices| - 1;
      var rest := set i | 0 <= i < n && indices[..n][i] < k;
      VisibleCountIs(indices[..n], k);
      assert all == rest + if indices[n] < k then {n} else {};
    }
  }

  /** Progress stays between 0 and 1 and never falls along navigateNext, from any state whatever. */
  lemma {:induction false} ProgressMonotone(d: Deck, s: Nav)
    requires s.Valid(d) && Total(d) >= 2
    ensures 0.0 <= Progress(d, s) <= Progress(d, Next(d, s)) <= 1.0
  {
    PastMonotone(d, s);
    DivideMonotone(0.0, PastAndShare(d, s), (Total(d) - 1) as real);
    DivideMonotone(PastAndShare(d, s), PastAndShare(d, Next(d, s)), (Total(d) - 1) as real);
  }
}
