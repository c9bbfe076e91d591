/**
 The navigation methods of reveal.js over the state of Presentations.
 */
module RevealJs {
  import opened Options
  import opened Fragments
  import opened Decks
  import opened Presentations
  import opened LocationHash

  class Reveal {
    const stacked: seq<bool>           // the horizontal slide has vertical ones inside
    const start: seq<Option<int>>      // data-start-indexv
    var frags: seq<seq<seq<Frag>>>     // by horizontal slide, vertical slide, document order
    var hclass: seq<Class>
    var vclass: seq<seq<Class>>        // of the vertical slides of stacks
    var mem: seq<nat>                  // data-previous-indexv
    var indexh: nat
    var indexv: nat
    ghost var deck: Deck
    ghost var shown: nat               // visible groups of the current slide

    ghost function Here(): Nav
      reads this
    {
      Nav(indexh, indexv, shown, mem)
    }

    /** Everything but the classes on slides. */
    ghost predicate Placed()
      reads this
    {
      && deck.stacked == stacked && deck.start == start
      && Here().Valid(deck) && AllShown(deck, Here(), frags)
    }

    ghost predicate Settled()
      reads this
    {
      && Placed()
      && |hclass| == |frags| && HorizontalClasses(indexh, hclass)
      && VerticalClasses(deck, indexh, indexv, vclass)
    }

    /** The current fragment is marked as such. */
    ghost predicate FragmentMarked()
      reads this
      requires Placed()
    {
      Marked(frags[indexh][indexv], deck.groups[indexh][indexv], shown)
    }

    ghost predicate Valid()
      reads this
    {
      Settled() && FragmentMarked()
    }

    /**
     start(): fragments get their numbers from the index attributes of the document, and the first
     slide is shown.  No fragment is marked visible in the document.
     */
    constructor (stacked: seq<bool>, start: seq<Option<int>>, attributes: seq<seq<seq<Option<nat>>>>)
      requires |attributes| == |stacked| == |start| > 0
      requires forall h :: 0 <= h < |attributes| ==> |attributes[h]| > 0 && (!stacked[h] ==> |attributes[h]| == 1)
      ensures Valid() && Here() == Fresh(deck) && this.stacked == stacked && this.start == start
      ensures Numbered(attributes, deck.groups)
    {
      this.stacked, this.start := stacked, start;
      mem := seq(|stacked|, _ => 0);
      hclass := seq(|stacked|, _ => NoClass);
      vclass := seq(|stacked|, h requires 0 <= h < |stacked| && |attributes| == |stacked| =>
        if stacked[h] then seq(|attributes[h]|, _ => NoClass) else []);
      indexh, indexv, shown := 0, 0, 0;
      var sorted, groups := SortAllFragments(attributes);
      frags := sorted;
      deck := Deck(stacked, start, groups);
      new;
      NumberedValid(deck, attributes);
      ShowFirst();
    }

    /** The first slide of a document on which nothing is visible yet. */
    method ShowFirst()
      requires deck.Valid() && deck.stacked == stacked && deck.start == start && Here() == Fresh(deck)
      requires |frags| == |deck.groups| == |hclass| && ClassTable(deck, vclass)
      requires forall h, v :: 0 <= h < |vclass| && 0 <= v < |vclass[h]| ==> vclass[h][v] == NoClass
      requires forall h :: 0 <= h < |frags| ==> HiddenColumn(frags[h], deck.groups[h])
      modifies this`frags, this`hclass, this`vclass, this`shown
      ensures Valid() && Here() == Fresh(deck)
    {
      ghost var was := frags;
      var _, _ := Passes(0, 0);
      FreshShown(deck, was, frags);
      UpdateFragments();
    }

    // ---- updateSlides, for either direction ----

    method UpdateHorizontal(index: int) returns (r: nat)
      requires |hclass| == |frags| > 0
      modifies this`hclass, this`frags
      ensures r == Clamp(index, 0, |frags| - 1) && |frags| == |old(frags)| == |hclass|
      ensures HorizontalClasses(r, hclass)
      ensures PassedAll(old(frags), r, frags)
    {
      r := Clamp(index, 0, |frags| - 1);
      for i := 0 to |frags|
        invariant |hclass| == |frags| == |old(frags)|
        invariant forall j :: 0 <= j < i && j != r ==> hclass[j] == ClassOf(j, r)
        invariant forall j :: 0 <= j < |frags| ==>
                    frags[j] == if j < i && j != r then PassedColumn(old(frags)[j], ClassOf(j, r)) else old(frags)[j]
      {
        hclass := hclass[i := NoClass];
        if i < r {
          hclass := hclass[i := Past];
          frags := frags[i := PassedColumn(frags[i], Past)];
        } else if i > r {
          hclass := hclass[i := Future];
          frags := frags[i := PassedColumn(frags[i], Future)];
        }
      }
      hclass := hclass[r := Present];
    }

    /** The vertical slides of the present horizontal one, if it has any. */
    method UpdateVertical(h: nat, index: int) returns (r: nat)
      requires h < |frags| == |stacked| == |vclass| && |frags[h]| > 0
      requires if stacked[h] then |vclass[h]| == |frags[h]| else |vclass[h]| == 0 && |frags[h]| == 1
      modifies this`vclass, this`frags
      ensures PassedIn(old(frags), h, r, frags)
      ensures r == Clamp(index, 0, |frags[h]| - 1)
      ensures Repassed(old(vclass), h, r, vclass)
    {
      if !stacked[h] {
        return 0;
      }
      r := Clamp(index, 0, |frags[h]| - 1);
      var column, classes := frags[h], vclass[h];
      for i := 0 to |column|
        invariant |classes| == |column| == |old(frags)[h]|
        invariant forall j :: 0 <= j < i && j != r ==> classes[j] == ClassOf(j, r)
        invariant forall j :: 0 <= j < |column| ==>
                    column[j] == if j < i then Passed(old(frags)[h][j], ClassOf(j, r)) else old(frags)[h][j]
      {
        classes := classes[i := NoClass];
        if i < r {
          classes := classes[i := Past];
          column := column[i := ShowAll(column[i])];
        } else if i > r {
          classes := classes[i := Future];
          column := column[i := HideAll(column[i])];
        }
      }
      classes := classes[r := Present];
      frags, vclass := frags[h := column], vclass[h := classes];
    }

    // ---- fragments of the current slide ----

    /** The current slide's place in the table is where its fragments show. */
    lemma {:induction false} CurrentShows()
      requires Placed()
      ensures Shows(frags[indexh][indexv], deck.groups[indexh][indexv], shown)
    {
      assert ShownAt(deck, Here(), frags, indexh, indexv);
    }

    lemma {:induction false} NoFragments()
      requires Placed() && frags[indexh][indexv] == []
      ensures deck.Steps(indexh, indexv) == 0 == shown
    {
      CurrentShows();
      GroupCountBounds(deck.groups[indexh][indexv]);
    }

    /** sortFragments over all fragments of the current slide: their numbers stay as they are. */
    method SortAll()
      requires Placed()
      modifies this`frags
      ensures Placed() && frags == old(frags)
    {
      var slide := frags[indexh][indexv];
      CurrentShows();
      var sorted, newIndices := SortFragments(Presentations.Indices(slide));
      SortKeeps(slide, deck.groups[indexh][indexv], shown, sorted, newIndices);
      frags := frags[indexh := frags[indexh][indexv := WithIndices(slide, newIndices)]];
      assert frags[indexh] == old(frags)[indexh];
      assert frags == old(frags);
    }

    /** The index of the last visible fragment, by a sort of the visible ones only; -1 when none is visible. */
    method LastVisible() returns (index: int)
      requires Placed()
      modifies this`frags
      ensures Placed() && frags == old(frags) && index == shown - 1
    {
      CurrentShows();
      var slide;
      slide, index := SortVisible(frags[indexh][indexv], deck.groups[indexh][indexv], shown);
      frags := frags[indexh := frags[indexh][indexv := slide]];
      assert frags[indexh] == old(frags)[indexh];
      assert frags == old(frags);
    }

    /** The loop of updateFragments: all fragments up to the index become visible, the others hidden. */
    method UpdateTo(index: int) returns (changed: bool)
      requires Placed()
      modifies this`frags, this`shown
      ensures Placed() && FragmentMarked()
      ensures shown == Clamp(index + 1, 0, deck.Steps(indexh, indexv)) && (changed <==> shown != old(shown))
    {
      CurrentShows();
      ghost var slide, groups := frags[indexh][indexv], deck.groups[indexh][indexv];
      var updated;
      updated, changed := UpdateSlide(frags[indexh][indexv], index);
      UpdatedShows(slide, groups, shown, index, updated);
      UpdatedMarked(slide, groups, shown, index, updated);
      CurrentShown(deck, Here(), Presentations.Shown(groups, index), frags, updated);
      frags := frags[indexh := frags[indexh][indexv := updated]];
      shown := Presentations.Shown(groups, index);
    }

    /** updateFragments() without an index: what is visible stays so; with nothing visible the index is undefined. */
    method UpdateFragments()
      requires Placed()
      modifies this`frags, this`shown
      ensures Placed() && FragmentMarked() && shown == old(shown)
    {
      SortAll();
      if frags[indexh][indexv] == [] {
        NoFragments();
      } else {
        var index := LastVisible();
        var _ := UpdateTo(index);
      }
    }

    method NavigateFragment(index: Option<int>, offset: Option<int>) returns (changed: bool)
      requires Placed()
      modifies this`frags, this`shown
      ensures Placed() && FragmentMarked() && (changed <==> shown != old(shown))
      ensures var at := (if index.Some? then index.value else old(shown) - 1)
                        + (if offset.Some? then offset.value else 0);
        shown == Clamp(at + 1, 0, deck.Steps(indexh, indexv))
    {
      SortAll();
      if frags[indexh][indexv] == [] {
        NoFragments();
        return false;
      }
      var at;
      match index {
        case Some(i) => at := i;
        case None => at := LastVisible();
      }
      if offset.Some? {
        at := at + offset.value;
      }
      changed := UpdateTo(at);
    }

    method ShowNextFragment() returns (changed: bool)
      requires Valid()
      modifies this`frags, this`shown
      ensures Valid() && Here() == Decks.NextFragment(deck, old(Here())) && (changed <==> Here() != old(Here()))
    {
      changed := NavigateFragment(None, Some(1));
    }

    method ShowPreviousFragment() returns (changed: bool)
      requires Valid()
      modifies this`frags, this`shown
      ensures Valid() && Here() == Decks.PreviousFragment(old(Here())) && (changed <==> Here() != old(Here()))
    {
      changed := NavigateFragment(None, Some(-1));
    }

    // ---- slide ----

    /** The vertical classes are those of the new place, once the slide left is not present any more. */
    ghost predicate LeftBehind(h: nat, v: nat, h1: nat, v1: nat)
      reads this
    {
      && deck.stacked == stacked && deck.Has(h, v) && deck.Has(h1, v1) && ClassTable(deck, vclass)
      && VerticalClasses(deck, h1, v1, if h == h1 && v == v1 then vclass else WithoutPresent(stacked[h], h, v, vclass))
    }

    /** The two passes of updateSlides. */
    method Passes(h: int, v: int) returns (newh: nat, newv: nat)
      requires |frags| == |stacked| == |vclass| == |hclass| > 0
      requires forall i :: 0 <= i < |frags| ==> |frags[i]| > 0 && (!stacked[i] ==> |frags[i]| == 1)
      requires forall i :: 0 <= i < |frags| ==> |vclass[i]| == if stacked[i] then |frags[i]| else 0
      modifies this`frags, this`hclass, this`vclass
      ensures newh == Clamp(h, 0, |old(frags)| - 1) && newv == Clamp(v, 0, |old(frags)[newh]| - 1)
      ensures |hclass| == |frags| && HorizontalClasses(newh, hclass)
      ensures Repassed(old(vclass), newh, newv, vclass) && PassedBoth(old(frags), newh, newv, frags)
    {
      newh := UpdateHorizontal(h);
      ghost var mid := frags;
      newv := UpdateVertical(newh, v);
      PassesCompose(old(frags), mid, newh, newv, frags);
    }

    /** Classes and fragments are those of the slide arrived at. */
    method Turn(h: int, v: int) returns (newh: nat, newv: nat)
      requires Valid()
      modifies this`frags, this`hclass, this`vclass
      ensures newh == Clamp(h, 0, |deck.groups| - 1) && newv == Clamp(v, 0, |deck.groups[newh]| - 1)
      ensures |hclass| == |frags| && HorizontalClasses(newh, hclass)
      ensures LeftBehind(indexh, indexv, newh, newv)
      ensures AllShown(deck, Nav(newh, newv, Arrival(deck, Here(), newh, newv), mem), frags)
    {
      ghost var was, wasClass := frags, vclass;
      newh, newv := Passes(h, v);
      LeaveSlide(deck, indexh, indexv, newh, newv, wasClass, vclass);
      ArrivalShown(deck, Here(), Nav(newh, newv, Arrival(deck, Here(), newh, newv), mem), was, frags);
    }

    /** The part of slide() that moves: the stack left remembers its slide. */
    method Move(h: int, v: int)
      requires Valid()
      modifies this`frags, this`hclass, this`vclass, this`mem, this`indexh, this`indexv, this`shown
      ensures Placed() && |hclass| == |frags| && HorizontalClasses(indexh, hclass)
      ensures LeftBehind(old(indexh), old(indexv), indexh, indexv)
      ensures Here() == MoveTo(deck, old(Here()), h, v)
    {
      ghost var s, t := Here(), MoveTo(deck, Here(), h, v);
      var newh, newv := Turn(h, v);
      assert newh == t.h && newv == t.v && t.k == Arrival(deck, s, newh, newv);
      ShownAnyway(deck, Nav(newh, newv, t.k, mem), t.mem, frags);
      if stacked[indexh] {
        mem := mem[indexh := indexv];
      }
      shown := t.k;
      indexh, indexv := newh, newv;
      assert Here() == t;
    }

    /** The rest of slide(), on the slide arrived at: fragment, class of the slide left, memories, fragments again. */
    method Arrive(previoush: nat, previousv: nat, f: Option<int>)
      requires Placed() && |hclass| == |frags| && HorizontalClasses(indexh, hclass)
      requires LeftBehind(previoush, previousv, indexh, indexv)
      modifies this`frags, this`vclass, this`mem, this`shown
      ensures Valid() && Here() == ArriveAt(deck, old(Here()), previoush, previousv, f)
    {
      if f.Some? {
        var _ := NavigateFragment(f, None);
      }
      if indexh != previoush || indexv != previousv {
        Leave(previoush, previousv);
      }
      UpdateFragments();
    }

    /** The previous slide is never the present one any more. */
    method Leave(previoush: nat, previousv: nat)
      requires Placed() && |hclass| == |frags| && HorizontalClasses(indexh, hclass)
      requires LeftBehind(previoush, previousv, indexh, indexv) && (previoush != indexh || previousv != indexv)
      modifies this`vclass, this`mem
      ensures Settled()
      ensures mem == if indexh == 0 then seq(|old(mem)|, _ => 0) else old(mem)
    {
      vclass := WithoutPresent(stacked[previoush], previoush, previousv, vclass);
      if hclass[0] == Class.Present {
        ForgetAll();
      }
    }

    method MoveAndArrive(h: int, v: int, f: Option<int>)
      requires Valid()
      modifies this`frags, this`hclass, this`vclass, this`mem, this`indexh, this`indexv, this`shown
      ensures Valid()
      ensures Here() == ArriveAt(deck, MoveTo(deck, old(Here()), h, v), old(indexh), old(indexv), f)
    {
      var previoush, previousv := indexh, indexv;
      Move(h, v);
      Arrive(previoush, previousv, f);
    }

    method Slide(h: Option<int>, v: Option<int>, f: Option<int>)
      requires Valid()
      modifies this`frags, this`hclass, this`vclass, this`mem, this`indexh, this`indexv, this`shown
      ensures Valid() && Here() == Decks.Slide(deck, old(Here()), h, v, f)
    {
      MoveAndArrive(if h.Some? then h.value else indexh,
                    if v.Some? then v.value else PreviousVertical(stacked, start, mem, h), f);
    }

    /** On arriving in the first column every stack forgets its vertical index. */
    method ForgetAll()
      requires Placed()
      modifies this`mem
      ensures Placed() && mem == seq(|old(mem)|, _ => 0)
    {
      for i := 0 to |mem|
        invariant |mem| == |old(mem)|
        invariant forall j :: 0 <= j < |mem| ==> mem[j] == if j < i then 0 else old(mem)[j]
      {
        if stacked[i] {
          mem := mem[i := 0];
        }
      }
      assert mem == seq(|old(mem)|, _ => 0);
      ShownAnyway(deck, old(Here()), mem, frags);
    }

    // ---- the URL hash ----

    /** locationHash() */
    method GetLocationHash(oneBased: bool, fragmentInURL: bool) returns (url: string)
      requires Valid()
      ensures exists f :: url == Hash(indexh, indexv, f, oneBased) && Pointed(f, fragmentInURL)
    {
      CurrentShows();
      var indexf: Option<int> := None;
      if fragmentInURL {
        indexf := FragmentIndex(frags[indexh][indexv], deck.groups[indexh][indexv], shown);
      }
      assert Pointed(indexf, fragmentInURL);
      url := Hash(indexh, indexv, indexf, oneBased);
    }

    /** A fragment index that, when shown, leaves visible what is visible; none unless there are fragments. */
    ghost predicate Pointed(f: Option<int>, fragmentInURL: bool)
      reads this
      requires Placed()
    {
      && (f.Some? <==> fragmentInURL && frags[indexh][indexv] != [])
      && (f.Some? ==> Clamp(f.value + 1, 0, deck.Steps(indexh, indexv)) == shown)
    }

    /** readURL(), for a hash that names no slide by its id. */
    method ReadURL(hash: string, oneBased: bool, fragmentInURL: bool)
      requires Valid() && Read(hash, oneBased, fragmentInURL).Indices?
      modifies this`frags, this`hclass, this`vclass, this`mem, this`indexh, this`indexv, this`shown
      ensures Valid()
      ensures var link := Read(hash, oneBased, fragmentInURL);
        Here() == if link.h != old(indexh) || link.v != old(indexv) || link.f.Some?
                  then Decks.Slide(deck, old(Here()), Some(link.h), Some(link.v), link.f) else old(Here())
    {
      var link := Read(hash, oneBased, fragmentInURL);
      if link.h != indexh || link.v != indexv || link.f.Some? {
        Slide(Some(link.h), Some(link.v), link.f);
      }
    }

    /** Following the hash of the place where one already is changes nothing that can be seen. */
    method FollowOwnHash(oneBased: bool, fragmentInURL: bool)
      requires Valid()
      modifies this`frags, this`hclass, this`vclass, this`mem, this`indexh, this`indexv, this`shown
      ensures Valid() && Here().SamePlace(old(Here()))
    {
      var url := GetLocationHash(oneBased, fragmentInURL);
      ghost var f :| url == Hash(indexh, indexv, f, oneBased) && Pointed(f, fragmentInURL);
      HashRoundTrip(indexh, indexv, f, oneBased, fragmentInURL);
      SlideToSelf(deck, Here(), f);
      ReadURL("#" + url, oneBased, fragmentInURL);
    }

    /**
     Following the hash of any place of the deck, from wherever one is, shows that place, if hashes carry
     fragment indices.
     */
    method FollowHash(url: string, oneBased: bool, ghost place: Nav, ghost f: Option<int>)
      requires Valid() && place.Valid(deck) && url == Hash(place.h, place.v, f, oneBased)
      requires f.Some? <==> deck.groups[place.h][place.v] != []
      requires f.Some? ==> Clamp(f.value + 1, 0, deck.Steps(place.h, place.v)) == place.k
      modifies this`frags, this`hclass, this`vclass, this`mem, this`indexh, this`indexv, this`shown
      ensures Valid() && Here().SamePlace(place)
    {
      HashRoundTrip(place.h, place.v, f, oneBased, true);
      if f.Some? {
        SlideToPlace(deck, Here(), place, f.value);
      } else {
        SlideWithout(deck, Here(), place);
      }
      ReadURL("#" + url, oneBased, true);
    }

    // ---- navigation ----

    predicate CanGoDown()
      reads this
      requires indexh < |stacked| == |frags|
    {
      indexv < (if stacked[indexh] then |frags[indexh]| else 0) - 1
    }

    predicate CanGoRight()
      reads this
    {
      indexh < |frags| - 1
    }

    method NavigateLeft()
      requires Valid()
      modifies this`frags, this`hclass, this`vclass, this`mem, this`indexh, this`indexv, this`shown
      ensures Valid() && Here() == Decks.Left(deck, old(Here()))
    {
      var changed := ShowPreviousFragment();
      if !changed && indexh > 0 {
        Slide(Some(indexh - 1), None, None);
      }
    }

    method NavigateRight()
      requires Valid()
      modifies this`frags, this`hclass, this`vclass, this`mem, this`indexh, this`indexv, this`shown
      ensures Valid() && Here() == Decks.Right(deck, old(Here()))
    {
      ghost var s := Here();
      var changed := ShowNextFragment();
      assert changed <==> s.k < deck.Steps(s.h, s.v);
      if !changed && CanGoRight() {
        assert Here() == s && CanRight(deck, s);
        Slide(Some(indexh + 1), None, None);
      }
    }

    method NavigateUp()
      requires Valid()
      modifies this`frags, this`hclass, this`vclass, this`mem, this`indexh, this`indexv, this`shown
      ensures Valid() && Here() == Decks.Up(deck, old(Here()))
    {
      var changed := ShowPreviousFragment();
      if !changed && indexv > 0 {
        Slide(Some(indexh), Some(indexv - 1), None);
      }
    }

    method NavigateDown()
      requires Valid()
      modifies this`frags, this`hclass, this`vclass, this`mem, this`indexh, this`indexv, this`shown
      ensures Valid() && Here() == Decks.Down(deck, old(Here()))
    {
      ghost var s := Here();
      var changed := ShowNextFragment();
      assert changed <==> s.k < deck.Steps(s.h, s.v);
      if !changed && CanGoDown() {
        assert Here() == s;
        SlideBelow();
      }
    }

    /** The slide below, when there is nothing more to show on this one. */
    method SlideBelow()
      requires Valid() && shown == deck.Steps(indexh, indexv) && CanDown(deck, Here())
      modifies this`frags, this`hclass, this`vclass, this`mem, this`indexh, this`indexv, this`shown
      ensures Valid() && Here() == Decks.Down(deck, old(Here()))
    {
      Slide(Some(indexh), Some(indexv + 1), None);
    }

    method NavigateNext()
      requires Valid()
      modifies this`frags, this`hclass, this`vclass, this`mem, this`indexh, this`indexv, this`shown
      ensures Valid() && Here() == Decks.Next(deck, old(Here()))
    {
      var changed := ShowNextFragment();
      if !changed {
        if CanGoDown() {
          NavigateDown();
        } else {
          NavigateRight();
        }
      }
    }

    /** The last horizontal slide with the class past, -1 if there is none. */
    method LastPast() returns (h: int)
      requires Valid()
      ensures h == indexh - 1
    {
      h := -1;
      for i := 0 to |hclass|
        invariant h == if i <= indexh then i - 1 else indexh - 1
      {
        if hclass[i] == Class.Past {
          h := i;
        }
      }
    }

    method NavigatePrev()
      requires Valid()
      modifies this`frags, this`hclass, this`vclass, this`mem, this`indexh, this`indexv, this`shown
      ensures Valid() && Here() == Decks.Prev(deck, old(Here()))
    {
      ghost var s := Here();
      var changed := ShowPreviousFragment();
      assert changed <==> s.k > 0;
      if !changed {
        assert Here() == s;
        if indexv > 0 {
          NavigateUp();
        } else {
          PreviousColumn();
        }
      }
    }

    method PreviousColumn()
      requires Valid()
      modifies this`frags, this`hclass, this`vclass, this`mem, this`indexh, this`indexv, this`shown
      ensures Valid()
      ensures Here() == if old(indexh) == 0 then old(Here())
                        else Decks.Slide(deck, old(Here()), Some(old(indexh) - 1),
                                         LastVertical(deck, old(indexh) - 1), None)
    {
      var previous := LastPast();
      if previous >= 0 {
        // the number of vertical slides less one; zero counts as none, in JavaScript
        var n := (if stacked[previous] then |frags[previous]| else 0) - 1;
        Slide(Some(indexh - 1), if n == 0 then None else Some(n), None);
      }
    }

    /** The next button, pressed once more after n times since loading. */
    method NavigateNextAgain(ghost n: nat)
      requires Valid() && Here() == After(deck, n)
      modifies this`frags, this`hclass, this`vclass, this`mem, this`indexh, this`indexv, this`shown
      ensures Valid() && Here() == After(deck, n + 1)
    {
      NavigateNext();
    }

    // ---- progress ----

    /** Counts the slides before the present one by their classes, and stops there. */
    method GetSlidePastCount() returns (pastCount: nat)
      requires Valid()
      ensures pastCount == SlidesLeft(deck, indexh) + indexv
    {
      pastCount := 0;
      var i := 0;
      while i < |frags|
        invariant 0 <= i <= indexh && pastCount == SlidesLeft(deck, i)
        decreases |frags| - i
      {
        var verticals := if stacked[i] then |frags[i]| else 0;
        var j := 0;
        while j < verticals && vclass[i][j] != Class.Present
          invariant 0 <= j <= verticals && pastCount == SlidesLeft(deck, i) + j
          invariant i == indexh && stacked[i] ==> j <= indexv
        {
          pastCount := pastCount + 1;
          j := j + 1;
        }
        if j < verticals {
          assert vclass[i][j] == Class.Present;
          return;
        }
        if hclass[i] == Class.Present {
          return;
        }
        if !stacked[i] {
          pastCount := pastCount + 1;
        }
        i := i + 1;
      }
    }

    method CountVisible() returns (n: nat)
      requires Valid()
      ensures n == VisibleCount(deck.groups[indexh][indexv], shown)
    {
      CurrentShows();
      var slide := frags[indexh][indexv];
      n := 0;
      for i := 0 to |slide|
        invariant n == VisibleCount(deck.groups[indexh][indexv][..i], shown)
      {
        assert deck.groups[indexh][indexv][..i + 1][..i] == deck.groups[indexh][indexv][..i];
        if slide[i].visible {
          n := n + 1;
        }
      }
      assert deck.groups[indexh][indexv][..|slide|] == deck.groups[indexh][indexv];
    }

    /** All slides but stacks: the horizontal ones that are none, and the vertical ones. */
    method GetTotalSlides() returns (total: nat)
      requires Valid()
      ensures total == Total(deck)
    {
      total := 0;
      for i := 0 to |frags|
        invariant total == SlidesLeft(deck, i)
      {
        if !stacked[i] {
          total := total + 1;
        }
        for j := 0 to if stacked[i] then |frags[i]| else 0
          invariant stacked[i] ==> total == SlidesLeft(deck, i) + j
          invariant !stacked[i] ==> total == SlidesLeft(deck, i) + 1
        {
          total := total + 1;
        }
      }
    }

    /**
     With a single slide the count is divided by zero: not a number as long as no fragment is visible, and
     infinite, so 1, when one is.
     */
    method GetProgress() returns (x: Option<real>)
      requires Valid()
      ensures Total(deck) >= 2 ==> x == Some(Progress(deck, Here()))
      ensures Total(deck) == 1 ==>
                x == if VisibleCount(deck.groups[indexh][indexv], shown) == 0 then None else Some(1.0)
    {
      CurrentShows();
      var totalCount := GetTotalSlides();
      var past := GetSlidePastCount();
      SlidesLeftMonotone(deck, indexh, |frags|);
      var all := |frags[indexh][indexv]|;
      var count := past as real;
      if all > 0 {
        var visible := CountVisible();
        ShareIsZero(visible, all);
        count := count + (visible as real / all as real) * 0.9;
      }
      if totalCount == 1 {
        return if count == 0.0 then None else Some(1.0);
      }
      count := count / (totalCount - 1) as real;
      x := Some(if count < 1.0 then count else 1.0);
    }
  }

  lemma {:induction false} ShareIsZero(visible: nat, all: nat)
    requires all > 0
    ensures (visible as real / all as real) * 0.9 == 0.0 <==> visible == 0
  {
    var share := visible as real / all as real;
    assert share * all as real == visible as real;
  }

  /** The group numbers of every slide are those that sortFragments gives its attributes. */
  ghost predicate Numbered(attributes: seq<seq<seq<Option<nat>>>>, groups: seq<seq<seq<nat>>>)
  {
    && |groups| == |attributes|
    && forall h :: 0 <= h < |groups| ==> NumberedColumn(attributes[h], groups[h])
  }

  ghost predicate NumberedColumn(attributes: seq<seq<Option<nat>>>, groups: seq<seq<nat>>)
  {
    && |groups| == |attributes|
    && forall v :: 0 <= v < |groups| ==> NumberedSlide(attributes[v], groups[v])
  }

  ghost predicate NumberedSlide(attributes: seq<Option<nat>>, groups: seq<nat>)
  {
    exists order :: Ranked(SortKeys(attributes), order, groups)
  }

  lemma {:induction false} NumberedDense(attributes: seq<Option<nat>>, groups: seq<nat>)
    ensures NumberedSlide(attributes, groups) ==> Dense(groups) && |groups| == |attributes|
  {
    if NumberedSlide(attributes, groups) {
      var order :| Ranked(SortKeys(attributes), order, groups);
      RanksDense(SortKeys(attributes), order, groups);
    }
  }

  lemma {:induction false} NumberedValid(d: Deck, attributes: seq<seq<seq<Option<nat>>>>)
    requires |attributes| == |d.stacked| == |d.start| > 0 && Numbered(attributes, d.groups)
    requires forall h :: 0 <= h < |attributes| ==> |attributes[h]| > 0 && (!d.stacked[h] ==> |attributes[h]| == 1)
    ensures d.Valid()
  {
    forall h, v | 0 <= h < |d.groups| && 0 <= v < |d.groups[h]| ensures Dense(d.groups[h][v]) {
      assert NumberedColumn(attributes[h], d.groups[h]);
      NumberedDense(attributes[h][v], d.groups[h][v]);
    }
    forall h | 0 <= h < |d.groups| ensures |d.groups[h]| == |attributes[h]| {
      assert NumberedColumn(attributes[h], d.groups[h]);
    }
  }

  /** A slide on which nothing is visible yet. */
  ghost predicate Hidden(slide: seq<Frag>, groups: seq<nat>)
  {
    |slide| == |groups| && forall i :: 0 <= i < |slide| ==> slide[i] == Frag(Some(groups[i]), false, false)
  }

  ghost predicate HiddenColumn(column: seq<seq<Frag>>, groups: seq<seq<nat>>)
  {
    |column| == |groups| && forall v :: 0 <= v < |column| ==> Hidden(column[v], groups[v])
  }

  lemma {:induction false} HiddenShown(d: Deck, frags: seq<seq<seq<Frag>>>)
    requires d.Valid() && |frags| == |d.groups|
    requires forall h :: 0 <= h < |frags| ==> HiddenColumn(frags[h], d.groups[h])
    ensures AllShown(d, Fresh(d), frags)
  {
    forall h: nat, v: nat | d.Has(h, v) ensures ShownAt(d, Fresh(d), frags, h, v) {
      assert HiddenColumn(frags[h], d.groups[h]);
      assert Hidden(frags[h][v], d.groups[h][v]);
    }
  }

  /** Nothing is visible on the first slide at first. */
  lemma {:induction false} FreshShown(d: Deck, was: seq<seq<seq<Frag>>>, frags: seq<seq<seq<Frag>>>)
    requires d.Valid() && |was| == |d.groups| && PassedBoth(was, 0, 0, frags)
    requires forall h :: 0 <= h < |was| ==> HiddenColumn(was[h], d.groups[h])
    ensures AllShown(d, Fresh(d), frags)
  {
    HiddenShown(d, was);
    ArrivalShown(d, Fresh(d), Fresh(d), was, frags);
  }

  /** sortAllFragments on a document without visible fragments. */
  method SortAllFragments(attributes: seq<seq<seq<Option<nat>>>>)
    returns (frags: seq<seq<seq<Frag>>>, ghost groups: seq<seq<seq<nat>>>)
    ensures Numbered(attributes, groups) && |frags| == |groups|
    ensures forall h :: 0 <= h < |frags| ==> HiddenColumn(frags[h], groups[h])
  {
    frags, groups := [], [];
    for h := 0 to |attributes|
      invariant |frags| == |groups| == h
      invariant forall i :: 0 <= i < h ==> NumberedColumn(attributes[i], groups[i])
      invariant forall i :: 0 <= i < h ==> HiddenColumn(frags[i], groups[i])
    {
      var column, columnGroups := SortColumn(attributes[h]);
      frags, groups := frags + [column], groups + [columnGroups];
    }
  }

  method SortColumn(attributes: seq<seq<Option<nat>>>) returns (column: seq<seq<Frag>>, ghost groups: seq<seq<nat>>)
    ensures NumberedColumn(attributes, groups) && HiddenColumn(column, groups)
  {
    column, groups := [], [];
    for v := 0 to |attributes|
      invariant |column| == |groups| == v
      invariant NumberedColumn(attributes[..v], groups) && HiddenColumn(column, groups)
    {
      var slide, slideGroups := SortSlide(attributes[v]);
      ColumnGrows(attributes, v, column, groups, slide, slideGroups);
      column, groups := column + [slide], groups + [slideGroups];
    }
    assert attributes[..|attributes|] == attributes;
  }

  lemma {:induction false} ColumnGrows(attributes: seq<seq<Option<nat>>>, v: nat, column: seq<seq<Frag>>,
          groups: seq<seq<nat>>, slide: seq<Frag>, slideGroups: seq<nat>)
    requires v < |attributes| && NumberedColumn(attributes[..v], groups) && HiddenColumn(column, groups)
    requires NumberedSlide(attributes[v], slideGroups) && Hidden(slide, slideGroups)
    ensures NumberedColumn(attributes[..v + 1], groups + [slideGroups])
    ensures HiddenColumn(column + [slide], groups + [slideGroups])
  {
    forall w | 0 <= w < v + 1 ensures NumberedSlide(attributes[..v + 1][w], (groups + [slideGroups])[w]) {
      if w < v {
        assert attributes[..v + 1][w] == attributes[..v][w];
      }
    }
  }

  method SortSlide(attributes: seq<Option<nat>>) returns (slide: seq<Frag>, ghost groups: seq<nat>)
    ensures NumberedSlide(attributes, groups) && Hidden(slide, groups)
  {
    var sorted, newIndices := SortFragments(attributes);
    slide := seq(|newIndices|, i requires 0 <= i < |newIndices| => Frag(Some(newIndices[i]), false, false));
    groups := newIndices;
  }

  /** What is visible does not depend on the memories. */
  lemma {:induction false} ShownAnyway(d: Deck, s: Nav, mem: seq<nat>, frags: seq<seq<seq<Frag>>>)
    requires AllShown(d, s, frags)
    ensures AllShown(d, s.(mem := mem), frags)
  {
    forall h: nat, v: nat | d.Has(h, v) ensures ShownAt(d, s.(mem := mem), frags, h, v) {
      assert ShownAt(d, s, frags, h, v);
    }
  }
}
