/**
 The table of slides of one drawing board: a sequence searched from the front, with a slide that is not
 found put in before the first one that comes after it.
 */
module SlideTables {
  import opened Options

  /** Reveal's indices; f is undefined on a slide without fragments. */
  datatype Slide = Slide(h: int, v: int, f: Option<int>)

  datatype Entry<E> = Entry(slide: Slide, events: seq<E>, duration: real)

  /** a > b in JavaScript; a comparison with undefined is false. */
  predicate Greater(a: Option<int>, b: Option<int>)
  {
    a.Some? && b.Some? && a.value > b.value
  }

  predicate Later(a: Slide, b: Slide)
  {
    a.h > b.h || (a.h == b.h && a.v > b.v) || (a.h == b.h && a.v == b.v && Greater(a.f, b.f))
  }

  /**
   Slides are ordered by column, then row, then fragment, where both have one; one without is neither before nor
   after.
   */
  lemma {:induction false} LaterIs(a: Slide, b: Slide)
    ensures a.h != b.h ==> (Later(a, b) <==> b.h < a.h)
    ensures a.h == b.h && a.v != b.v ==> (Later(a, b) <==> b.v < a.v)
    ensures a.h == b.h && a.v == b.v && a.f.Some? && b.f.Some? ==> (Later(a, b) <==> b.f.value < a.f.value)
    ensures a.h == b.h && a.v == b.v && (a.f.None? || b.f.None?) ==> !Later(a, b)
  {
  }

  /** Entry i may stand before entry j. */
  predicate InPlace<E>(data: seq<Entry<E>>, legacy: bool, i: nat, j: nat)
    requires i < |data| && j < |data|
  {
    data[i].slide != data[j].slide && (legacy || !Later(data[i].slide, data[j].slide))
  }

  /**
   What the table always is: no slide has two entries, and none stands before an earlier one.  Legacy
   files keep the order of recording.
   */
  ghost predicate Tidy<E>(data: seq<Entry<E>>, legacy: bool)
  {
    forall i: nat, j: nat {:trigger InPlace(data, legacy, i, j)} :: i < j < |data| ==> InPlace(data, legacy, i, j)
  }

  ghost predicate StrictlySorted<E>(data: seq<Entry<E>>)
  {
    forall i, j :: 0 <= i < j < |data| ==> Later(data[j].slide, data[i].slide)
  }

  /** The fragment index is there for all entries of a slide, or for none of them. */
  ghost predicate Consistent<E>(data: seq<Entry<E>>)
  {
    forall i, j :: 0 <= i < j < |data| && data[i].slide.h == data[j].slide.h && data[i].slide.v == data[j].slide.v ==>
      (data[i].slide.f.Some? <==> data[j].slide.f.Some?)
  }

  /** A tidy table is strictly sorted exactly when fragment indices are consistently there or not. */
  lemma {:induction false} StrictIffConsistent<E>(data: seq<Entry<E>>)
    requires Tidy(data, false)
    ensures StrictlySorted(data) <==> Consistent(data)
  {
    forall i, j | 0 <= i < j < |data|
      ensures Later(data[j].slide, data[i].slide) <==>
              (data[i].slide.h == data[j].slide.h && data[i].slide.v == data[j].slide.v ==>
                 (data[i].slide.f.Some? <==> data[j].slide.f.Some?))
    {
      assert InPlace(data, false, i, j);
    }
  }

  /** The finite map that the table represents. */
  function AsMap<E>(data: seq<Entry<E>>): map<Slide, Entry<E>>
  {
    if data == [] then map[]
    else
      var last := data[|data| - 1];
      AsMap(data[..|data| - 1])[last.slide := last]
  }

  lemma {:induction false} InMap<E>(data: seq<Entry<E>>, slide: Slide)
    ensures slide in AsMap(data) <==> exists i :: 0 <= i < |data| && data[i].slide == slide
  {
    if data != [] {
      InMap(data[..|data| - 1], slide);
      if data[|data| - 1].slide != slide && slide in AsMap(data) {
        var i :| 0 <= i < |data| - 1 && data[..|data| - 1][i].slide == slide;
        assert data[i].slide == slide;
      }
    }
  }

  lemma {:induction false} MapHas<E>(data: seq<Entry<E>>, i: nat)
    requires i < |data| && forall j :: i < j < |data| ==> data[j].slide != data[i].slide
    ensures data[i].slide in AsMap(data) && AsMap(data)[data[i].slide] == data[i]
  {
    if i < |data| - 1 {
      MapHas(data[..|data| - 1], i);
    }
  }

  /** Where the search for a slide stops. */
  function Place<E>(data: seq<Entry<E>>, slide: Slide, legacy: bool): (i: nat)
    ensures i <= |data|
    ensures i < |data| ==> data[i].slide == slide || (!legacy && Later(data[i].slide, slide))
    ensures forall j :: 0 <= j < i ==> data[j].slide != slide && (legacy || !Later(data[j].slide, slide))
  {
    if data == [] || data[0].slide == slide || (!legacy && Later(data[0].slide, slide)) then 0
    else 1 + Place(data[1..], slide, legacy)
  }

  lemma {:induction false} PlaceIs<E>(data: seq<Entry<E>>, slide: Slide, legacy: bool, i: nat)
    requires i <= |data|
    requires i < |data| ==> data[i].slide == slide || (!legacy && Later(data[i].slide, slide))
    requires forall j :: 0 <= j < i ==> data[j].slide != slide && (legacy || !Later(data[j].slide, slide))
    ensures Place(data, slide, legacy) == i
  {
    if i > 0 {
      PlaceIs(data[1..], slide, legacy, i - 1);
    }
  }

  /** The search finds a slide that is in the table, though it stops at the first later one. */
  lemma {:induction false} PlaceFinds<E>(data: seq<Entry<E>>, slide: Slide, legacy: bool)
    requires Tidy(data, legacy)
    ensures var p := Place(data, slide, legacy);
      slide in AsMap(data) <==> p < |data| && data[p].slide == slide
  {
    var p := Place(data, slide, legacy);
    InMap(data, slide);
    if p < |data| && data[p].slide != slide {
      forall j | 0 <= j < |data| ensures data[j].slide != slide {
        if j > p {
          assert InPlace(data, legacy, p, j);
        }
      }
    }
  }

  /** getSlideData(): the table afterwards. */
  function Located<E>(data: seq<Entry<E>>, slide: Slide, legacy: bool): seq<Entry<E>>
  {
    var p := Place(data, slide, legacy);
    if p < |data| && data[p].slide == slide then data else data[..p] + [Entry(slide, [], 0.0)] + data[p..]
  }

  lemma {:induction false} LocatedTidy<E>(data: seq<Entry<E>>, slide: Slide, legacy: bool)
    requires Tidy(data, legacy)
    ensures var p, data' := Place(data, slide, legacy), Located(data, slide, legacy);
      p < |data'| && data'[p].slide == slide && Tidy(data', legacy)
  {
    var p, data' := Place(data, slide, legacy), Located(data, slide, legacy);
    if data' != data {
      forall i: nat, j: nat | i < j < |data'| ensures InPlace(data', legacy, i, j) {
        if i == p {
          NotBefore(data, slide, legacy, j - 1);
        } else if j == p {
          assert data[i].slide != slide;
        } else {
          assert InPlace(data, legacy, if i < p then i else i - 1, if j < p then j else j - 1);
        }
      }
    }
  }

  lemma {:induction false} NotBefore<E>(data: seq<Entry<E>>, slide: Slide, legacy: bool, j: nat)
    requires Tidy(data, legacy) && Place(data, slide, legacy) <= j < |data|
    requires data[Place(data, slide, legacy)].slide != slide
    ensures data[j].slide != slide && (legacy || !Later(slide, data[j].slide))
  {
    var p := Place(data, slide, legacy);
    if p < j {
      assert InPlace(data, legacy, p, j);
    }
  }

  /** Finding or inserting a slide is what it is on a map: nothing when it is there, an empty entry when not. */
  lemma {:induction false} LocatedAsMap<E>(data: seq<Entry<E>>, slide: Slide, legacy: bool)
    requires Tidy(data, legacy)
    ensures AsMap(Located(data, slide, legacy)) ==
            if slide in AsMap(data) then AsMap(data) else AsMap(data)[slide := Entry(slide, [], 0.0)]
  {
    PlaceFinds(data, slide, legacy);
    var p, e := Place(data, slide, legacy), Entry(slide, [], 0.0);
    if slide !in AsMap(data) {
      InMap(data, slide);
      InsertedAsMap(data, p, e);
    }
  }

  lemma {:induction false} InsertedAsMap<E>(data: seq<Entry<E>>, p: nat, e: Entry<E>)
    requires p <= |data| && forall j :: p <= j < |data| ==> data[j].slide != e.slide
    ensures AsMap(data[..p] + [e] + data[p..]) == AsMap(data)[e.slide := e]
  {
    var data' := data[..p] + [e] + data[p..];
    var n := |data|;
    if p == n {
      assert data'[..n] == data;
    } else {
      InsertedAsMap(data[..n - 1], p, e);
      assert data'[..n] == data[..n - 1][..p] + [e] + data[..n - 1][p..];
      assert data'[n] == data[n - 1];
    }
  }

  /** Overwriting an entry in place. */
  lemma {:induction false} WrittenTidy<E>(data: seq<Entry<E>>, p: nat, e: Entry<E>, legacy: bool)
    requires Tidy(data, legacy) && p < |data| && data[p].slide == e.slide
    ensures Tidy(data[p := e], legacy)
  {
    var data' := data[p := e];
    forall i: nat, j: nat | i < j < |data| ensures InPlace(data', legacy, i, j) {
      assert InPlace(data, legacy, i, j);
    }
  }

  lemma {:induction false} WrittenAsMap<E>(data: seq<Entry<E>>, p: nat, e: Entry<E>)
    requires p < |data| && data[p].slide == e.slide && forall j :: p < j < |data| ==> data[j].slide != e.slide
    ensures AsMap(data[p := e]) == AsMap(data)[e.slide := e]
  {
    var n := |data| - 1;
    if p == n {
      assert data[p := e][..n] == data[..n];
    } else {
      WrittenAsMap(data[..n], p, e);
      assert data[p := e][..n] == data[..n][p := e];
    }
  }

  /** No entry after one is of the same slide. */
  lemma {:induction false} NoneAfter<E>(data: seq<Entry<E>>, p: nat, legacy: bool)
    requires Tidy(data, legacy) && p < |data|
    ensures forall j :: p < j < |data| ==> data[j].slide != data[p].slide
  {
    forall j | p < j < |data| ensures data[j].slide != data[p].slide {
      assert InPlace(data, legacy, p, j);
    }
  }
}
