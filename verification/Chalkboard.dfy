/**
 The chalkboard plugin: drawings recorded as events per slide, and their replay.
 */
module Chalkboards {
  import opened Options
  import opened SlideTables
  import opened BoardEvents
  import opened Drawings

  // ---- boards ----

  ghost predicate ValidBoard(data: seq<Entry<Event>>, legacy: bool)
  {
    Tidy(data, legacy) && forall i :: 0 <= i < |data| ==> Sorted(data[i].events)
  }

  ghost predicate TimelyBoard(data: seq<Entry<Event>>)
  {
    forall i :: 0 <= i < |data| ==> InTime(data[i].events, data[i].duration)
  }

  ghost predicate Fine(boards: seq<seq<Entry<Event>>>, legacy: bool, id: nat)
  {
    id < |boards| && ValidBoard(boards[id], legacy)
  }

  ghost predicate ValidBoards(boards: seq<seq<Entry<Event>>>, legacy: bool)
  {
    |boards| == 2 && forall id: nat {:trigger Fine(boards, legacy, id)} :: id < 2 ==> Fine(boards, legacy, id)
  }

  ghost predicate Prompt(boards: seq<seq<Entry<Event>>>, id: nat)
  {
    id < |boards| && TimelyBoard(boards[id])
  }

  ghost predicate TimelyBoards(boards: seq<seq<Entry<Event>>>)
  {
    |boards| == 2 && forall id: nat {:trigger Prompt(boards, id)} :: id < 2 ==> Prompt(boards, id)
  }

  lemma {:induction false} BoardReplaced(boards: seq<seq<Entry<Event>>>, legacy: bool, id: nat,
          board: seq<Entry<Event>>)
    requires ValidBoards(boards, legacy) && id < 2 && ValidBoard(board, legacy)
    ensures ValidBoards(boards[id := board], legacy)
    ensures TimelyBoards(boards) && TimelyBoard(board) ==> TimelyBoards(boards[id := board])
  {
    var after := boards[id := board];
    forall other: nat | other < 2 ensures Fine(after, legacy, other) {
      assert Fine(boards, legacy, other);
    }
    if TimelyBoards(boards) && TimelyBoard(board) {
      forall other: nat | other < 2 ensures Prompt(after, other) {
        assert Prompt(boards, other);
      }
    }
  }

  function Longest(a: real, b: real): real
  {
    if a > b then a else b
  }

  function DurationOn(data: seq<Entry<Event>>, slide: Slide): real
  {
    if data == [] then 0.0
    else if data[0].slide == slide then Longest(data[0].duration, 0.0)
    else DurationOn(data[1..], slide)
  }

  function LongestOn(boards: seq<seq<Entry<Event>>>, slide: Slide): (d: real)
    ensures forall id :: 0 <= id < |boards| ==> d >= DurationOn(boards[id], slide)
    ensures d >= 0.0
  {
    if boards == [] then 0.0
    else Longest(LongestOn(boards[..|boards| - 1], slide), DurationOn(boards[|boards| - 1], slide))
  }

  /** The longest duration is that of one of the boards, or zero when none has a longer one. */
  lemma {:induction false} LongestIs(boards: seq<seq<Entry<Event>>>, slide: Slide)
    ensures LongestOn(boards, slide) == 0.0
            || exists id :: 0 <= id < |boards| && LongestOn(boards, slide) == DurationOn(boards[id], slide)
  {
    if boards != [] {
      var front := boards[..|boards| - 1];
      LongestIs(front, slide);
      if LongestOn(boards, slide) == LongestOn(front, slide) != 0.0 {
        var id :| 0 <= id < |front| && LongestOn(front, slide) == DurationOn(front[id], slide);
        assert boards[id] == front[id];
      }
    }
  }

  lemma {:induction false} DurationIs(data: seq<Entry<Event>>, slide: Slide, i: nat)
    requires i <= |data| && (i < |data| ==> data[i].slide == slide)
    requires forall j :: 0 <= j < i ==> data[j].slide != slide
    ensures DurationOn(data, slide) == if i < |data| then Longest(data[i].duration, 0.0) else 0.0
  {
    if i > 0 {
      DurationIs(data[1..], slide, i - 1);
    }
  }

  function EventsOn(data: seq<Entry<Event>>, slide: Slide): seq<Event>
  {
    if data == [] then [] else if data[0].slide == slide then data[0].events else EventsOn(data[1..], slide)
  }

  /** The events of a slide are all over by its duration. */
  lemma {:induction false} SlideInTime(data: seq<Entry<Event>>, slide: Slide)
    requires TimelyBoard(data)
    ensures InTime(EventsOn(data, slide), DurationOn(data, slide))
  {
    if data != [] && data[0].slide != slide {
      assert TimelyBoard(data[1..]);
      SlideInTime(data[1..], slide);
    }
  }

  lemma {:induction false} EventsAt(data: seq<Entry<Event>>, slide: Slide, legacy: bool)
    requires Tidy(data, legacy)
    ensures var data', i := Located(data, slide, legacy), Place(data, slide, legacy);
      i < |data'| && data'[i].events == EventsOn(data, slide)
  {
    var i := Place(data, slide, legacy);
    LocatedTidy(data, slide, legacy);
    if i < |data| && data[i].slide == slide {
      EventsIs(data, slide, i);
    } else {
      PlaceFinds(data, slide, legacy);
      InMap(data, slide);
      NoEvents(data, slide);
    }
  }

  lemma {:induction false} EventsIs(data: seq<Entry<Event>>, slide: Slide, i: nat)
    requires i < |data| && data[i].slide == slide && forall j :: 0 <= j < i ==> data[j].slide != slide
    ensures EventsOn(data, slide) == data[i].events
  {
    if i > 0 {
      EventsIs(data[1..], slide, i - 1);
    }
  }

  lemma {:induction false} NoEvents(data: seq<Entry<Event>>, slide: Slide)
    requires forall j :: 0 <= j < |data| ==> data[j].slide != slide
    ensures EventsOn(data, slide) == []
  {
    if data != [] {
      NoEvents(data[1..], slide);
    }
  }

  lemma {:induction false} LocatedValid(data: seq<Entry<Event>>, slide: Slide, legacy: bool)
    requires ValidBoard(data, legacy)
    ensures ValidBoard(Located(data, slide, legacy), legacy)
    ensures Place(data, slide, legacy) < |Located(data, slide, legacy)|
    ensures Located(data, slide, legacy)[Place(data, slide, legacy)].slide == slide
    ensures TimelyBoard(data) ==> TimelyBoard(Located(data, slide, legacy))
  {
    LocatedTidy(data, slide, legacy);
  }

  /** An entry with one more event. */
  function Lengthened(entry: Entry<Event>, event: Event, now: real): Entry<Event>
  {
    Entry(entry.slide, Recorded(entry.events, event), Longest(entry.duration, now) + 1.0)
  }

  /** The duration grows by one beyond what it was and beyond the time, whichever is later. */
  lemma {:induction false} DurationGrows(entry: Entry<Event>, event: Event, now: real)
    ensures var d := Lengthened(entry, event, now).duration;
      d >= entry.duration + 1.0 && d >= now + 1.0 && (d == entry.duration + 1.0 || d == now + 1.0)
  {
  }

  /** A board with one more event of the slide. */
  ghost function WithEvent(data: seq<Entry<Event>>, slide: Slide, legacy: bool, event: Event,
          now: real): seq<Entry<Event>>
    requires Tidy(data, legacy)
  {
    LocatedTidy(data, slide, legacy);
    var data', i := Located(data, slide, legacy), Place(data, slide, legacy);
    data'[i := Lengthened(data'[i], event, now)]
  }

  ghost function BoardsWith(boards: seq<seq<Entry<Event>>>, slide: Slide, legacy: bool, id: nat, event: Event,
          now: real): (after: seq<seq<Entry<Event>>>)
    requires ValidBoards(boards, legacy) && id < 2
    ensures |after| == 2
  {
    assert Fine(boards, legacy, id);
    boards[id := WithEvent(boards[id], slide, legacy, event, now)]
  }

  lemma {:induction false} WithEventValid(data: seq<Entry<Event>>, slide: Slide, legacy: bool, event: Event, now: real)
    requires ValidBoard(data, legacy)
    ensures ValidBoard(WithEvent(data, slide, legacy, event, now), legacy)
    ensures TimelyBoard(data) && event.begin <= Finish(event) <= now ==>
              TimelyBoard(WithEvent(data, slide, legacy, event, now))
  {
    LocatedValid(data, slide, legacy);
    LengthenedValid(Located(data, slide, legacy), Place(data, slide, legacy), event, now, legacy);
  }

  /** The table is the same map but for the slide recorded, which has the one event more. */
  lemma {:induction false} WithEventAsMap(data: seq<Entry<Event>>, slide: Slide, legacy: bool, event: Event, now: real)
    requires ValidBoard(data, legacy)
    ensures var before := if slide in AsMap(data) then AsMap(data)[slide] else Entry(slide, [], 0.0);
      AsMap(WithEvent(data, slide, legacy, event, now)) == AsMap(data)[slide := Lengthened(before, event, now)]
  {
    var data', i := Located(data, slide, legacy), Place(data, slide, legacy);
    LocatedValid(data, slide, legacy);
    LocatedAsMap(data, slide, legacy);
    NoneAfter(data', i, legacy);
    MapHas(data', i);
    WrittenAsMap(data', i, Lengthened(data'[i], event, now));
  }

  lemma {:induction false} LengthenedValid(data: seq<Entry<Event>>, i: nat, event: Event, now: real, legacy: bool)
    requires ValidBoard(data, legacy) && i < |data|
    ensures ValidBoard(data[i := Lengthened(data[i], event, now)], legacy)
    ensures TimelyBoard(data) && event.begin <= Finish(event) <= now ==>
              TimelyBoard(data[i := Lengthened(data[i], event, now)])
  {
    WrittenTidy(data, i, Lengthened(data[i], event, now), legacy);
    RecordedSorted(data[i].events, event);
    if TimelyBoard(data) && event.begin <= Finish(event) <= now {
      RecordedInTime(data[i].events, data[i].duration, event, Longest(data[i].duration, now) + 1.0);
    }
  }

  function Emptied(data: seq<Entry<Event>>, slide: Slide, legacy: bool): seq<Entry<Event>>
    requires Place(data, slide, legacy) < |Located(data, slide, legacy)|
  {
    Located(data, slide, legacy)[Place(data, slide, legacy) := Entry(slide, [], 0.0)]
  }

  ghost function EmptiedOn(boards: seq<seq<Entry<Event>>>, slide: Slide, legacy: bool): seq<seq<Entry<Event>>>
    requires ValidBoards(boards, legacy)
  {
    assert Fine(boards, legacy, 0) && Fine(boards, legacy, 1);
    LocatedValid(boards[0], slide, legacy);
    LocatedValid(boards[1], slide, legacy);
    [Emptied(boards[0], slide, legacy), Emptied(boards[1], slide, legacy)]
  }

  lemma {:induction false} EmptyValid(data: seq<Entry<Event>>, i: nat, legacy: bool)
    requires ValidBoard(data, legacy) && i < |data|
    ensures ValidBoard(data[i := Entry(data[i].slide, [], 0.0)], legacy)
    ensures TimelyBoard(data) ==> TimelyBoard(data[i := Entry(data[i].slide, [], 0.0)])
  {
    WrittenTidy(data, i, Entry(data[i].slide, [], 0.0), legacy);
  }

  /** What the table has of a slide is what the map has. */
  lemma {:induction false} EventsAsMap(data: seq<Entry<Event>>, slide: Slide, legacy: bool)
    requires Tidy(data, legacy)
    ensures EventsOn(data, slide) == if slide in AsMap(data) then AsMap(data)[slide].events else []
  {
    InMap(data, slide);
    if slide in AsMap(data) {
      var i :| 0 <= i < |data| && data[i].slide == slide;
      NoneAfter(data, i, legacy);
      MapHas(data, i);
      forall j | 0 <= j < i ensures data[j].slide != slide {
        assert InPlace(data, legacy, j, i);
      }
      EventsIs(data, slide, i);
    } else {
      NoEvents(data, slide);
    }
  }

  /** Searching for a slide, found or not, changes no events. */
  lemma {:induction false} EventsLocated(data: seq<Entry<Event>>, slide: Slide, legacy: bool, other: Slide)
    requires ValidBoard(data, legacy)
    ensures EventsOn(Located(data, slide, legacy), other) == EventsOn(data, other)
  {
    LocatedValid(data, slide, legacy);
    LocatedAsMap(data, slide, legacy);
    EventsAsMap(data, other, legacy);
    EventsAsMap(Located(data, slide, legacy), other, legacy);
  }

  /** Recording adds the event to those of its slide, and no other slide has other events. */
  lemma {:induction false} EventsWith(data: seq<Entry<Event>>, slide: Slide, legacy: bool, event: Event, now: real,
          other: Slide)
    requires ValidBoard(data, legacy)
    ensures EventsOn(WithEvent(data, slide, legacy, event, now), other) ==
            if other == slide then Recorded(EventsOn(data, slide), event) else EventsOn(data, other)
  {
    WithEventValid(data, slide, legacy, event, now);
    WithEventAsMap(data, slide, legacy, event, now);
    EventsAsMap(data, other, legacy);
    EventsAsMap(WithEvent(data, slide, legacy, event, now), other, legacy);
  }

  /** The events of a slide on both boards. */
  function EventsOf(boards: seq<seq<Entry<Event>>>, slide: Slide): (events: seq<seq<Event>>)
    requires |boards| == 2
    ensures |events| == 2
  {
    [EventsOn(boards[0], slide), EventsOn(boards[1], slide)]
  }

  ghost predicate SameOn(boards: seq<seq<Entry<Event>>>, before: seq<seq<Entry<Event>>>, slide: Slide)
    requires |boards| == |before| == 2
  {
    EventsOf(boards, slide) == EventsOf(before, slide)
  }

  ghost predicate OthersKept(boards: seq<seq<Entry<Event>>>, before: seq<seq<Entry<Event>>>, slide: Slide)
    requires |boards| == |before| == 2
  {
    forall other :: other != slide ==> SameOn(boards, before, other)
  }

  /** What the replay shows of a slide was made by pointer events so far. */
  ghost predicate KnownOn(boards: seq<seq<Entry<Event>>>, slide: Slide, points: nat)
    requires |boards| == 2
  {
    forall id :: 0 <= id < 2 ==> Within(Replayed(EventsOf(boards, slide)[id]), 0, points)
  }

  ghost predicate AllKnown(boards: seq<seq<Entry<Event>>>, points: nat)
    requires |boards| == 2
  {
    forall slide :: KnownOn(boards, slide, points)
  }

  /** One slide is known anew, and the others have the events they had. */
  lemma {:induction false} KnownAgain(boards: seq<seq<Entry<Event>>>, before: seq<seq<Entry<Event>>>, slide: Slide,
          points: nat, points': nat)
    requires |boards| == |before| == 2 && points <= points'
    requires AllKnown(before, points) && OthersKept(boards, before, slide) && KnownOn(boards, slide, points')
    ensures AllKnown(boards, points')
  {
    forall other ensures KnownOn(boards, other, points') {
      if other != slide {
        assert KnownOn(before, other, points) && SameOn(boards, before, other);
      }
    }
  }

  lemma {:induction false} KeptTwice(c: seq<seq<Entry<Event>>>, b: seq<seq<Entry<Event>>>, a: seq<seq<Entry<Event>>>,
          slide: Slide)
    requires |a| == |b| == |c| == 2 && OthersKept(b, a, slide) && OthersKept(c, b, slide)
    ensures OthersKept(c, a, slide)
  {
    forall other ensures other != slide ==> SameOn(c, a, other) {
      assert other != slide ==> SameOn(c, b, other) && SameOn(b, a, other);
    }
  }

  /** A slide that was emptied has no events and no duration, and the others have the events they had. */
  lemma {:induction false} EmptiedIs(boards: seq<seq<Entry<Event>>>, slide: Slide, legacy: bool)
    requires ValidBoards(boards, legacy)
    ensures |EmptiedOn(boards, slide, legacy)| == 2
    ensures EventsOf(EmptiedOn(boards, slide, legacy), slide) == [[], []]
    ensures LongestOn(EmptiedOn(boards, slide, legacy), slide) == 0.0
    ensures OthersKept(EmptiedOn(boards, slide, legacy), boards, slide)
  {
    assert Fine(boards, legacy, 0) && Fine(boards, legacy, 1);
    var after := EmptiedOn(boards, slide, legacy);
    EmptiedEvents(boards[0], slide, legacy, slide);
    EmptiedEvents(boards[1], slide, legacy, slide);
    assert after[..2] == after && after[..2][..1] == [after[0]] && after[..1][..0] == [];
    assert LongestOn([after[0]], slide) == 0.0;
    forall other ensures other != slide ==> SameOn(after, boards, other) {
      EmptiedEvents(boards[0], slide, legacy, other);
      EmptiedEvents(boards[1], slide, legacy, other);
    }
  }

  lemma {:induction false} EmptiedEvents(data: seq<Entry<Event>>, slide: Slide, legacy: bool, other: Slide)
    requires ValidBoard(data, legacy)
    ensures Place(data, slide, legacy) < |Located(data, slide, legacy)|
    ensures EventsOn(Emptied(data, slide, legacy), other) == if other == slide then [] else EventsOn(data, other)
    ensures DurationOn(Emptied(data, slide, legacy), slide) == 0.0
  {
    var data', i := Located(data, slide, legacy), Place(data, slide, legacy);
    LocatedValid(data, slide, legacy);
    EmptyValid(data', i, legacy);
    var after := Emptied(data, slide, legacy);
    EventsIs(after, slide, i);
    DurationIs(after, slide, i);
    NoneAfter(data', i, legacy);
    WrittenAsMap(data', i, Entry(slide, [], 0.0));
    EventsAsMap(after, other, legacy);
    EventsLocated(data, slide, legacy, other);
    EventsAsMap(data', other, legacy);
  }

  /** Boards that differ in one event that was recorded on one of them. */
  ghost predicate RecordedOn(boards: seq<seq<Entry<Event>>>, before: seq<seq<Entry<Event>>>, slide: Slide, id: nat,
      event: Event)
    requires |boards| == |before| == 2 && id < 2
  {
    && EventsOf(boards, slide) == Record(EventsOf(before, slide), id, event)
    && OthersKept(boards, before, slide)
  }

  lemma {:induction false} EventRecorded(boards: seq<seq<Entry<Event>>>, slide: Slide, legacy: bool, id: nat,
          event: Event, now: real)
    requires ValidBoards(boards, legacy) && id < 2
    ensures RecordedOn(BoardsWith(boards, slide, legacy, id, event, now), boards, slide, id, event)
  {
    assert Fine(boards, legacy, id);
    EventsWith(boards[id], slide, legacy, event, now, slide);
    var after := BoardsWith(boards, slide, legacy, id, event, now);
    forall other ensures other != slide ==> SameOn(after, boards, other) {
      EventsWith(boards[id], slide, legacy, event, now, other);
    }
  }

  lemma {:induction false} BoardsWithEvent(boards: seq<seq<Entry<Event>>>, slide: Slide, legacy: bool, id: nat,
          event: Event, now: real)
    requires ValidBoards(boards, legacy) && id < 2
    ensures var after := BoardsWith(boards, slide, legacy, id, event, now);
      && ValidBoards(after, legacy)
      && (TimelyBoards(boards) && event.begin <= Finish(event) <= now ==> TimelyBoards(after))
  {
    assert Fine(boards, legacy, id);
    WithEventValid(boards[id], slide, legacy, event, now);
    assert TimelyBoards(boards) ==> Prompt(boards, id);
    BoardReplaced(boards, legacy, id, WithEvent(boards[id], slide, legacy, event, now));
  }

  method AddEvent(data: seq<Entry<Event>>, at: nat, event: Event, now: real) returns (board: seq<Entry<Event>>)
    requires at < |data|
    ensures board == data[at := Lengthened(data[at], event, now)]
  {
    var slideData := data[at];
    var events := InsertEvent(slideData.events, event);
    board := data[at := Entry(slideData.slide, events, Longest(slideData.duration, now) + 1.0)];
  }

  class Chalkboard {
    const legacyFileSupport: bool
    var storage: seq<seq<Entry<Event>>>  // notes canvas and chalkboard
    var slideIndices: Slide
    var mode: nat
    var playback: bool
    var canvas: seq<seq<Stroke>>
    var timeouts: seq<seq<Cue>>
    var late: seq<seq<Stroke>>           // strokes waiting for their time
    var event: Option<Pending>           // what is being drawn
    var notesInUse: bool                 // whether the notes canvas takes the pointer
    var points: nat

    /** Both tables are tidy and all their events sorted. */
    ghost predicate Valid()
      reads this
    {
      && |canvas| == |timeouts| == |late| == 2 && mode < 2 && (event.Some? ==> event.value.curve != [])
      && ValidBoards(storage, legacyFileSupport)
    }

    ghost function On(id: nat): Playing
      requires id < |canvas| && id < |timeouts| && id < |late|
      reads this
    {
      Playing(canvas[id], timeouts[id], late[id])
    }

    ghost function Events(id: nat): seq<Event>
      requires id < |storage|
      reads this
    {
      EventsOn(storage[id], slideIndices)
    }

    /** What one sees of the current slide, and what is recorded of it. */
    ghost function View(): (s: Sketch)
      requires Valid()
      reads this
      ensures s.Valid()
    {
      Sketch(mode, event, canvas, EventsOf(storage, slideIndices), points, notesInUse)
    }

    /** All events are over before the duration of their entry. */
    ghost predicate Timely()
      reads this
    {
      TimelyBoards(storage)
    }

    ghost predicate Known()
      requires |storage| == 2
      reads this
    {
      AllKnown(storage, points)
    }

    constructor (legacy: bool, slide: Slide)
      ensures Valid() && Timely() && legacyFileSupport == legacy && slideIndices == slide && storage == [[], []]
      ensures View() == BLANK && Known()
    {
      legacyFileSupport, storage, slideIndices, mode, playback := legacy, [[], []], slide, 0, false;
      canvas, timeouts, late := [[], []], [[], []], [[], []];
      event, notesInUse, points := None, false, 0;
    }

    method GetSlideData(indices: Slide, id: nat) returns (i: nat)
      requires Valid() && id < 2
      modifies this`storage
      ensures Valid() && (old(Timely()) ==> Timely())
      ensures storage == old(storage)[id := Located(old(storage)[id], indices, legacyFileSupport)]
      ensures i == Place(old(storage)[id], indices, legacyFileSupport)
      ensures i < |storage[id]| && storage[id][i].slide == indices
    {
      i := 0;
      var data := storage[id];
      assert Fine(storage, legacyFileSupport, id);
      LocatedValid(data, indices, legacyFileSupport);
      assert TimelyBoards(storage) ==> Prompt(storage, id);
      BoardReplaced(storage, legacyFileSupport, id, Located(data, indices, legacyFileSupport));
      while i < |data| && data[i].slide != indices
        invariant i <= |data|
        invariant forall j :: 0 <= j < i ==>
                    data[j].slide != indices && (legacyFileSupport || !Later(data[j].slide, indices))
      {
        if !legacyFileSupport && Later(data[i].slide, indices) {
          PlaceIs(data, indices, legacyFileSupport, i);
          storage := storage[id := data[..i] + [Entry(indices, [], 0.0)] + data[i..]];
          return;
        }
        i := i + 1;
      }
      PlaceIs(data, indices, legacyFileSupport, i);
      if i == |data| {
        assert data[..i] + [Entry(indices, [], 0.0)] + data[i..] == data + [Entry(indices, [], 0.0)];
        storage := storage[id := data + [Entry(indices, [], 0.0)]];
      }
      assert storage == old(storage)[id := storage[id]];
    }

    /** The longest duration of the slide on either board; zero when nothing is recorded. */
    method GetSlideDuration(indices: Slide) returns (duration: real)
      requires Valid()
      ensures duration == LongestOn(storage, indices)
    {
      duration := 0.0;
      for id := 0 to |storage|
        invariant duration == LongestOn(storage[..id], indices)
      {
        var i := 0;
        var data := storage[id];
        while i < |data| && data[i].slide != indices
          invariant i <= |data| && forall j :: 0 <= j < i ==> data[j].slide != indices
        {
          i := i + 1;
        }
        DurationIs(data, indices, i);
        if i < |data| {
          duration := Longest(duration, data[i].duration);
        }
        assert storage[..id + 1][..id] == storage[..id];
      }
      assert storage[..|storage|] == storage;
    }

    /** Records an event of the open board at the given time since the slide was shown. */
    method RecordEvent(event: Event, now: real)
      requires Valid()
      modifies this`storage
      ensures Valid()
      ensures old(Timely()) && event.begin <= Finish(event) <= now ==> Timely()
      ensures storage == BoardsWith(old(storage), slideIndices, legacyFileSupport, mode, event, now)
      ensures View() == old(View()).(events := Record(old(View()).events, mode, event))
      ensures RecordedOn(storage, old(storage), slideIndices, mode, event)
    {
      assert Fine(storage, legacyFileSupport, mode);
      EventRecorded(storage, slideIndices, legacyFileSupport, mode, event, now);
      BoardsWithEvent(storage, slideIndices, legacyFileSupport, mode, event, now);
      var at := GetSlideData(slideIndices, mode);
      var board := AddEvent(storage[mode], at, event, now);
      storage := storage[mode := board];
      assert storage == BoardsWith(old(storage), slideIndices, legacyFileSupport, mode, event, now);
    }

    // ---- drawing ----

    /** Time goes on, and with it what is pending. */
    ghost predicate Since(at: real)
      reads this
    {
      event.Some? ==> event.value.begin <= at
    }

    method StartDrawing(at: real, x: real, y: real, erase: bool)
      requires Valid()
      modifies this`event, this`canvas, this`points
      ensures Valid() && View() == Pressed(old(View()), at, x, y, erase) && Since(at)
    {
      var p := Point(x, y, points);
      event := Some(Pending(erase, at, [p], p));
      canvas := Put(canvas, mode, if erase then [Sponge(p)] else []);
      points := points + 1;
    }

    /** A timer fires: the one of the pending event, or another, whose finger came down at x and y. */
    method ShowSponge(at: real, own: bool, x: real, y: real)
      requires Valid()
      modifies this`event, this`canvas, this`points
      ensures Valid() && View() == Held(old(View()), at, own, x, y) && (old(Since(at)) ==> Since(at))
    {
      if event.Some? {
        var p := if own then event.value.curve[0] else Point(x, y, points);
        event := Some(event.value.(erase := true, begin := at));
        canvas := Put(canvas, mode, [Sponge(p)]);
        points := if own then points else points + 1;
      }
    }

    /** The pointer moves; what is beyond the canvas joins the curve and is not drawn. */
    method DrawSegment(x: real, y: real, inside: bool)
      requires Valid()
      modifies this`event, this`canvas, this`points
      ensures Valid() && View() == Dragged(old(View()), x, y, inside)
      ensures forall at :: old(Since(at)) ==> Since(at)
    {
      if event.Some? {
        var e, p := event.value, Point(x, y, points);
        canvas := Put(canvas, mode, if inside then [if e.erase then Sponge(p) else Segment(e.last, p)] else []);
        event := Some(e.(curve := e.curve + [p], last := if inside then p else e.last));
        points := points + 1;
      }
    }

    /** A line with a single point only is not recorded. */
    method StopDrawing(at: real)
      requires Valid()
      modifies this`event, this`storage
      ensures Valid() && View() == Released(old(View()), at) && OthersKept(storage, old(storage), slideIndices)
      ensures old(Timely() && Since(at)) ==> Timely()
    {
      if event.Some? {
        var e := event.value;
        event := None;
        if e.erase || |e.curve| > 1 {
          RecordEvent(if e.erase then Erase(e.begin, at, e.curve) else Draw(e.begin, at, e.curve), at);
        }
      }
    }

    method ClearBoard(at: real)
      requires Valid()
      modifies this`storage, this`canvas
      ensures Valid() && View() == Wiped(old(View()), at) && OthersKept(storage, old(storage), slideIndices)
      ensures old(Timely()) ==> Timely()
    {
      RecordEvent(Clear(at), at);
      canvas := canvas[mode := []];
    }

    method OpenChalkboard(at: real)
      requires Valid() && mode == 0
      modifies this`storage, this`mode
      ensures Valid() && View() == Toggled(old(View()), at) && OthersKept(storage, old(storage), slideIndices)
      ensures old(Timely()) ==> Timely()
    {
      mode := 1;
      RecordEvent(Open(at), at);
    }

    /** What is pending is forgotten. */
    method CloseChalkboard(at: real)
      requires Valid() && mode == 1
      modifies this`storage, this`mode, this`event
      ensures Valid() && View() == Toggled(old(View()), at) && OthersKept(storage, old(storage), slideIndices)
      ensures (old(Timely()) ==> Timely()) && event == None
    {
      event := None;
      RecordEvent(Shut(at), at);
      mode := 0;
    }

    method ToggleChalkboard(at: real)
      requires Valid()
      modifies this`storage, this`mode, this`event
      ensures Valid() && View() == Toggled(old(View()), at) && OthersKept(storage, old(storage), slideIndices)
      ensures old(Timely()) ==> Timely()
      ensures old(Since(at)) ==> Since(at)
    {
      if mode == 1 {
        CloseChalkboard(at);
      } else {
        OpenChalkboard(at);
      }
    }

    /** Closes the chalkboard if it is open; else the notes canvas is put away or taken out again. */
    method ToggleNotesCanvas(at: real)
      requires Valid()
      modifies this`storage, this`mode, this`event, this`notesInUse
      ensures Valid() && OthersKept(storage, old(storage), slideIndices)
      ensures View() == NotesToggled(old(View()), at)
      ensures old(Timely()) ==> Timely()
      ensures old(Since(at)) ==> Since(at)
    {
      if mode == 1 {
        ToggleChalkboard(at);
        notesInUse := true;
      } else if notesInUse {
        event, notesInUse := None, false;
      } else {
        notesInUse := true;
      }
    }

    /** The listeners: each event of pointer and keys does to the sketch what its action says. */
    method Handle(a: Action)
      requires Valid()
      modifies this`storage, this`mode, this`event, this`canvas, this`points, this`notesInUse
      ensures Valid() && View() == Act(old(View()), a) && OthersKept(storage, old(storage), slideIndices)
      ensures old(Timely() && Since(a.at)) ==> Timely() && Since(a.at)
    {
      match a.deed {
        case Press(x, y, erase) => StartDrawing(a.at, x, y, erase);
        case Move(x, y, inside) => DrawSegment(x, y, inside);
        case Hold(own, x, y) => ShowSponge(a.at, own, x, y);
        case Release => StopDrawing(a.at);
        case Wipe => ClearBoard(a.at);
        case Toggle => ToggleChalkboard(a.at);
        case Notes => ToggleNotesCanvas(a.at);
      }
    }

    /** Takes all drawings from the current slide. */
    method ResetSlide()
      requires Valid()
      modifies this`storage, this`mode, this`canvas, this`timeouts, this`event
      ensures Valid() && (old(Timely()) ==> Timely()) && mode == 0 && canvas == [[], []] && timeouts == [[], []]
      ensures event == None
      ensures storage == EmptiedOn(old(storage), slideIndices, legacyFileSupport)
      ensures View().events == [[], []] && OthersKept(storage, old(storage), slideIndices)
      ensures LongestOn(storage, slideIndices) == 0.0
    {
      EmptiedIs(storage, slideIndices, legacyFileSupport);
      timeouts, canvas, event := [[], []], [[], []], None;
      mode := 1;
      EmptySlide();
      mode := 0;
      EmptySlide();
      assert storage == EmptiedOn(old(storage), slideIndices, legacyFileSupport);
    }

    method EmptySlide()
      requires Valid()
      modifies this`storage
      ensures Valid() && (old(Timely()) ==> Timely())
      ensures Place(old(storage)[mode], slideIndices, legacyFileSupport) <
              |Located(old(storage)[mode], slideIndices, legacyFileSupport)|
      ensures storage == old(storage)[mode := Emptied(old(storage)[mode], slideIndices, legacyFileSupport)]
    {
      assert Fine(storage, legacyFileSupport, mode);
      LocatedValid(storage[mode], slideIndices, legacyFileSupport);
      var at := GetSlideData(slideIndices, mode);
      assert Fine(storage, legacyFileSupport, mode) && (Timely() ==> Prompt(storage, mode));
      EmptyValid(storage[mode], at, legacyFileSupport);
      BoardReplaced(storage, legacyFileSupport, mode, storage[mode][at := Entry(slideIndices, [], 0.0)]);
      storage := storage[mode := storage[mode][at := Entry(slideIndices, [], 0.0)]];
    }

    /** The part of startPlayback() that sets timers for the rest. */
    method CueRest(id: nat, events: seq<Event>, n: nat)
      requires |timeouts| == 2 && id < 2 && n <= |events|
      modifies this`timeouts
      ensures timeouts == if playback then old(timeouts)[id := old(timeouts)[id] + Cues(id, events[n..])]
                          else old(timeouts)
    {
      var index := n;
      assert old(timeouts)[id] + [] == old(timeouts)[id];
      while playback && index < |events|
        invariant n <= index <= |events| && (!playback ==> index == n)
        invariant timeouts == old(timeouts)[id := old(timeouts)[id] + Cues(id, events[n..index])]
      {
        ghost var cues, cue := Cues(id, events[n..index]), Cue(id, events[index].begin, events[index]);
        timeouts := timeouts[id := timeouts[id] + [Cue(id, events[index].begin, events[index])]];
        assert Cues(id, events[n..index + 1]) == cues + [cue];
        assert old(timeouts)[id] + cues + [cue] == old(timeouts)[id] + (cues + [cue]);
        index := index + 1;
      }
      assert events[n..|events|] == events[n..];
    }

    /** One board of startPlayback(). */
    method PlayBoard(id: nat, elapsed: real)
      requires Valid() && id < 2
      modifies this`storage, this`canvas, this`mode, this`late, this`timeouts
      ensures Valid() && (old(Timely()) ==> Timely())
      ensures storage == old(storage)[id := Located(old(storage)[id], slideIndices, legacyFileSupport)]
      ensures On(id) == Showing(old(On(id)), id, EventsOn(old(storage)[id], slideIndices), elapsed, playback)
      ensures mode == ModeAfter(Until(EventsOn(old(storage)[id], slideIndices), elapsed), old(mode))
      ensures canvas == old(canvas)[id := canvas[id]] && late == old(late)[id := late[id]]
      ensures timeouts == old(timeouts)[id := timeouts[id]]
    {
      ghost var events := EventsOn(storage[id], slideIndices);
      assert Fine(storage, legacyFileSupport, id);
      EventsAt(storage[id], slideIndices, legacyFileSupport);
      var at := GetSlideData(slideIndices, id);
      assert storage[id][at].events == events;
      var n, shown, later, open := PlayBegun(storage[id][at].events, elapsed, mode);
      canvas, mode := canvas[id := shown], open;
      if playback {
        late := late[id := late[id] + later];
      }
      CueRest(id, storage[id][at].events, n);
      ModeStays(Until(events, elapsed), old(mode));
    }

    /** Plays the current slide up to the given time, by a clock that shows no less. */
    method StartPlayback(timestamp: real, elapsed: real, finalMode: Option<nat>)
      requires Valid() && timestamp <= elapsed && (finalMode.Some? ==> finalMode.value < 2)
      modifies this`storage, this`canvas, this`mode, this`late, this`timeouts, this`event
      ensures Valid() && (old(Timely()) ==> Timely()) && event == None
      ensures storage == LocatedOn(old(storage), slideIndices, legacyFileSupport)
      ensures On(0) == Showing(old(On(0)), 0, old(Events(0)), elapsed, playback)
      ensures On(1) == Showing(old(On(1)), 1, old(Events(1)), elapsed, playback)
      ensures mode == if finalMode.Some? then finalMode.value
                      else ModeAfter(Until(old(Events(1)), elapsed), ModeAfter(Until(old(Events(0)), elapsed), 0))
    {
      event, mode := None, 0;
      PlayBoard(0, elapsed);
      assert storage[1] == old(storage)[1] && On(1) == old(On(1)) && Events(1) == old(Events(1));
      ghost var board := On(0);
      PlayBoard(1, elapsed);
      assert On(0) == board && storage == LocatedOn(old(storage), slideIndices, legacyFileSupport);
      if finalMode.Some? {
        mode := finalMode.value;
      }
    }

    /** Plays the current slide to its end: both boards show all that the replay has of them. */
    method ReplaySlide(delay: real)
      requires Valid() && Timely() && delay >= 0.0
      modifies this`storage, this`canvas, this`mode, this`late, this`timeouts, this`event
      ensures Valid() && Timely() && mode == 0 && event == None
      ensures storage == LocatedOn(old(storage), slideIndices, legacyFileSupport)
      ensures canvas[0] == Replayed(old(Events(0))) && canvas[1] == Replayed(old(Events(1)))
    {
      var timestamp := GetSlideDuration(slideIndices);
      ghost var before0, before1, boards := On(0), On(1), storage;
      assert Prompt(boards, 0) && Prompt(boards, 1);
      StartPlayback(timestamp, timestamp + delay, Some(0));
      SlideShown(On(0), before0, 0, boards[0], slideIndices, timestamp + delay, playback);
      SlideShown(On(1), before1, 1, boards[1], slideIndices, timestamp + delay, playback);
    }

    /** Another slide, or the same again. */
    method ShowSlide(indices: Slide, delay: real)
      requires Valid() && Timely() && delay >= 0.0
      modifies this`slideIndices, this`storage, this`canvas, this`mode, this`late, this`timeouts, this`event
      ensures Valid() && Timely() && mode == 0 && event == None && slideIndices == indices
      ensures forall slide :: SameOn(storage, old(storage), slide)
      ensures canvas == [Replayed(EventsOn(old(storage)[0], indices)), Replayed(EventsOn(old(storage)[1], indices))]
    {
      slideIndices, event, canvas := indices, None, [[], []];
      ShownSame(storage, indices, legacyFileSupport);
      ReplaySlide(delay);
    }

    /**
     Shows a slide again that was left after some run, other slides having been shown or not: each canvas is
     as it was left if and only if the account of its board is even.  From there drawing can go on, unless the
     plugin is read-only.
     */
    method ReturnTo(indices: Slide, delay: real, ghost start: Sketch, ghost t: real, ghost run: seq<Action>)
      requires Valid() && Timely() && delay >= 0.0
      requires Opened(start, t) && InOrder(run, t)
      requires Play(start, run).events == EventsOf(storage, indices) && Play(start, run).points <= points
      modifies this`slideIndices, this`storage, this`canvas, this`mode, this`late, this`timeouts, this`event
      ensures Valid() && Timely() && slideIndices == indices
      ensures forall slide :: SameOn(storage, old(storage), slide)
      ensures forall id :: 0 <= id < 2 ==>
        (canvas[id] == Play(start, run).live[id] <==> AccountOf(start, run, id).Even())
      ensures Opened(View(), LongestOn(old(storage), indices))
    {
      LeftBehind(start, t, run, 0, points);
      LeftBehind(start, t, run, 1, points);
      ShowSlide(indices, delay);
      assert SameOn(storage, old(storage), indices);
      OpenedAgain(View(), old(storage), indices, legacyFileSupport);
    }

    /** Shows a slide to draw on: what one sees is what its events show. */
    method Enter(indices: Slide, delay: real)
      requires Valid() && Timely() && Known() && delay >= 0.0
      modifies this`slideIndices, this`storage, this`canvas, this`mode, this`late, this`timeouts, this`event
      ensures Valid() && Timely() && slideIndices == indices && OthersKept(storage, old(storage), indices)
      ensures View().events == EventsOf(old(storage), indices) && event == None
      ensures Opened(View(), LongestOn(old(storage), indices))
    {
      assert KnownOn(storage, indices, points);
      ShowSlide(indices, delay);
      assert SameOn(storage, old(storage), indices);
      OpenedAgain(View(), old(storage), indices, legacyFileSupport);
    }

    /** All actions of a run, one after the other. */
    method HandleAll(run: seq<Action>, ghost start: Sketch, ghost t: real)
      requires Valid() && Timely() && Since(t) && View() == start && InOrder(run, t)
      modifies this`storage, this`mode, this`event, this`canvas, this`points, this`notesInUse
      ensures Valid() && Timely() && View() == Play(start, run) && OthersKept(storage, old(storage), slideIndices)
    {
      for i := 0 to |run|
        invariant Valid() && Timely() && Since(Clock(run[..i], t))
        invariant View() == Play(start, run[..i]) && OthersKept(storage, old(storage), slideIndices)
      {
        ghost var before := storage;
        assert run[..i + 1][..i] == run[..i] && Clock(run[..i], t) <= run[i].at;
        Handle(run[i]);
        KeptTwice(storage, before, old(storage), slideIndices);
      }
      assert run[..|run|] == run;
    }

    /** A slide is shown, and somebody draws on it; the times of the run are those since it was shown. */
    method Visit(indices: Slide, delay: real, run: seq<Action>) returns (ghost start: Sketch, t: real)
      requires Valid() && Timely() && Known() && delay >= 0.0 && InOrder(run, 0.0)
      modifies this
      ensures Valid() && Timely() && Known() && slideIndices == indices && points >= old(points)
      ensures OthersKept(storage, old(storage), indices)
      ensures Opened(start, t) && start.events == EventsOf(old(storage), indices)
      ensures InOrder(Shifted(run, t), t) && View() == Play(start, Shifted(run, t))
    {
      t := GetSlideDuration(indices);
      Enter(indices, delay);
      start := View();
      ghost var before := storage;
      ShiftedInOrder(run, t);
      HandleAll(Shifted(run, t), start, t);
      PointsGrow(start, Shifted(run, t));
      LeftBehind(start, t, Shifted(run, t), 0, points);
      LeftBehind(start, t, Shifted(run, t), 1, points);
      KeptTwice(storage, before, old(storage), indices);
      KnownAgain(storage, old(storage), indices, old(points), points);
    }

    /**
     Somebody draws on a slide, then on others, and comes back: each canvas is as it was left if and only if the
     account of its board is even.
     */
    method DrawAndReturn(indices: Slide, delay: real, run: seq<Action>, elsewhere: seq<Outing>)
      returns (left: seq<seq<Stroke>>, ghost start: Sketch, t: real)
      requires Valid() && Timely() && Known() && delay >= 0.0 && InOrder(run, 0.0)
      requires forall i :: 0 <= i < |elsewhere| ==> elsewhere[i].slide != indices && InOrder(elsewhere[i].run, 0.0)
      modifies this
      ensures Valid() && Timely() && slideIndices == indices
      ensures Opened(start, t) && start.events == EventsOf(old(storage), indices)
      ensures left == Play(start, Shifted(run, t)).live
      ensures forall id :: 0 <= id < 2 ==> (canvas[id] == left[id] <==> AccountOf(start, Shifted(run, t), id).Even())
    {
      start, t := Visit(indices, delay, run);
      left := canvas;
      ghost var events, n := EventsOf(storage, indices), points;
      for i := 0 to |elsewhere|
        invariant Valid() && Timely() && Known() && points >= n && EventsOf(storage, indices) == events
      {
        ghost var before := storage;
        var _, _ := Visit(elsewhere[i].slide, delay, elsewhere[i].run);
        assert SameOn(storage, before, indices);
      }
      ReturnTo(indices, delay, start, t, Shifted(run, t));
    }
  }

  /** A slide shown and drawn on. */
  datatype Outing = Outing(slide: Slide, run: seq<Action>)

  /** What a board shows, its timers and its waiting strokes. */
  datatype Playing = Playing(canvas: seq<Stroke>, timeouts: seq<Cue>, late: seq<Stroke>)

  /** A board shows what has begun; the rest waits for its time when playback is on. */
  function Showing(before: Playing, id: nat, events: seq<Event>, elapsed: real, playback: bool): Playing
  {
    var n := Begun(events, elapsed);
    if playback then
      Playing(Picture(events[..n], elapsed), before.timeouts + Cues(id, events[n..]),
              before.late + Waiting(events[..n], elapsed))
    else before.(canvas := Picture(events[..n], elapsed))
  }

  /**
   A board that plays shows the picture of the events begun, each other event has one timer at its begin, and with
   playback on the strokes of events begun that are not due wait; without it there are no timers.
   */
  lemma {:induction false} ShowingIs(before: Playing, id: nat, events: seq<Event>, elapsed: real, i: nat)
    requires Begun(events, elapsed) <= i < |events|
    ensures var b := Showing(before, id, events, elapsed, true);
      && |b.timeouts| == |before.timeouts| + |events| - Begun(events, elapsed)
      && b.timeouts[|before.timeouts| + i - Begun(events, elapsed)] == Cue(id, events[i].begin, events[i])
      && before.timeouts <= b.timeouts && before.late <= b.late
    ensures var b := Showing(before, id, events, elapsed, false);
      b.timeouts == before.timeouts && b.late == before.late
  {
  }

  /** The events that have begun. */
  function Until(events: seq<Event>, elapsed: real): seq<Event>
  {
    events[..Begun(events, elapsed)]
  }

  /** All events have begun, and all that the replay ever shows of them is there. */
  ghost predicate Over(events: seq<Event>, elapsed: real)
  {
    && events[..Begun(events, elapsed)] == events
    && Picture(events, elapsed) == Replayed(events)
  }

  function LocatedOn(boards: seq<seq<Entry<Event>>>, slide: Slide, legacy: bool): (r: seq<seq<Entry<Event>>>)
    requires |boards| == 2
    ensures |r| == 2
  {
    [Located(boards[0], slide, legacy), Located(boards[1], slide, legacy)]
  }

  lemma {:induction false} ShownSame(boards: seq<seq<Entry<Event>>>, slide: Slide, legacy: bool)
    requires ValidBoards(boards, legacy)
    ensures forall other :: SameOn(LocatedOn(boards, slide, legacy), boards, other)
  {
    assert Fine(boards, legacy, 0) && Fine(boards, legacy, 1);
    forall other ensures SameOn(LocatedOn(boards, slide, legacy), boards, other) {
      EventsLocated(boards[0], slide, legacy, other);
      EventsLocated(boards[1], slide, legacy, other);
    }
  }

  /** A slide that shows what its events show has all of them behind it. */
  lemma {:induction false} OpenedAgain(s: Sketch, boards: seq<seq<Entry<Event>>>, slide: Slide, legacy: bool)
    requires s.Valid() && s.pending.None? && ValidBoards(boards, legacy) && TimelyBoards(boards)
    requires s.events == EventsOf(boards, slide)
    requires forall id :: 0 <= id < 2 ==> s.live[id] == Replayed(s.events[id]) && Within(s.live[id], 0, s.points)
    ensures Opened(s, LongestOn(boards, slide))
  {
    forall id | 0 <= id < 2 ensures Timed(s.events[id], false, None, LongestOn(boards, slide)) {
      assert Fine(boards, legacy, id) && Prompt(boards, id);
      SlideInTime(boards[id], slide);
      SlideSorted(boards[id], slide, legacy);
    }
  }

  lemma {:induction false} SlideSorted(data: seq<Entry<Event>>, slide: Slide, legacy: bool)
    requires ValidBoard(data, legacy)
    ensures Sorted(EventsOn(data, slide))
  {
    EventsAt(data, slide, legacy);
    LocatedValid(data, slide, legacy);
  }

  /** What a run leaves on a board: the replay shows the canvas exactly when the account is even. */
  lemma {:induction false} LeftBehind(start: Sketch, t: real, run: seq<Action>, id: nat, points: nat)
    requires Opened(start, t) && InOrder(run, t) && id < 2 && Play(start, run).points <= points
    ensures var u := Play(start, run);
      && (Replayed(u.events[id]) == u.live[id] <==> AccountOf(start, run, id).Even())
      && Within(Replayed(u.events[id]), 0, points)
  {
    var u := Play(start, run);
    RunSide(start, t, run, id);
    BoardEven(u.live[id], Replayed(u.events[id]), AccountOf(start, run, id), u.pending, u.points);
  }

  lemma {:induction false} SlideOver(data: seq<Entry<Event>>, slide: Slide, elapsed: real)
    requires TimelyBoard(data) && DurationOn(data, slide) <= elapsed
    ensures Over(EventsOn(data, slide), elapsed)
  {
    SlideInTime(data, slide);
    AllOver(EventsOn(data, slide), DurationOn(data, slide), elapsed);
  }

  lemma {:induction false} SlideShown(board: Playing, before: Playing, id: nat, data: seq<Entry<Event>>, slide: Slide,
          elapsed: real, playback: bool)
    requires board == Showing(before, id, EventsOn(data, slide), elapsed, playback)
    requires TimelyBoard(data) && DurationOn(data, slide) <= elapsed
    ensures board.canvas == Replayed(EventsOn(data, slide))
  {
    SlideOver(data, slide, elapsed);
  }

  lemma {:induction false} AllOver(events: seq<Event>, duration: real, elapsed: real)
    requires InTime(events, duration) && duration <= elapsed
    ensures Over(events, elapsed)
  {
    BegunIs(events, elapsed, |events|);
    assert InTime(events, elapsed);
    PictureOver(events, elapsed);
  }
}
