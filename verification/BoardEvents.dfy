/**
 The events of a drawing board in time: recording them in order, and playing them again.  Times are those
 since the slide was shown.
 */
module BoardEvents {
  /**
   A point of a curve.  Which event of a pointer or timer it comes from is no part of the code's points; here it keeps
   strokes apart that look alike.
   */
  datatype Point = Point(x: real, y: real, nth: nat)

  datatype Event =
    | Open(begin: real)
    | Shut(begin: real)
    | Clear(begin: real)
    | Draw(begin: real, end: real, curve: seq<Point>)
    | Erase(begin: real, end: real, curve: seq<Point>)

  datatype Stroke = Segment(from: Point, to: Point) | Sponge(at: Point)

  // ---- events in time ----

  function Finish(e: Event): real
  {
    if e.Draw? || e.Erase? then e.end else e.begin
  }

  predicate NoLater(events: seq<Event>, i: nat, j: nat)
    requires i < |events| && j < |events|
  {
    events[i].begin <= events[j].begin
  }

  ghost predicate Sorted(events: seq<Event>)
  {
    forall i: nat, j: nat {:trigger NoLater(events, i, j)} :: i < j < |events| ==> NoLater(events, i, j)
  }

  /** Every event of the entry is over before its duration. */
  ghost predicate InTime(events: seq<Event>, duration: real)
  {
    forall i :: 0 <= i < |events| ==> events[i].begin <= Finish(events[i]) < duration
  }

  /** Where a new event goes: after all that begin no later. */
  function Slot(events: seq<Event>, e: Event): (i: nat)
    ensures i <= |events|
    ensures forall j :: i <= j < |events| ==> e.begin < events[j].begin
    ensures i > 0 ==> events[i - 1].begin <= e.begin
  {
    if events == [] || events[|events| - 1].begin <= e.begin then |events| else Slot(events[..|events| - 1], e)
  }

  function Recorded(events: seq<Event>, e: Event): seq<Event>
  {
    events[..Slot(events, e)] + [e] + events[Slot(events, e)..]
  }

  /** A sorted list stays sorted whatever the new event, which follows those that began with it. */
  lemma {:induction false} RecordedSorted(events: seq<Event>, e: Event)
    requires Sorted(events)
    ensures Sorted(Recorded(events, e))
    ensures forall j :: 0 <= j < Slot(events, e) ==> events[j].begin <= e.begin
  {
    var i, r := Slot(events, e), Recorded(events, e);
    forall j | 0 <= j < i ensures events[j].begin <= e.begin {
      assert j < i - 1 ==> NoLater(events, j, i - 1);
    }
    forall j: nat, k: nat | j < k < |r| ensures NoLater(r, j, k) {
      assert j != i && k != i ==> NoLater(events, if j < i then j else j - 1, if k < i then k else k - 1);
      assert r[j] == if j < i then events[j] else if j == i then e else events[j - 1];
      assert r[k] == if k < i then events[k] else if k == i then e else events[k - 1];
    }
  }

  /** Recording adds that event and loses none. */
  lemma {:induction false} RecordedKeeps(events: seq<Event>, e: Event)
    ensures multiset(Recorded(events, e)) == multiset(events) + multiset{e}
  {
    var i := Slot(events, e);
    assert events == events[..i] + events[i..];
  }

  lemma {:induction false} RecordedInTime(events: seq<Event>, duration: real, e: Event, duration': real)
    requires InTime(events, duration) && duration <= duration' && e.begin <= Finish(e) < duration'
    ensures InTime(Recorded(events, e), duration')
  {
    var i, r := Slot(events, e), Recorded(events, e);
    forall j | 0 <= j < |r| ensures r[j].begin <= Finish(r[j]) < duration' {
      assert r[j] == if j < i then events[j] else if j == i then e else events[j - 1];
    }
  }

  // ---- the strokes of an event ----

  /** How many strokes a curve has: one less than points when drawn, one a point when erased. */
  function StrokeCount(e: Event): nat
  {
    match e
    case Draw(_, _, curve) => if |curve| == 0 then 0 else |curve| - 1
    case Erase(_, _, curve) => |curve|
    case _ => 0
  }

  function StrokeAt(e: Event, i: nat): Stroke
    requires i < StrokeCount(e)
  {
    if e.Draw? then Segment(e.curve[i], e.curve[i + 1]) else Sponge(e.curve[i])
  }

  /** When a stroke is due: a drawn segment when its end is reached, a sponge dab when it starts. */
  function DueAt(e: Event, i: nat): real
    requires i < StrokeCount(e)
  {
    var n := StrokeCount(e) as real;
    var step := (e.end - e.begin) / n;
    e.begin + (if e.Draw? then i + 1 else i) as real * step
  }

  lemma {:induction false} PartOf(i: nat, j: nat, n: nat, d: real)
    requires i <= j <= n && n > 0 && d >= 0.0
    ensures 0.0 <= (i as real) * (d / n as real) <= (j as real) * (d / n as real) <= d
  {
    var step := d / n as real;
    assert step >= 0.0 && (n as real) * step == d;
    Scaled(i as real, j as real, step);
    Scaled(j as real, n as real, step);
    Scaled(0.0, i as real, step);
  }

  lemma {:induction false} Scaled(a: real, b: real, x: real)
    requires a <= b && x >= 0.0
    ensures a * x <= b * x
  {
    assert (b - a) * x >= 0.0;
  }

  /** Strokes are due one after the other, and none after the event's end. */
  lemma {:induction false} DueInOrder(e: Event, i: nat, j: nat)
    requires e.begin <= Finish(e) && i <= j < StrokeCount(e)
    ensures e.begin <= DueAt(e, i) <= DueAt(e, j) <= Finish(e)
  {
    var n, d := StrokeCount(e), e.end - e.begin;
    if e.Draw? {
      PartOf(i + 1, j + 1, n, d);
    } else {
      PartOf(i, j, n, d);
    }
  }

  /**
   The share of the time that has passed is enough for the stroke at i: for a segment the share that its end makes
   up, for a dab of the sponge the share that its start does.
   */
  predicate TimeFor(e: Event, i: nat, elapsed: real)
  {
    StrokeCount(e) as real * (elapsed - e.begin) >= (if e.Draw? then i + 1 else i) as real * (Finish(e) - e.begin)
  }

  lemma {:induction false} DueIff(e: Event, i: nat, elapsed: real)
    requires i < StrokeCount(e)
    ensures DueAt(e, i) <= elapsed <==> TimeFor(e, i, elapsed)
  {
    var n, k := StrokeCount(e), if e.Draw? then i + 1 else i;
    Crossed(k as real, e.end - e.begin, n as real, elapsed - e.begin);
  }

  lemma {:induction false} Crossed(k: real, d: real, n: real, x: real)
    requires n > 0.0
    ensures k * (d / n) <= x <==> n * x >= k * d
  {
    var step := d / n;
    assert step * n == d;
    assert k * d == n * (k * step);
    Times(n, x, k * step);
  }

  lemma {:induction false} Times(n: real, x: real, y: real)
    requires n > 0.0
    ensures y <= x <==> n * y <= n * x
  {
    if y <= x {
      Scaled(y, x, n);
    } else {
      assert n * (y - x) > 0.0;
    }
  }

  /** The last segment is due when the curve ends, and the first when the first of equal parts of its time is over. */
  lemma {:induction false} SegmentsDue(e: Event, i: nat)
    requires e.Draw? && e.begin <= e.end && i < StrokeCount(e)
    ensures DueAt(e, StrokeCount(e) - 1) == e.end
    ensures DueAt(e, i) >= DueAt(e, 0) == e.begin + (e.end - e.begin) / StrokeCount(e) as real
  {
    DueInOrder(e, 0, i);
  }

  function Strokes(e: Event): (s: seq<Stroke>)
    ensures |s| == StrokeCount(e)
  {
    seq(StrokeCount(e), i requires 0 <= i < StrokeCount(e) => StrokeAt(e, i))
  }

  /** Of the first i strokes, those that are due, or those not due yet. */
  function DueUpTo(e: Event, i: nat, elapsed: real, due: bool): seq<Stroke>
    requires i <= StrokeCount(e)
  {
    if i == 0 then []
    else DueUpTo(e, i - 1, elapsed, due) + (if (DueAt(e, i - 1) <= elapsed) == due then [StrokeAt(e, i - 1)] else [])
  }

  /** drawCurve() and eraseCurve() both want two points. */
  function Played(e: Event, elapsed: real, due: bool): seq<Stroke>
  {
    if StrokeCount(e) > 0 && |e.curve| > 1 then DueUpTo(e, StrokeCount(e), elapsed, due) else []
  }

  /** A sponge that touched the board in a single point is recorded, but not played. */
  predicate Dab(e: Event)
  {
    e.Erase? && |e.curve| == 1
  }

  lemma {:induction false} DueSplits(e: Event, i: nat, elapsed: real)
    requires e.begin <= Finish(e) && i <= StrokeCount(e)
    ensures DueUpTo(e, i, elapsed, true) + DueUpTo(e, i, elapsed, false) == Strokes(e)[..i]
    ensures Finish(e) <= elapsed || (i > 0 && DueAt(e, i - 1) <= elapsed) ==> DueUpTo(e, i, elapsed, false) == []
  {
    if i > 0 {
      DueSplits(e, i - 1, elapsed);
      DueInOrder(e, i - 1, i - 1);
      if i > 1 {
        DueInOrder(e, i - 2, i - 1);
      }
      assert Strokes(e)[..i] == Strokes(e)[..i - 1] + [StrokeAt(e, i - 1)];
    }
  }

  /** The first m strokes, and no others, have had their time. */
  ghost predicate PlayedTo(e: Event, elapsed: real, m: nat)
  {
    m <= StrokeCount(e) && forall i: nat {:trigger TimeFor(e, i, elapsed)} :: i < StrokeCount(e) ==>
      (i < m <==> TimeFor(e, i, elapsed))
  }

  /** Strokes that have been played and strokes that wait. */
  ghost predicate SplitAt(e: Event, elapsed: real, drawn: seq<Stroke>, later: seq<Stroke>)
    requires e.Draw? || e.Erase?
  {
    if |e.curve| <= 1 then drawn == later == []
    else exists m: nat :: PlayedTo(e, elapsed, m) && drawn == Strokes(e)[..m] && later == Strokes(e)[m..]
  }

  /** Playing a curve draws the strokes that have had their time, and the others wait. */
  lemma {:induction false} PlayedExactly(e: Event, elapsed: real)
    requires (e.Draw? || e.Erase?) && e.begin <= e.end
    ensures SplitAt(e, elapsed, Played(e, elapsed, true), Played(e, elapsed, false))
  {
    if |e.curve| > 1 {
      var n := StrokeCount(e);
      var m := DueCount(e, n, elapsed);
      forall i: nat | i < n ensures i < m <==> IsDue(e, i, elapsed) {
        DueCountIs(e, n, elapsed, i);
      }
      FirstDue(e, n, m, elapsed);
      assert Strokes(e)[m..n] == Strokes(e)[m..];
      forall i: nat | i < n ensures i < m <==> TimeFor(e, i, elapsed) {
        assert i < m <==> IsDue(e, i, elapsed);
        DueIff(e, i, elapsed);
      }
      assert PlayedTo(e, elapsed, m);
    }
  }

  predicate IsDue(e: Event, i: nat, elapsed: real)
    requires i < StrokeCount(e)
  {
    DueAt(e, i) <= elapsed
  }

  function DueCount(e: Event, n: nat, elapsed: real): (m: nat)
    requires n <= StrokeCount(e)
    ensures m <= n
  {
    if n == 0 then 0 else if IsDue(e, n - 1, elapsed) then n else DueCount(e, n - 1, elapsed)
  }

  lemma {:induction false} DueCountIs(e: Event, n: nat, elapsed: real, i: nat)
    requires e.begin <= Finish(e) && i < n <= StrokeCount(e)
    ensures i < DueCount(e, n, elapsed) <==> IsDue(e, i, elapsed)
  {
    if IsDue(e, n - 1, elapsed) {
      DueInOrder(e, i, n - 1);
    } else if i < n - 1 {
      DueCountIs(e, n - 1, elapsed, i);
    }
  }

  /** When exactly the first m strokes are due, those are the ones played. */
  lemma {:induction false} FirstDue(e: Event, n: nat, m: nat, elapsed: real)
    requires m <= n <= StrokeCount(e) && forall i: nat :: i < n ==> (i < m <==> IsDue(e, i, elapsed))
    ensures DueUpTo(e, n, elapsed, true) == Strokes(e)[..m]
    ensures DueUpTo(e, n, elapsed, false) == Strokes(e)[m..n]
  {
    if n == m {
      AllDue(e, n, elapsed);
    } else {
      FirstDue(e, n - 1, m, elapsed);
      assert !IsDue(e, n - 1, elapsed);
      assert Strokes(e)[m..n] == Strokes(e)[m..n - 1] + [StrokeAt(e, n - 1)];
    }
  }

  lemma {:induction false} AllDue(e: Event, n: nat, elapsed: real)
    requires n <= StrokeCount(e) && forall i: nat :: i < n ==> IsDue(e, i, elapsed)
    ensures DueUpTo(e, n, elapsed, true) == Strokes(e)[..n] && DueUpTo(e, n, elapsed, false) == []
  {
    if n > 0 {
      AllDue(e, n - 1, elapsed);
      assert IsDue(e, n - 1, elapsed);
      assert Strokes(e)[..n] == Strokes(e)[..n - 1] + [StrokeAt(e, n - 1)];
    }
  }

  /** An event plays its first strokes at once and the others later; when it is over, all at once. */
  lemma {:induction false} PlayedSplits(e: Event, elapsed: real)
    requires e.begin <= Finish(e) && !Dab(e)
    ensures Played(e, elapsed, true) + Played(e, elapsed, false) == Strokes(e)
    ensures Finish(e) <= elapsed ==> Played(e, elapsed, true) == Strokes(e)
  {
    DueSplits(e, StrokeCount(e), elapsed);
    assert Strokes(e)[..StrokeCount(e)] == Strokes(e);
  }

  // ---- the picture ----

  /** What is on a canvas when the events are played at the given time, begun with nothing on it. */
  function Picture(events: seq<Event>, elapsed: real): seq<Stroke>
  {
    if events == [] then []
    else
      var e, before := events[|events| - 1], Picture(events[..|events| - 1], elapsed);
      if e.Clear? then [] else before + Played(e, elapsed, true)
  }

  /** A picture is continued by events that are no clear. */
  lemma {:induction false} PictureConcat(a: seq<Event>, b: seq<Event>, elapsed: real)
    requires forall i :: 0 <= i < |b| ==> !b[i].Clear?
    ensures Picture(a + b, elapsed) == Picture(a, elapsed) + Picture(b, elapsed)
    decreases |b|
  {
    if b == [] {
      assert a + b == a;
    } else {
      var n := |b| - 1;
      assert (a + b)[..|a + b| - 1] == a + b[..n];
      PictureConcat(a, b[..n], elapsed);
    }
  }

  /** It is begun anew by a clear. */
  lemma {:induction false} PictureAnew(a: seq<Event>, b: seq<Event>, elapsed: real)
    requires b != [] && b[0].Clear?
    ensures Picture(a + b, elapsed) == Picture(b, elapsed)
    decreases |b|
  {
    var n := |b| - 1;
    assert (a + b)[..|a + b| - 1] == a + b[..n];
    if n > 0 {
      PictureAnew(a, b[..n], elapsed);
    }
  }

  /** A single event shows its strokes that are due. */
  lemma {:induction false} PictureOne(e: Event, elapsed: real)
    ensures Picture([e], elapsed) == if e.Clear? then [] else Played(e, elapsed, true)
    ensures Waiting([e], elapsed) == Played(e, elapsed, false)
  {
    assert [e][..0] == [];
  }

  lemma {:induction false} WaitingConcat(a: seq<Event>, b: seq<Event>, elapsed: real)
    ensures Waiting(a + b, elapsed) == Waiting(a, elapsed) + Waiting(b, elapsed)
    decreases |b|
  {
    if b == [] {
      assert a + b == a;
    } else {
      assert (a + b)[..|a + b| - 1] == a + b[..|b| - 1];
      WaitingConcat(a, b[..|b| - 1], elapsed);
    }
  }

  /** What the replay shows of an event that is over: all strokes, but nothing of a single dab. */
  function Shown(e: Event): seq<Stroke>
  {
    if Dab(e) then [] else Strokes(e)
  }

  /** What the replay shows of events that are all over, in the order of the list. */
  function Replayed(events: seq<Event>): seq<Stroke>
  {
    if events == [] then []
    else
      var e, before := events[|events| - 1], Replayed(events[..|events| - 1]);
      if e.Clear? then [] else before + Shown(e)
  }

  lemma {:induction false} PictureOver(events: seq<Event>, elapsed: real)
    requires InTime(events, elapsed)
    ensures Picture(events, elapsed) == Replayed(events)
  {
    if events != [] {
      var e := events[|events| - 1];
      PictureOver(events[..|events| - 1], elapsed);
      if !Dab(e) {
        PlayedSplits(e, elapsed);
      }
    }
  }

  /** All strokes recorded since the last clear in the list, single dabs too. */
  function Listed(events: seq<Event>): seq<Stroke>
  {
    if events == [] then []
    else
      var e, before := events[|events| - 1], Listed(events[..|events| - 1]);
      if e.Clear? then [] else before + Strokes(e)
  }

  /** A single dab of the sponge after the last clear. */
  predicate DabLeft(events: seq<Event>)
  {
    events != [] && !events[|events| - 1].Clear? && (Dab(events[|events| - 1]) || DabLeft(events[..|events| - 1]))
  }

  /** Of the recorded list, replay shows every stroke when all is over, exactly when no single dab counts. */
  lemma {:induction false} PictureComplete(events: seq<Event>, elapsed: real)
    requires InTime(events, elapsed)
    ensures Picture(events, elapsed) == Listed(events) <==> !DabLeft(events)
    ensures |Picture(events, elapsed)| <= |Listed(events)|
    ensures DabLeft(events) ==> |Picture(events, elapsed)| < |Listed(events)|
  {
    if events != [] {
      var e, before := events[|events| - 1], events[..|events| - 1];
      PictureComplete(before, elapsed);
      if !Dab(e) {
        PlayedSplits(e, elapsed);
      }
    }
  }

  /** Which of the boards is open after the events. */
  function ModeAfter(events: seq<Event>, mode: nat): nat
  {
    if events == [] then mode
    else
      match events[|events| - 1]
      case Open(_) => 1
      case Shut(_) => 0
      case _ => ModeAfter(events[..|events| - 1], mode)
  }

  predicate Opens(e: Event)
  {
    e.Open? || e.Shut?
  }

  /** The last event that opens or closes the chalkboard counts, and other events do not. */
  lemma {:induction false} ModeLast(a: seq<Event>, b: seq<Event>, mode: nat)
    requires forall i :: 0 <= i < |b| ==> !Opens(b[i])
    ensures ModeAfter(b, mode) == mode && ModeAfter(a + b, mode) == ModeAfter(a, mode)
    ensures a != [] && a[|a| - 1].Open? ==> ModeAfter(a + b, mode) == 1
    ensures a != [] && a[|a| - 1].Shut? ==> ModeAfter(a + b, mode) == 0
    decreases |b|
  {
    if b == [] {
      assert a + b == a;
    } else {
      assert (a + b)[..|a + b| - 1] == a + b[..|b| - 1];
      ModeLast(a, b[..|b| - 1], mode);
    }
  }

  /** How many events have begun. */
  function Begun(events: seq<Event>, elapsed: real): (n: nat)
    ensures n <= |events|
    ensures forall i :: 0 <= i < n ==> events[i].begin < elapsed
    ensures n < |events| ==> events[n].begin >= elapsed
  {
    if events == [] || events[0].begin >= elapsed then 0 else 1 + Begun(events[1..], elapsed)
  }

  lemma {:induction false} BegunIs(events: seq<Event>, elapsed: real, n: nat)
    requires n <= |events| && forall i :: 0 <= i < n ==> events[i].begin < elapsed
    requires n < |events| ==> events[n].begin >= elapsed
    ensures Begun(events, elapsed) == n
  {
    if n > 0 {
      BegunIs(events[1..], elapsed, n - 1);
    }
  }

  /** What remains to be played on a board, in the order of its timers. */
  datatype Cue = Cue(id: nat, due: real, event: Event)

  function Cues(id: nat, events: seq<Event>): (cues: seq<Cue>)
    ensures |cues| == |events|
  {
    seq(|events|, i requires 0 <= i < |events| => Cue(id, events[i].begin, events[i]))
  }

  /** Strokes of begun events that wait for their time. */
  function Waiting(events: seq<Event>, elapsed: real): seq<Stroke>
  {
    if events == [] then []
    else Waiting(events[..|events| - 1], elapsed) + Played(events[|events| - 1], elapsed, false)
  }

  lemma {:induction false} ModeStays(events: seq<Event>, mode: nat)
    requires mode < 2
    ensures ModeAfter(events, mode) < 2
  {
    if events != [] {
      ModeStays(events[..|events| - 1], mode);
    }
  }

  // ---- recording ----

  method InsertEvent(events: seq<Event>, event: Event) returns (recorded: seq<Event>)
    ensures recorded == Recorded(events, event)
  {
    var i := |events|;
    assert events[..i] == events;
    while i > 0 && event.begin < events[i - 1].begin
      invariant 0 <= i <= |events| && Slot(events, event) == Slot(events[..i], event)
    {
      i := i - 1;
      assert events[..i + 1][..i] == events[..i];
    }
    recorded := events[..i] + [event] + events[i..];
  }

  // ---- playing ----

  /** Segments that are due are drawn, the others wait. */
  method DrawCurve(e: Event, elapsed: real) returns (drawn: seq<Stroke>, later: seq<Stroke>)
    requires e.Draw?
    ensures drawn == Played(e, elapsed, true) && later == Played(e, elapsed, false)
    ensures e.begin <= e.end ==> SplitAt(e, elapsed, drawn, later)
  {
    drawn, later := SegmentsOf(e, elapsed);
    if e.begin <= e.end {
      PlayedExactly(e, elapsed);
    }
  }

  method SegmentsOf(e: Event, elapsed: real) returns (drawn: seq<Stroke>, later: seq<Stroke>)
    requires e.Draw?
    ensures drawn == Played(e, elapsed, true) && later == Played(e, elapsed, false)
  {
    drawn, later := [], [];
    if |e.curve| > 1 {
      var stepDuration := (e.end - e.begin) / (|e.curve| - 1) as real;
      for i := 1 to |e.curve|
        invariant drawn == DueUpTo(e, i - 1, elapsed, true) && later == DueUpTo(e, i - 1, elapsed, false)
      {
        if e.begin + i as real * stepDuration <= elapsed {
          drawn := drawn + [Segment(e.curve[i - 1], e.curve[i])];
        } else {
          later := later + [Segment(e.curve[i - 1], e.curve[i])];
        }
      }
    }
  }

  method EraseCurve(e: Event, elapsed: real) returns (drawn: seq<Stroke>, later: seq<Stroke>)
    requires e.Erase?
    ensures drawn == Played(e, elapsed, true) && later == Played(e, elapsed, false)
    ensures e.begin <= e.end ==> SplitAt(e, elapsed, drawn, later)
  {
    drawn, later := DabsOf(e, elapsed);
    if e.begin <= e.end {
      PlayedExactly(e, elapsed);
    }
  }

  method DabsOf(e: Event, elapsed: real) returns (drawn: seq<Stroke>, later: seq<Stroke>)
    requires e.Erase?
    ensures drawn == Played(e, elapsed, true) && later == Played(e, elapsed, false)
  {
    drawn, later := [], [];
    if |e.curve| > 1 {
      var stepDuration := (e.end - e.begin) / |e.curve| as real;
      for i := 0 to |e.curve|
        invariant drawn == DueUpTo(e, i, elapsed, true) && later == DueUpTo(e, i, elapsed, false)
      {
        if e.begin + i as real * stepDuration <= elapsed {
          drawn := drawn + [Sponge(e.curve[i])];
        } else {
          later := later + [Sponge(e.curve[i])];
        }
      }
    }
  }

  /** playEvent(): what is on the canvas, which board is open, and the strokes that wait. */
  method PlayEvent(event: Event, elapsed: real, canvas: seq<Stroke>, mode: nat)
    returns (shown: seq<Stroke>, later: seq<Stroke>, open: nat)
    ensures shown == if event.Clear? then [] else canvas + Played(event, elapsed, true)
    ensures later == Played(event, elapsed, false)
    ensures open == match event case Open(_) => 1 case Shut(_) => 0 case _ => mode
  {
    shown, later, open := canvas, [], mode;
    var drawn := [];
    match event {
      case Open(_) => open := 1;
      case Shut(_) => open := 0;
      case Clear(_) => shown := [];
      case Draw(_, _, _) => drawn, later := DrawCurve(event, elapsed);
      case Erase(_, _, _) => drawn, later := EraseCurve(event, elapsed);
    }
    shown := shown + drawn;
  }

  lemma {:induction false} PlayedNext(events: seq<Event>, n: nat, elapsed: real, mode: nat)
    requires n < |events|
    ensures Picture(events[..n + 1], elapsed) ==
            if events[n].Clear? then [] else Picture(events[..n], elapsed) + Played(events[n], elapsed, true)
    ensures Waiting(events[..n + 1], elapsed) == Waiting(events[..n], elapsed) + Played(events[n], elapsed, false)
    ensures ModeAfter(events[..n + 1], mode) ==
            match events[n] case Open(_) => 1 case Shut(_) => 0 case _ => ModeAfter(events[..n], mode)
  {
    assert events[..n + 1][..n] == events[..n];
  }

  /** The first loop of startPlayback(): what has begun is played on a cleared canvas. */
  method PlayBegun(events: seq<Event>, elapsed: real, mode: nat)
    returns (n: nat, shown: seq<Stroke>, later: seq<Stroke>, open: nat)
    ensures n == Begun(events, elapsed) && open == ModeAfter(events[..n], mode)
    ensures shown == Picture(events[..n], elapsed) && later == Waiting(events[..n], elapsed)
  {
    n, shown, later, open := PlayFirst(events, elapsed, mode);
    BegunIs(events, elapsed, n);
  }

  method PlayFirst(events: seq<Event>, elapsed: real, mode: nat)
    returns (n: nat, shown: seq<Stroke>, later: seq<Stroke>, open: nat)
    ensures n <= |events| && (n < |events| ==> events[n].begin >= elapsed)
    ensures forall j :: 0 <= j < n ==> events[j].begin < elapsed
    ensures shown == Picture(events[..n], elapsed) && later == Waiting(events[..n], elapsed)
    ensures open == ModeAfter(events[..n], mode)
  {
    n, shown, later, open := 0, [], [], mode;
    assert events[..0] == [];
    while n < |events| && events[n].begin < elapsed
      invariant n <= |events| && forall j :: 0 <= j < n ==> events[j].begin < elapsed
      invariant shown == Picture(events[..n], elapsed) && later == Waiting(events[..n], elapsed)
      invariant open == ModeAfter(events[..n], mode)
    {
      var waits;
      PlayedNext(events, n, elapsed, mode);
      shown, waits, open := PlayEvent(events[n], elapsed, shown, open);
      later, n := later + waits, n + 1;
    }
  }
}
