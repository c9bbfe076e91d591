/**
 Drawing on the boards: what pen, sponge and keys do to the canvases that one sees and to the events that
 are recorded, and when the replay shows what was drawn.
 */
module Drawings {
  import opened Options
  import opened BoardEvents

  // ---- the user interface ----

  /** The event that is not recorded yet, and where the pen was last within the canvas. */
  datatype Pending = Pending(erase: bool, begin: real, curve: seq<Point>, last: Point)

  /**
   Both boards of a slide: the one that is open, what one sees, what is recorded, the pointer events so far, and
   whether the notes canvas is in use.
   */
  datatype Sketch = Sketch(
    mode: nat,
    pending: Option<Pending>,
    live: seq<seq<Stroke>>,
    events: seq<seq<Event>>,
    points: nat,
    notes: bool)
  {
    ghost predicate Valid()
    {
      mode < 2 && |live| == |events| == 2 && (pending.Some? ==> pending.value.curve != [])
    }
  }

  datatype Deed =
    | Press(x: real, y: real, erase: bool)   // a button goes down, or a finger
    | Move(x: real, y: real, inside: bool)   // within the canvas or not
    | Hold(own: bool, x: real, y: real)      // the timer of a finger: the one of this event, or another left running
    | Release
    | Wipe                                   // clear()
    | Toggle                                 // toggleChalkboard()
    | Notes                                  // toggleNotesCanvas()

  datatype Action = Action(at: real, deed: Deed)

  function Put<A>(boards: seq<seq<A>>, id: nat, more: seq<A>): (r: seq<seq<A>>)
    requires id < |boards|
    ensures |r| == |boards|
  {
    boards[id := boards[id] + more]
  }

  function Record(events: seq<seq<Event>>, id: nat, e: Event): (r: seq<seq<Event>>)
    requires id < |events|
    ensures |r| == |events|
  {
    events[id := Recorded(events[id], e)]
  }

  /** startDrawing(): a sponge leaves its first dab; an event that was pending is forgotten. */
  function Pressed(s: Sketch, at: real, x: real, y: real, erase: bool): Sketch
    requires s.Valid()
  {
    var p := Point(x, y, s.points);
    s.(pending := Some(Pending(erase, at, [p], p)),
       live := Put(s.live, s.mode, if erase then [Sponge(p)] else []),
       points := s.points + 1)
  }

  function Grown(e: Pending, p: Point, inside: bool): Pending
  {
    e.(curve := e.curve + [p], last := if inside then p else e.last)
  }

  function StrokeTo(e: Pending, p: Point): Stroke
  {
    if e.erase then Sponge(p) else Segment(e.last, p)
  }

  /** drawSegment(): the point joins the curve, but only within the canvas is it drawn. */
  function Dragged(s: Sketch, x: real, y: real, inside: bool): Sketch
    requires s.Valid()
  {
    if s.pending.None? then s
    else
      var e, p := s.pending.value, Point(x, y, s.points);
      s.(pending := Some(Grown(e, p, inside)),
         live := Put(s.live, s.mode, if inside then [StrokeTo(e, p)] else []),
         points := s.points + 1)
  }

  /** Where the sponge of a timer goes: where its finger came down. */
  function HeldAt(s: Sketch, own: bool, x: real, y: real): Point
    requires s.Valid() && s.pending.Some?
  {
    if own then s.pending.value.curve[0] else Point(x, y, s.points)
  }

  /** showSponge(): whatever is pending is a sponge from now on, and begins now. */
  function Held(s: Sketch, at: real, own: bool, x: real, y: real): Sketch
    requires s.Valid()
  {
    if s.pending.None? then s
    else
      s.(pending := Some(s.pending.value.(erase := true, begin := at)),
         live := Put(s.live, s.mode, [Sponge(HeldAt(s, own, x, y))]),
         points := if own then s.points else s.points + 1)
  }

  function Ended(e: Pending, at: real): Event
  {
    if e.erase then Erase(e.begin, at, e.curve) else Draw(e.begin, at, e.curve)
  }

  /** stopDrawing(): the event is recorded on the board that is open now, unless it is a line of one point. */
  function Released(s: Sketch, at: real): Sketch
    requires s.Valid()
  {
    if s.pending.None? then s
    else
      var e := s.pending.value;
      s.(pending := None,
         events := if e.erase || |e.curve| > 1 then Record(s.events, s.mode, Ended(e, at)) else s.events)
  }

  /** clear(): the canvas is empty, and a pending event goes on. */
  function Wiped(s: Sketch, at: real): Sketch
    requires s.Valid()
  {
    s.(live := s.live[s.mode := []], events := Record(s.events, s.mode, Clear(at)))
  }

  /** toggleChalkboard(): closing forgets a pending event, opening does not; the chalkboard records both. */
  function Toggled(s: Sketch, at: real): Sketch
    requires s.Valid()
  {
    if s.mode == 1 then s.(mode := 0, pending := None, events := Record(s.events, 1, Shut(at)))
    else s.(mode := 1, events := Record(s.events, 1, Open(at)))
  }

  /** Opening is recorded as opening and closing as closing, on the chalkboard's own list, at its time. */
  lemma {:induction false} ToggledIs(s: Sketch, at: real)
    requires s.Valid()
    ensures var t := Toggled(s, at);
      && t.mode == 1 - s.mode && t.live == s.live && t.events[0] == s.events[0]
      && t.events[1] == Recorded(s.events[1], if s.mode == 0 then Open(at) else Shut(at))
      && t.pending == if s.mode == 0 then s.pending else None
  {
  }

  /** toggleNotesCanvas(): an open chalkboard is closed, else the canvas is put away or taken out again. */
  function NotesToggled(s: Sketch, at: real): Sketch
    requires s.Valid()
  {
    if s.mode == 1 then Toggled(s, at).(notes := true)
    else if s.notes then s.(pending := None, notes := false)
    else s.(notes := true)
  }

  function Act(s: Sketch, a: Action): (t: Sketch)
    requires s.Valid()
    ensures t.Valid()
  {
    match a.deed
    case Press(x, y, erase) => Pressed(s, a.at, x, y, erase)
    case Move(x, y, inside) => Dragged(s, x, y, inside)
    case Hold(own, x, y) => Held(s, a.at, own, x, y)
    case Release => Released(s, a.at)
    case Wipe => Wiped(s, a.at)
    case Toggle => Toggled(s, a.at)
    case Notes => NotesToggled(s, a.at)
  }

  /** What one sees of each board after each action. */
  lemma {:induction false} CanvasAfter(s: Sketch, a: Action, id: nat)
    requires s.Valid() && id < 2
    ensures var before, after := s.live[id], Act(s, a).live[id];
      if id != s.mode then after == before
      else
        match a.deed
        case Press(x, y, erase) => after == before + if erase then [Sponge(Point(x, y, s.points))] else []
        case Move(x, y, inside) =>
          after == before + if s.pending.None? || !inside then []
                            else if s.pending.value.erase then [Sponge(Point(x, y, s.points))]
                            else [Segment(s.pending.value.last, Point(x, y, s.points))]
        case Hold(own, x, y) =>
          after == before + if s.pending.None? then []
                            else [Sponge(if own then s.pending.value.curve[0] else Point(x, y, s.points))]
        case Wipe => after == []
        case _ => after == before
  {
    assert s.live[id] + [] == s.live[id];
  }

  /** What each action records, and where. */
  lemma {:induction false} RecordAfter(s: Sketch, a: Action, id: nat)
    requires s.Valid() && id < 2
    ensures var before, after := s.events[id], Act(s, a).events[id];
      match a.deed
      case Release =>
        if s.pending.None? || id != s.mode || (!s.pending.value.erase && |s.pending.value.curve| <= 1) then
          after == before
        else
          var e := s.pending.value;
          after == Recorded(before, if e.erase then Erase(e.begin, a.at, e.curve) else Draw(e.begin, a.at, e.curve))
      case Wipe => after == if id == s.mode then Recorded(before, Clear(a.at)) else before
      case Toggle =>
        after == if id == 0 then before else Recorded(before, if s.mode == 0 then Open(a.at) else Shut(a.at))
      case Notes => after == if id == 1 && s.mode == 1 then Recorded(before, Shut(a.at)) else before
      case _ => after == before
  {
  }

  /** What is pending after each action. */
  lemma {:induction false} PendingAfter(s: Sketch, a: Action)
    requires s.Valid()
    ensures var e, after := s.pending, Act(s, a).pending;
      match a.deed
      case Press(x, y, erase) =>
        after == Some(Pending(erase, a.at, [Point(x, y, s.points)], Point(x, y, s.points)))
      case Move(x, y, inside) =>
        if e.None? then after == None
        else
          var p := Point(x, y, s.points);
          after == Some(Pending(e.value.erase, e.value.begin, e.value.curve + [p], if inside then p else e.value.last))
      case Hold(_, _, _) =>
        if e.None? then after == None else after == Some(Pending(true, a.at, e.value.curve, e.value.last))
      case Release => after == None
      case Wipe => after == e
      case Toggle => after == if s.mode == 1 then None else e
      case Notes => after == if s.mode == 1 || s.notes then None else e
  {
  }

  ghost function Play(s: Sketch, run: seq<Action>): (t: Sketch)
    requires s.Valid()
    ensures t.Valid()
    decreases |run|
  {
    if run == [] then s else Act(Play(s, run[..|run| - 1]), run[|run| - 1])
  }

  // ---- the account of a board, kept from the actions alone ----

  /**
   Whether replay and canvas agree but for the pending event; how many strokes of that event are on the
   canvas; whether it was cleared after that event had begun; and whether those strokes can no longer become the
   recorded ones.
   */
  datatype Account = Account(same: bool, marks: nat, late: bool, odd: bool)
  {
    predicate Even()
    {
      same && marks == 0
    }
  }

  /** Nothing is pending. */
  function Settled(same: bool): Account
  {
    Account(same, 0, false, false)
  }

  /** How many strokes an event has when it ends now. */
  function Owing(e: Pending): nat
  {
    if e.erase then |e.curve| else if |e.curve| == 0 then 0 else |e.curve| - 1
  }

  /** How many of them the replay will show: none when they are sorted before a clear, none of a single dab. */
  function Owed(a: Account, e: Pending): nat
  {
    if a.late || (e.erase && |e.curve| == 1) then 0 else Owing(e)
  }

  /**
   A timer makes the event a sponge that begins anew.  Lines that it has drawn stay what they are, and the dab is
   the first of the event only if the timer is the event's own and there is no other stroke before it.
   */
  function AfterHold(b: Account, e: Pending, own: bool, here: bool): Account
  {
    Account(b.same, if here then b.marks + 1 else b.marks, false,
            b.odd || (b.marks > 0 && (here || !e.erase)) || (here && !own))
  }

  /** What an action means for one board. */
  function Noted(b: Account, s: Sketch, a: Action, id: nat): Account
  {
    var here := s.mode == id;
    match a.deed
    case Press(_, _, erase) => Account(b.Even(), if erase && here then 1 else 0, false, false)
    case Move(_, _, inside) => if s.pending.Some? && inside && here then b.(marks := b.marks + 1) else b
    case Hold(own, _, _) => if s.pending.Some? then AfterHold(b, s.pending.value, own, here) else b
    case Release =>
      if s.pending.None? then b
      else Settled(b.same && if here then !b.odd && b.marks == Owed(b, s.pending.value) else b.marks == 0)
    case Wipe =>
      if here then Account(true, 0, s.pending.Some? && (b.late || s.pending.value.begin < a.at), false) else b
    case Toggle => if s.mode == 1 then Settled(b.Even()) else b
    case Notes => if s.mode == 1 || s.notes then Settled(b.Even()) else b
  }

  const EVEN := Settled(true)

  ghost function AccountOf(s: Sketch, run: seq<Action>, id: nat): Account
    requires s.Valid()
    decreases |run|
  {
    if run == [] then EVEN
    else Noted(AccountOf(s, run[..|run| - 1], id), Play(s, run[..|run| - 1]), run[|run| - 1], id)
  }

  // ---- strokes and whose they are ----

  /** The pointer event that made a stroke. */
  function Tag(s: Stroke): nat
  {
    if s.Segment? then s.to.nth else s.at.nth
  }

  ghost predicate Within(strokes: seq<Stroke>, low: nat, high: nat)
  {
    forall i :: 0 <= i < |strokes| ==> low <= Tag(strokes[i]) < high
  }

  lemma {:induction false} WithinConcat(a: seq<Stroke>, b: seq<Stroke>, low: nat, high: nat)
    ensures Within(a + b, low, high) <==> Within(a, low, high) && Within(b, low, high)
  {
    if Within(a + b, low, high) {
      forall i | 0 <= i < |a| ensures low <= Tag(a[i]) < high {
        assert a[i] == (a + b)[i];
      }
      forall i | 0 <= i < |b| ensures low <= Tag(b[i]) < high {
        assert b[i] == (a + b)[|a| + i];
      }
    }
  }

  /** How many strokes in front are older than the given pointer event. */
  function Older(strokes: seq<Stroke>, f: nat): nat
  {
    if strokes == [] || Tag(strokes[0]) >= f then 0 else 1 + Older(strokes[1..], f)
  }

  lemma {:induction false} OlderFront(a: seq<Stroke>, x: seq<Stroke>, f: nat, n: nat)
    requires Within(a, 0, f) && Within(x, f, n)
    ensures Older(a + x, f) == |a|
  {
    if a == [] {
      assert a + x == x;
    } else {
      assert (a + x)[1..] == a[1..] + x;
      OlderFront(a[1..], x, f, n);
    }
  }

  /** Old and new strokes can be told apart. */
  lemma {:induction false} SplitUnique(a: seq<Stroke>, x: seq<Stroke>, b: seq<Stroke>, y: seq<Stroke>, f: nat, n: nat)
    requires Within(a, 0, f) && Within(b, 0, f) && Within(x, f, n) && Within(y, f, n)
    ensures a + x == b + y <==> a == b && x == y
  {
    OlderFront(a, x, f, n);
    OlderFront(b, y, f, n);
    if a + x == b + y {
      assert a == (a + x)[..|a|] && b == (b + y)[..|b|];
      assert x == (a + x)[|a|..] && y == (b + y)[|b|..];
    }
  }

  /** The strokes that a pending event has when it ends. */
  function Marks(e: Pending): seq<Stroke>
  {
    Strokes(Ended(e, e.begin))
  }

  ghost predicate PendingOk(e: Option<Pending>, t: real, n: nat)
  {
    e.Some? ==>
      && e.value.curve != [] && e.value.begin <= t && (|e.value.curve| == 1 ==> e.value.last == e.value.curve[0])
      && e.value.curve[0].nth < n
      && forall i :: 0 < i < |e.value.curve| ==> e.value.curve[0].nth < e.value.curve[i].nth < n
  }

  function First(e: Option<Pending>, n: nat): nat
  {
    if e.Some? && e.value.curve != [] then e.value.curve[0].nth else n
  }

  lemma {:induction false} MarksWithin(e: Pending, t: real, n: nat)
    requires PendingOk(Some(e), t, n)
    ensures |Marks(e)| == Owing(e) && Within(Marks(e), First(Some(e), n), n)
  {
  }

  /** A canvas that ends in the given strokes of the pending event. */
  ghost predicate Parted(live: seq<Stroke>, base: seq<Stroke>, part: seq<Stroke>, f: nat, n: nat)
  {
    live == base + part && Within(base, 0, f) && Within(part, f, n)
  }

  /** A stroke that is not the i-th of an erasing event, and will not be, whatever points the curve still gets. */
  predicate Strange(x: Stroke, i: nat, curve: seq<Point>)
  {
    x.Segment? || (i > 0 && |curve| > 0 && x.at.nth == curve[0].nth)
    || forall j :: 0 <= j < |curve| ==> curve[j].nth != x.at.nth
  }

  ghost predicate HasStrange(part: seq<Stroke>, curve: seq<Point>)
  {
    exists i: nat :: i < |part| && Strange(part[i], i, curve)
  }

  /** The strokes of the pending event are as the account says. */
  ghost predicate Pieces(part: seq<Stroke>, b: Account, e: Pending)
  {
    && |part| == b.marks && (!e.erase && part != [] ==> part[0].Segment?)
    && if b.odd then e.erase && HasStrange(part, e.curve)
       else
         && b.marks <= Owing(e)
         && (b.marks == Owing(e) && e.curve != [] ==> part == Marks(e) && e.last == e.curve[|e.curve| - 1])
  }

  /** What the account says of a board is so, given what the replay of its events shows. */
  ghost predicate Told(base: seq<Stroke>, part: seq<Stroke>, replay: seq<Stroke>, b: Account, e: Option<Pending>)
  {
    && (b.same <==> base == replay)
    && (e.None? ==> part == [] && b == Settled(b.same))
    && (e.Some? ==> e.value.curve != [] && Pieces(part, b, e.value))
  }

  ghost predicate Board(live: seq<Stroke>, replay: seq<Stroke>, b: Account, e: Option<Pending>, n: nat)
  {
    && First(e, n) <= n && Within(replay, 0, First(e, n))
    && exists base, part :: Parted(live, base, part, First(e, n), n) && Told(base, part, replay, b, e)
  }

  /** A board from its parts. */
  lemma {:induction false} BoardOf(live: seq<Stroke>, base: seq<Stroke>, part: seq<Stroke>, replay: seq<Stroke>,
          b: Account, e: Option<Pending>, n: nat)
    requires Parted(live, base, part, First(e, n), n) && Told(base, part, replay, b, e)
    requires First(e, n) <= n && Within(replay, 0, First(e, n))
    ensures Board(live, replay, b, e, n)
  {
  }

  /** On an account that is even, and on no other, the canvas shows what the replay will. */
  lemma {:induction false} BoardEven(live: seq<Stroke>, replay: seq<Stroke>, b: Account, e: Option<Pending>, n: nat)
    requires Board(live, replay, b, e, n)
    ensures live == replay <==> b.Even()
  {
    var base, part :| Parted(live, base, part, First(e, n), n) && Told(base, part, replay, b, e);
    SplitUnique(base, part, replay, [], First(e, n), n);
    assert replay + [] == replay && base + part == live;
  }

  // ---- what each action does to a board ----

  /** The pending event is forgotten. */
  lemma {:induction false} BoardForgotten(live: seq<Stroke>, replay: seq<Stroke>, b: Account, e: Option<Pending>,
          t: real, n: nat)
    requires Board(live, replay, b, e, n) && PendingOk(e, t, n)
    ensures Board(live, replay, Settled(b.Even()), None, n)
  {
    BoardEven(live, replay, b, e, n);
    var base, part :| Parted(live, base, part, First(e, n), n) && Told(base, part, replay, b, e);
    WithinWider(base, part, replay, First(e, n), n);
    assert live + [] == live;
    BoardOf(live, live, [], replay, Settled(b.Even()), None, n);
  }

  lemma {:induction false} WithinWider(base: seq<Stroke>, part: seq<Stroke>, replay: seq<Stroke>, f: nat, n: nat)
    requires f <= n && Within(base, 0, f) && Within(part, f, n) && Within(replay, 0, f)
    ensures Within(base + part, 0, n) && Within(replay, 0, n)
  {
    WithinConcat(base, part, 0, n);
  }

  /** A new event is pending; a sponge has left its first dab on this board, or not. */
  lemma {:induction false} BoardPressed(live: seq<Stroke>, replay: seq<Stroke>, b: Account, e: Pending, n: nat,
          dab: bool)
    requires Board(live, replay, b, None, n) && |e.curve| == 1 && e.curve[0].nth == n && e.last == e.curve[0]
    requires dab ==> e.erase
    ensures Board(live + (if dab then [Sponge(e.curve[0])] else []), replay,
                  Account(b.same, if dab then 1 else 0, false, false), Some(e), n + 1)
  {
    var part := if dab then [Sponge(e.curve[0])] else [];
    var base, none :| Parted(live, base, none, n, n) && Told(base, none, replay, b, None);
    assert live == base;
    BoardOf(live + part, live, part, replay, Account(b.same, if dab then 1 else 0, false, false), Some(e), n + 1);
  }

  /** The curve has grown, and a stroke was drawn on this board. */
  lemma {:induction false} BoardDrawn(live: seq<Stroke>, replay: seq<Stroke>, b: Account, e: Pending, p: Point,
          t: real, n: nat)
    requires Board(live, replay, b, Some(e), n) && PendingOk(Some(e), t, n) && p.nth == n
    ensures Board(live + [StrokeTo(e, p)], replay, b.(marks := b.marks + 1), Some(Grown(e, p, true)), n + 1)
  {
    var base, part :| Parted(live, base, part, First(Some(e), n), n) && Told(base, part, replay, b, Some(e));
    PartedDrawn(live, base, part, StrokeTo(e, p), First(Some(e), n), n, n + 1);
    PiecesDrawn(part, b, e, p, First(Some(e), n), n);
    BoardOf(live + [StrokeTo(e, p)], base, part + [StrokeTo(e, p)], replay, b.(marks := b.marks + 1),
            Some(Grown(e, p, true)), n + 1);
  }

  lemma {:induction false} PartedDrawn(live: seq<Stroke>, base: seq<Stroke>, part: seq<Stroke>, x: Stroke, f: nat,
          n: nat, m: nat)
    requires Parted(live, base, part, f, n) && f <= Tag(x) < m && n <= m
    ensures Parted(live + [x], base, part + [x], f, m)
  {
    WithinConcat(part, [x], f, m);
    assert base + part + [x] == base + (part + [x]);
  }

  lemma {:induction false} PiecesDrawn(part: seq<Stroke>, b: Account, e: Pending, p: Point, f: nat, n: nat)
    requires Pieces(part, b, e) && e.curve != [] && Within(part, f, n) && p.nth == n
    ensures Pieces(part + [StrokeTo(e, p)], b.(marks := b.marks + 1), Grown(e, p, true))
  {
    if b.odd {
      StrangeStays(part, [StrokeTo(e, p)], e.curve, p, f, n);
    } else {
      MarksGrow(e, p, true);
    }
  }

  lemma {:induction false} StrangeStays(part: seq<Stroke>, more: seq<Stroke>, curve: seq<Point>, p: Point, f: nat,
          n: nat)
    requires HasStrange(part, curve) && curve != [] && Within(part, f, n) && p.nth == n
    ensures HasStrange(part + more, curve + [p])
  {
    var i: nat :| i < |part| && Strange(part[i], i, curve);
    assert (part + more)[i] == part[i] && Tag(part[i]) < n;
    assert Strange((part + more)[i], i, curve + [p]);
  }

  /** The curve has grown, and no stroke was drawn on this board. */
  lemma {:induction false} BoardPassed(live: seq<Stroke>, replay: seq<Stroke>, b: Account, e: Pending, p: Point,
          t: real, n: nat, inside: bool)
    requires Board(live, replay, b, Some(e), n) && PendingOk(Some(e), t, n) && p.nth == n
    ensures Board(live, replay, b, Some(Grown(e, p, inside)), n + 1)
  {
    var base, part :| Parted(live, base, part, First(Some(e), n), n) && Told(base, part, replay, b, Some(e));
    if b.odd {
      StrangeStays(part, [], e.curve, p, First(Some(e), n), n);
      assert part + [] == part;
    } else {
      MarksGrow(e, p, inside);
    }
    BoardOf(live, base, part, replay, b, Some(Grown(e, p, inside)), n + 1);
  }

  lemma {:induction false} DraggedBoard(live: seq<Stroke>, replay: seq<Stroke>, b: Account, e: Pending, p: Point,
          t: real, n: nat, inside: bool, here: bool)
    requires Board(live, replay, b, Some(e), n) && PendingOk(Some(e), t, n) && p.nth == n
    ensures Board(if inside && here then live + [StrokeTo(e, p)] else live, replay,
                  if inside && here then b.(marks := b.marks + 1) else b, Some(Grown(e, p, inside)), n + 1)
  {
    if inside && here {
      BoardDrawn(live, replay, b, e, p, t, n);
    } else {
      BoardPassed(live, replay, b, e, p, t, n, inside);
    }
  }

  lemma {:induction false} MarksGrow(e: Pending, p: Point, inside: bool)
    requires e.curve != []
    ensures Owing(Grown(e, p, inside)) == Owing(e) + 1
    ensures e.last == e.curve[|e.curve| - 1] ==> Marks(Grown(e, p, inside)) == Marks(e) + [StrokeTo(e, p)]
  {
  }

  /** A timer has made the event a sponge, and left a dab on this board, or not. */
  lemma {:induction false} BoardHeld(live: seq<Stroke>, replay: seq<Stroke>, b: Account, e: Pending, at: real,
          t: real, n: nat, here: bool, own: bool, p: Point)
    requires Board(live, replay, b, Some(e), n) && PendingOk(Some(e), t, n)
    requires if own then p == e.curve[0] else p.nth == n
    ensures Board(if here then live + [Sponge(p)] else live, replay, AfterHold(b, e, own, here),
                  Some(e.(erase := true, begin := at)), if own then n else n + 1)
  {
    var f, m := First(Some(e), n), if own then n else n + 1;
    var base, part :| Parted(live, base, part, f, n) && Told(base, part, replay, b, Some(e));
    PiecesHeld(part, b, e, at, n, here, own, p);
    if here {
      PartedDrawn(live, base, part, Sponge(p), f, n, m);
      BoardOf(live + [Sponge(p)], base, part + [Sponge(p)], replay, AfterHold(b, e, own, here),
              Some(e.(erase := true, begin := at)), m);
    } else {
      BoardOf(live, base, part, replay, AfterHold(b, e, own, here), Some(e.(erase := true, begin := at)), m);
    }
  }

  lemma {:induction false} PiecesHeld(part: seq<Stroke>, b: Account, e: Pending, at: real, n: nat, here: bool,
          own: bool, p: Point)
    requires Pieces(part, b, e) && PendingOk(Some(e), e.begin, n)
    requires if own then p == e.curve[0] else p.nth == n
    ensures Pieces(if here then part + [Sponge(p)] else part, AfterHold(b, e, own, here),
                   e.(erase := true, begin := at))
  {
    var part' := if here then part + [Sponge(p)] else part;
    if b.odd {
      var i: nat :| i < |part| && Strange(part[i], i, e.curve);
      assert part'[i] == part[i] && Strange(part'[i], i, e.curve);
    } else if b.marks > 0 && !e.erase {
      assert part'[0] == part[0] && Strange(part'[0], 0, e.curve);
    } else if here && (b.marks > 0 || !own) {
      assert part'[|part|] == Sponge(p) && Strange(part'[|part|], |part|, e.curve);
    }
  }

  /** With a strange stroke among them, the strokes on the canvas are not those recorded. */
  lemma {:induction false} StrangeNotMarks(part: seq<Stroke>, e: Pending)
    requires e.erase && HasStrange(part, e.curve) && forall i :: 0 < i < |e.curve| ==> e.curve[0].nth < e.curve[i].nth
    ensures part != Marks(e) && part != []
  {
    var i: nat :| i < |part| && Strange(part[i], i, e.curve);
    assert i < |e.curve| ==> Marks(e)[i] == Sponge(e.curve[i]);
  }

  /** The pending event was recorded on this board, whose replay then shows what is owed. */
  lemma {:induction false} BoardKept(live: seq<Stroke>, replay: seq<Stroke>, b: Account, e: Pending, t: real, n: nat,
          replay': seq<Stroke>)
    requires Board(live, replay, b, Some(e), n) && PendingOk(Some(e), t, n)
    requires replay' == replay + if b.late || (e.erase && |e.curve| == 1) then [] else Marks(e)
    ensures Board(live, replay', Settled(b.same && !b.odd && b.marks == Owed(b, e)), None, n)
  {
    var base, part :| Parted(live, base, part, First(Some(e), n), n) && Told(base, part, replay, b, Some(e));
    var owed := if b.late || (e.erase && |e.curve| == 1) then [] else Marks(e);
    MarksWithin(e, t, n);
    if b.odd {
      StrangeNotMarks(part, e);
    }
    SplitUnique(base, part, replay, owed, First(Some(e), n), n);
    assert base + part == live;
    WithinWider(base, part, replay, First(Some(e), n), n);
    WithinWider(replay, owed, replay, First(Some(e), n), n);
    assert live + [] == live;
    BoardOf(live, live, [], replay', Settled(b.same && !b.odd && b.marks == Owed(b, e)), None, n);
  }

  /** The canvas was cleared. */
  lemma {:induction false} BoardWiped(e: Option<Pending>, late: bool, t: real, n: nat)
    requires PendingOk(e, t, n) && (e.None? ==> !late)
    ensures Board([], [], Account(true, 0, late, false), e, n)
  {
    if e.Some? {
      MarksWithin(e.value, t, n);
    }
    BoardOf([], [], [], [], Account(true, 0, late, false), e, n);
  }

  // ---- events in time ----

  predicate IsStroke(e: Event)
  {
    e.Draw? || e.Erase?
  }

  predicate ClearedAfter(events: seq<Event>, begin: real)
  {
    events != []
    && ((events[|events| - 1].Clear? && begin < events[|events| - 1].begin)
        || ClearedAfter(events[..|events| - 1], begin))
  }

  /** An event of a board while another is pending: over, and no stroke when it began later. */
  predicate Past(v: Event, e: Option<Pending>, t: real)
  {
    v.begin <= Finish(v) <= t && (e.Some? && e.value.begin < v.begin ==> !IsStroke(v))
  }

  ghost predicate Timed(events: seq<Event>, late: bool, e: Option<Pending>, t: real)
  {
    && Sorted(events) && (forall i :: 0 <= i < |events| ==> Past(events[i], e, t))
    && (late <==> e.Some? && ClearedAfter(events, e.value.begin))
  }

  lemma {:induction false} NoneLater(events: seq<Event>, begin: real)
    requires forall i :: 0 <= i < |events| ==> events[i].begin <= begin
    ensures !ClearedAfter(events, begin)
  {
    if events != [] {
      NoneLater(events[..|events| - 1], begin);
    }
  }

  lemma {:induction false} ClearedConcat(a: seq<Event>, b: seq<Event>, begin: real)
    ensures ClearedAfter(a + b, begin) <==> ClearedAfter(a, begin) || ClearedAfter(b, begin)
  {
    if b == [] {
      assert a + b == a;
    } else {
      assert (a + b)[..|a + b| - 1] == a + b[..|b| - 1];
      ClearedConcat(a, b[..|b| - 1], begin);
    }
  }

  /** An event that begins now goes to the end. */
  lemma {:induction false} RecordedNow(events: seq<Event>, late: bool, e: Option<Pending>, t: real, v: Event)
    requires Timed(events, late, e, t) && t <= v.begin == Finish(v) && !IsStroke(v)
    ensures Recorded(events, v) == events + [v]
    ensures Timed(events + [v], e.Some? && (late || (v.Clear? && e.value.begin < v.begin)), e, v.begin)
    ensures Replayed(events + [v]) == if v.Clear? then [] else Replayed(events)
  {
    assert Slot(events, v) == |events|;
    RecordedSorted(events, v);
    assert (events + [v])[..|events|] == events;
    assert Shown(v) == [];
  }

  lemma {:induction false} ReplayedLast(front: seq<Event>, tail: seq<Event>)
    requires tail != [] && !IsStroke(tail[|tail| - 1])
    ensures var before := Replayed(front + tail[..|tail| - 1]);
      Replayed(front + tail) == if tail[|tail| - 1].Clear? then [] else before
  {
    assert (front + tail)[..|front + tail| - 1] == front + tail[..|tail| - 1];
    assert Shown(tail[|tail| - 1]) == [];
  }

  /** The strokes of an event that goes before others without strokes: shown, unless a clear is among those. */
  lemma {:induction false} ReplayedBefore(front: seq<Event>, e: Event, tail: seq<Event>)
    requires IsStroke(e) && forall i :: 0 <= i < |tail| ==> !IsStroke(tail[i]) && e.begin < tail[i].begin
    ensures Replayed(front + [e] + tail) ==
            if ClearedAfter(tail, e.begin) then Replayed(front + tail) else Replayed(front + tail) + Shown(e)
  {
    if tail == [] {
      assert front + [e] + tail == front + [e] && front + tail == front && (front + [e])[..|front|] == front;
    } else {
      var n := |tail| - 1;
      ReplayedBefore(front, e, tail[..n]);
      ReplayedLast(front + [e], tail);
      ReplayedLast(front, tail);
    }
  }

  lemma {:induction false} ReplayedRecorded(events: seq<Event>, late: bool, e: Pending, t: real, v: Event)
    requires Timed(events, late, Some(e), t) && IsStroke(v) && v.begin == e.begin
    ensures Replayed(Recorded(events, v)) == if late then Replayed(events) else Replayed(events) + Shown(v)
  {
    var i := Slot(events, v);
    RecordedSorted(events, v);
    assert events[..i] + events[i..] == events;
    forall j | 0 <= j < |events[i..]| ensures !IsStroke(events[i..][j]) && v.begin < events[i..][j].begin {
      assert Past(events[i + j], Some(e), t);
    }
    ReplayedBefore(events[..i], v, events[i..]);
    ClearedConcat(events[..i], events[i..], e.begin);
    NoneLater(events[..i], e.begin);
  }

  lemma {:induction false} TimedRecorded(events: seq<Event>, late: bool, e: Pending, t: real, v: Event, at: real)
    requires Timed(events, late, Some(e), t) && t <= at && v.begin <= Finish(v) <= at
    ensures Timed(Recorded(events, v), false, None, at)
  {
    RecordedSorted(events, v);
    var i, r := Slot(events, v), Recorded(events, v);
    forall j | 0 <= j < |r| ensures Past(r[j], None, at) {
      assert r[j] == if j < i then events[j] else if j == i then v else events[j - 1];
      assert j < i ==> Past(events[j], Some(e), t);
      assert j > i ==> Past(events[j - 1], Some(e), t);
    }
  }

  /** Time goes on, and the pending event is another, later one or none. */
  lemma {:induction false} TimedAnew(events: seq<Event>, late: bool, e: Option<Pending>, t: real,
          e': Option<Pending>, at: real)
    requires Timed(events, late, e, t) && t <= at && (e'.Some? ==> e'.value.begin == at)
    ensures Timed(events, false, e', at)
  {
    forall i | 0 <= i < |events| ensures Past(events[i], e', at) {
      assert Past(events[i], e, t);
    }
    if e'.Some? {
      NoneLater(events, at);
    }
  }

  lemma {:induction false} TimedOn(events: seq<Event>, late: bool, e: Option<Pending>, t: real,
          e': Option<Pending>, at: real)
    requires Timed(events, late, e, t) && t <= at
    requires e.Some? <==> e'.Some?
    requires e.Some? ==> e'.value.begin == e.value.begin
    ensures Timed(events, late, e', at)
  {
    forall i | 0 <= i < |events| ensures Past(events[i], e', at) {
      assert Past(events[i], e, t);
    }
  }

  // ---- every run ----

  ghost predicate Side(s: Sketch, b: Account, id: nat, t: real)
    requires s.Valid() && id < 2
  {
    Timed(s.events[id], b.late, s.pending, t) && Board(s.live[id], Replayed(s.events[id]), b, s.pending, s.points)
  }

  ghost predicate Sided(s: Sketch, b: Account, id: nat, t: real)
  {
    s.Valid() && id < 2 && PendingOk(s.pending, t, s.points) && Side(s, b, id, t)
  }

  lemma {:induction false} ForgottenSide(s: Sketch, b: Account, id: nat, t: real, at: real)
    requires Sided(s, b, id, t) && t <= at
    ensures Sided(s.(pending := None), Settled(b.Even()), id, at)
  {
    BoardForgotten(s.live[id], Replayed(s.events[id]), b, s.pending, t, s.points);
    TimedAnew(s.events[id], b.late, s.pending, t, None, at);
  }

  lemma {:induction false} PressedSide(s: Sketch, b: Account, id: nat, t: real, a: Action)
    requires Sided(s, b, id, t) && t <= a.at && a.deed.Press?
    ensures Sided(Pressed(s, a.at, a.deed.x, a.deed.y, a.deed.erase), Noted(b, s, a, id), id, a.at)
  {
    var u, live, n := Pressed(s, a.at, a.deed.x, a.deed.y, a.deed.erase), s.live[id], s.points;
    var e := u.pending.value;
    BoardForgotten(live, Replayed(s.events[id]), b, s.pending, t, n);
    BoardPressed(live, Replayed(s.events[id]), Settled(b.Even()), e, n, e.erase && s.mode == id);
    assert live + [] == live;
    TimedAnew(s.events[id], b.late, s.pending, t, u.pending, a.at);
  }

  lemma {:induction false} DraggedSide(s: Sketch, b: Account, id: nat, t: real, a: Action)
    requires Sided(s, b, id, t) && t <= a.at && a.deed.Move?
    ensures Sided(Dragged(s, a.deed.x, a.deed.y, a.deed.inside), Noted(b, s, a, id), id, a.at)
  {
    var u := Dragged(s, a.deed.x, a.deed.y, a.deed.inside);
    TimedOn(s.events[id], b.late, s.pending, t, u.pending, a.at);
    if s.pending.Some? {
      DraggedOn(s, b, id, t, a);
    }
  }

  lemma {:induction false} DraggedOn(s: Sketch, b: Account, id: nat, t: real, a: Action)
    requires Sided(s, b, id, t) && t <= a.at && a.deed.Move? && s.pending.Some?
    ensures var u := Dragged(s, a.deed.x, a.deed.y, a.deed.inside);
      && PendingOk(u.pending, a.at, u.points)
      && Board(u.live[id], Replayed(s.events[id]), Noted(b, s, a, id), u.pending, u.points)
  {
    var e, p := s.pending.value, Point(a.deed.x, a.deed.y, s.points);
    DraggedLive(s, a, id);
    PendingGrown(e, p, t, s.points, a.deed.inside, a.at);
    DraggedBoard(s.live[id], Replayed(s.events[id]), b, e, p, t, s.points, a.deed.inside, s.mode == id);
  }

  lemma {:induction false} PendingGrown(e: Pending, p: Point, t: real, n: nat, inside: bool, at: real)
    requires PendingOk(Some(e), t, n) && p.nth == n && t <= at
    ensures PendingOk(Some(Grown(e, p, inside)), at, n + 1)
  {
    assert e.curve[0].nth < n;
  }

  lemma {:induction false} DraggedLive(s: Sketch, a: Action, id: nat)
    requires s.Valid() && id < 2 && a.deed.Move? && s.pending.Some?
    ensures var p := Point(a.deed.x, a.deed.y, s.points);
      Act(s, a).live[id] ==
      if a.deed.inside && s.mode == id then s.live[id] + [StrokeTo(s.pending.value, p)] else s.live[id]
  {
    assert s.live[id] + [] == s.live[id];
  }

  lemma {:induction false} HeldSide(s: Sketch, b: Account, id: nat, t: real, a: Action)
    requires Sided(s, b, id, t) && t <= a.at && a.deed.Hold?
    ensures Sided(Held(s, a.at, a.deed.own, a.deed.x, a.deed.y), Noted(b, s, a, id), id, a.at)
  {
    if s.pending.Some? {
      var own, e, p := a.deed.own, s.pending.value, HeldAt(s, a.deed.own, a.deed.x, a.deed.y);
      BoardHeld(s.live[id], Replayed(s.events[id]), b, e, a.at, t, s.points, s.mode == id, own, p);
      TimedAnew(s.events[id], b.late, s.pending, t, Some(e.(erase := true, begin := a.at)), a.at);
    } else {
      TimedOn(s.events[id], b.late, s.pending, t, s.pending, a.at);
    }
  }

  lemma {:induction false} ReleasedSide(s: Sketch, b: Account, id: nat, t: real, a: Action)
    requires Sided(s, b, id, t) && t <= a.at && a.deed.Release?
    ensures Sided(Released(s, a.at), Noted(b, s, a, id), id, a.at)
  {
    if s.pending.None? {
      TimedOn(s.events[id], b.late, s.pending, t, s.pending, a.at);
    } else {
      var e := s.pending.value;
      if s.mode == id && (e.erase || |e.curve| > 1) {
        KeptSide(s, b, id, t, a);
      } else {
        ForgottenSide(s, b, id, t, a.at);
      }
    }
  }

  lemma {:induction false} KeptSide(s: Sketch, b: Account, id: nat, t: real, a: Action)
    requires Sided(s, b, id, t) && t <= a.at && a.deed.Release? && s.pending.Some? && s.mode == id
    requires s.pending.value.erase || |s.pending.value.curve| > 1
    ensures Sided(Released(s, a.at), Noted(b, s, a, id), id, a.at)
  {
    var e, v := s.pending.value, Ended(s.pending.value, a.at);
    ReplayedRecorded(s.events[id], b.late, e, t, v);
    assert Strokes(v) == Marks(e);
    assert Replayed(s.events[id]) + [] == Replayed(s.events[id]);
    BoardKept(s.live[id], Replayed(s.events[id]), b, e, t, s.points, Replayed(Recorded(s.events[id], v)));
    TimedRecorded(s.events[id], b.late, e, t, v, a.at);
  }

  lemma {:induction false} WipedSide(s: Sketch, b: Account, id: nat, t: real, a: Action)
    requires Sided(s, b, id, t) && t <= a.at && a.deed.Wipe?
    ensures Sided(Wiped(s, a.at), Noted(b, s, a, id), id, a.at)
  {
    if s.mode == id {
      RecordedNow(s.events[id], b.late, s.pending, t, Clear(a.at));
      assert Wiped(s, a.at).live[id] == [] && Wiped(s, a.at).events[id] == s.events[id] + [Clear(a.at)];
      BoardWiped(s.pending, Noted(b, s, a, id).late, t, s.points);
    } else {
      TimedOn(s.events[id], b.late, s.pending, t, s.pending, a.at);
    }
  }

  lemma {:induction false} ToggledSide(s: Sketch, b: Account, id: nat, t: real, at: real)
    requires Sided(s, b, id, t) && t <= at
    ensures Sided(Toggled(s, at), if s.mode == 1 then Settled(b.Even()) else b, id, at)
  {
    if s.mode == 1 {
      ForgottenSide(s, b, id, t, at);
      NowSide(s.(pending := None), Settled(b.Even()), id, at, at, Shut(at), 0);
    } else {
      NowSide(s, b, id, t, at, Open(at), 1);
    }
  }

  lemma {:induction false} NotesSide(s: Sketch, b: Account, id: nat, t: real, a: Action)
    requires Sided(s, b, id, t) && t <= a.at && a.deed.Notes?
    ensures Sided(NotesToggled(s, a.at), Noted(b, s, a, id), id, a.at)
  {
    if s.mode == 1 {
      ToggledSide(s, b, id, t, a.at);
    } else if s.notes {
      ForgottenSide(s, b, id, t, a.at);
    } else {
      TimedOn(s.events[id], b.late, s.pending, t, s.pending, a.at);
    }
  }

  /** The chalkboard records that it is opened or closed. */
  lemma {:induction false} NowSide(s: Sketch, b: Account, id: nat, t: real, at: real, v: Event, mode: nat)
    requires Sided(s, b, id, t) && t <= at && v.begin == at && (v.Open? || v.Shut?) && mode < 2
    ensures Sided(s.(mode := mode, events := Record(s.events, 1, v)), b, id, at)
  {
    var u := s.(mode := mode, events := Record(s.events, 1, v));
    if id == 1 {
      RecordedNow(s.events[1], b.late, s.pending, t, v);
      assert u.events[1] == s.events[1] + [v] && Replayed(u.events[1]) == Replayed(s.events[1]);
    } else {
      assert u.events[0] == s.events[0];
      TimedOn(s.events[0], b.late, s.pending, t, s.pending, at);
    }
    assert Side(u, b, id, at);
  }

  /** Every action keeps the account of a board true. */
  lemma {:induction false} ActSide(s: Sketch, b: Account, id: nat, t: real, a: Action)
    requires Sided(s, b, id, t) && t <= a.at
    ensures Sided(Act(s, a), Noted(b, s, a, id), id, a.at)
  {
    match a.deed {
      case Press(_, _, _) => PressedSide(s, b, id, t, a);
      case Move(_, _, _) => DraggedSide(s, b, id, t, a);
      case Hold(_, _, _) => HeldSide(s, b, id, t, a);
      case Release => ReleasedSide(s, b, id, t, a);
      case Wipe => WipedSide(s, b, id, t, a);
      case Toggle => ToggledSide(s, b, id, t, a.at);
      case Notes => NotesSide(s, b, id, t, a);
    }
  }

  ghost predicate InOrder(run: seq<Action>, t: real)
  {
    && (run != [] ==> t <= run[0].at)
    && forall i :: 0 < i < |run| ==> run[i - 1].at <= run[i].at
  }

  function Clock(run: seq<Action>, t: real): real
  {
    if run == [] then t else run[|run| - 1].at
  }

  /** The same run with its times counted from another moment. */
  function Shifted(run: seq<Action>, t: real): (r: seq<Action>)
    ensures |r| == |run|
  {
    seq(|run|, i requires 0 <= i < |run| => Action(t + run[i].at, run[i].deed))
  }

  lemma {:induction false} ShiftedInOrder(run: seq<Action>, t: real)
    requires InOrder(run, 0.0)
    ensures InOrder(Shifted(run, t), t)
  {
  }

  lemma {:induction false} PointsGrow(s: Sketch, run: seq<Action>)
    requires s.Valid()
    ensures s.points <= Play(s, run).points
    decreases |run|
  {
    if run != [] {
      PointsGrow(s, run[..|run| - 1]);
    }
  }

  /** A slide just shown: what one sees is what its events show, and all of them are over. */
  ghost predicate Opened(s: Sketch, t: real)
  {
    && s.Valid() && s.pending.None?
    && forall id :: 0 <= id < 2 ==>
         && s.live[id] == Replayed(s.events[id]) && Timed(s.events[id], false, None, t)
         && Within(s.live[id], 0, s.points)
  }

  lemma {:induction false} RunSide(s: Sketch, t: real, run: seq<Action>, id: nat)
    requires Opened(s, t) && InOrder(run, t) && id < 2
    ensures Sided(Play(s, run), AccountOf(s, run, id), id, Clock(run, t))
    decreases |run|
  {
    if run == [] {
      assert s.live[id] + [] == s.live[id];
      BoardOf(s.live[id], s.live[id], [], Replayed(s.events[id]), EVEN, None, s.points);
    } else {
      var before := run[..|run| - 1];
      RunSide(s, t, before, id);
      ActSide(Play(s, before), AccountOf(s, before, id), id, Clock(before, t), run[|run| - 1]);
    }
  }

  /**
   Over all runs: when all events are over, the replay shows what is on the canvas if and only if the
   account of the board is even.
   */
  lemma {:induction false} ReplayFaithful(s: Sketch, t: real, run: seq<Action>, id: nat, elapsed: real)
    requires Opened(s, t) && InOrder(run, t) && id < 2
    requires InTime(Play(s, run).events[id], elapsed)
    ensures var u := Play(s, run);
      Picture(u.events[id], elapsed) == u.live[id] <==> AccountOf(s, run, id).Even()
  {
    var u := Play(s, run);
    RunSide(s, t, run, id);
    PictureOver(u.events[id], elapsed);
    BoardEven(u.live[id], Replayed(u.events[id]), AccountOf(s, run, id), u.pending, u.points);
  }

  // ---- the board that is open ----

  /** An event that opens or closes nothing leaves the mode that events lead to, wherever it goes. */
  lemma {:induction false} ModeInserted(a: seq<Event>, v: Event, b: seq<Event>, mode: nat)
    requires !Opens(v)
    ensures ModeAfter(a + [v] + b, mode) == ModeAfter(a + b, mode)
    decreases |b|
  {
    if b == [] {
      assert a + [v] + b == a + [v] && a + b == a && (a + [v])[..|a|] == a;
    } else {
      var n := |b| - 1;
      ModeInserted(a, v, b[..n], mode);
      assert (a + [v] + b)[..|a| + 1 + n] == a + [v] + b[..n];
      assert (a + b)[..|a| + n] == a + b[..n];
    }
  }

  lemma {:induction false} ModeRecorded(events: seq<Event>, v: Event, mode: nat)
    requires !Opens(v)
    ensures ModeAfter(Recorded(events, v), mode) == ModeAfter(events, mode)
  {
    var i := Slot(events, v);
    ModeInserted(events[..i], v, events[i..], mode);
    assert events[..i] + events[i..] == events;
  }

  lemma {:induction false} ModeActed(s: Sketch, b: Account, t: real, a: Action, mode: nat)
    requires Sided(s, b, 1, t) && t <= a.at && ModeAfter(s.events[1], mode) == s.mode
    ensures ModeAfter(Act(s, a).events[1], mode) == Act(s, a).mode
  {
    match a.deed {
      case Release =>
        if s.pending.Some? {
          ModeRecorded(s.events[1], Ended(s.pending.value, a.at), mode);
        }
      case Wipe => ModeRecorded(s.events[1], Clear(a.at), mode);
      case Toggle => ModeToggled(s, b, t, a.at, mode);
      case Notes => ModeToggled(s, b, t, a.at, mode);
      case _ =>
    }
  }

  lemma {:induction false} ModeToggled(s: Sketch, b: Account, t: real, at: real, mode: nat)
    requires Sided(s, b, 1, t) && t <= at
    ensures ModeAfter(Toggled(s, at).events[1], mode) == Toggled(s, at).mode
  {
    ModeNow(s.events[1], b.late, s.pending, t, if s.mode == 0 then Open(at) else Shut(at), mode);
    ToggledIs(s, at);
  }

  lemma {:induction false} ModeNow(events: seq<Event>, late: bool, e: Option<Pending>, t: real, v: Event, mode: nat)
    requires Timed(events, late, e, t) && t <= v.begin && Opens(v)
    ensures ModeAfter(Recorded(events, v), mode) == if v.Open? then 1 else 0
  {
    RecordedNow(events, late, e, t, v);
    assert (events + [v])[..|events|] == events;
  }

  /**
   Over all runs: playing the events of the chalkboard to their end opens the board that was open when they were
   recorded.
   */
  lemma {:induction false} ModeReplayed(s: Sketch, t: real, run: seq<Action>, mode: nat)
    requires Opened(s, t) && InOrder(run, t) && ModeAfter(s.events[1], mode) == s.mode
    ensures ModeAfter(Play(s, run).events[1], mode) == Play(s, run).mode
    decreases |run|
  {
    if run != [] {
      var before := run[..|run| - 1];
      ModeReplayed(s, t, before, mode);
      RunSide(s, t, before, 1);
      ModeActed(Play(s, before), AccountOf(s, before, 1), Clock(before, t), run[|run| - 1], mode);
    }
  }

  // ---- runs that are shown as they were, and runs that are not ----

  /**
   Nothing but points within the canvas falls into a stroke: no clear, no board opened or closed, no canvas
   put away, no other button, and no timer, except that a touch that has not moved becomes a sponge; and no sponge
   leaves the board after a single point.
   */
  predicate Careful(s: Sketch, a: Action)
  {
    match a.deed
    case Move(_, _, inside) => inside
    case Hold(own, _, _) => s.pending.Some? ==> own && !s.pending.value.erase && |s.pending.value.curve| == 1
    case Release => s.pending.Some? ==> !(s.pending.value.erase && |s.pending.value.curve| == 1)
    case _ => s.pending.None?
  }

  ghost predicate AllCareful(s: Sketch, run: seq<Action>)
    requires s.Valid()
    decreases |run|
  {
    run != [] ==> AllCareful(s, run[..|run| - 1]) && Careful(Play(s, run[..|run| - 1]), run[|run| - 1])
  }

  /** The account of a board in a careful run. */
  ghost predicate Steady(s: Sketch, b: Account, id: nat)
  {
    && b.same && !b.late && !b.odd
    && b.marks == if s.pending.Some? && s.mode == id then Owing(s.pending.value) else 0
  }

  lemma {:induction false} CarefulSteady(s: Sketch, t: real, run: seq<Action>, id: nat)
    requires Opened(s, t) && AllCareful(s, run) && id < 2
    ensures Steady(Play(s, run), AccountOf(s, run, id), id)
    decreases |run|
  {
    if run != [] {
      var before := run[..|run| - 1];
      CarefulSteady(s, t, before, id);
      CarefulStep(Play(s, before), AccountOf(s, before, id), run[|run| - 1], id);
    }
  }

  lemma {:induction false} CarefulStep(s: Sketch, b: Account, a: Action, id: nat)
    requires s.Valid() && Steady(s, b, id) && Careful(s, a) && id < 2
    ensures Steady(Act(s, a), Noted(b, s, a, id), id)
  {
  }

  /** After a careful run, with no stroke pending, the replay shows what is on both canvases. */
  lemma {:induction false} CarefulFaithful(s: Sketch, t: real, run: seq<Action>, id: nat, elapsed: real)
    requires Opened(s, t) && InOrder(run, t) && AllCareful(s, run) && id < 2
    requires Play(s, run).pending.None? && InTime(Play(s, run).events[id], elapsed)
    ensures Picture(Play(s, run).events[id], elapsed) == Play(s, run).live[id]
  {
    CarefulSteady(s, t, run, id);
    ReplayFaithful(s, t, run, id, elapsed);
  }

  const BLANK := Sketch(0, None, [[], []], [[], []], 0, false)

  lemma {:induction false} OneMore(s: Sketch, run: seq<Action>, a: Action, id: nat)
    requires s.Valid()
    ensures Play(s, run + [a]) == Act(Play(s, run), a)
    ensures AccountOf(s, run + [a], id) == Noted(AccountOf(s, run, id), Play(s, run), a, id)
  {
    assert (run + [a])[..|run|] == run;
  }

  lemma {:induction false} BeforeClear(v: Event, at: real)
    requires v.begin < at
    ensures Recorded([Clear(at)], v) == [v, Clear(at)]
  {
    assert [Clear(at)][..0] == [] && Slot([Clear(at)], v) == 0;
  }

  /** A line in three points, the board cleared behind the second. */
  lemma {:induction false} ClearedLine(p: Point, q: Point, r: Point)
    requires p.nth == 0 && q.nth == 1 && r.nth == 2
    ensures var run := [Action(0.0, Press(p.x, p.y, false)), Action(4.0, Move(q.x, q.y, true)), Action(5.0, Wipe),
                        Action(10.0, Move(r.x, r.y, true))];
      && Play(BLANK, run) == Sketch(0, Some(Pending(false, 0.0, [p, q, r], r)), [[Segment(q, r)], []],
                                    [[Clear(5.0)], []], 3, false)
      && AccountOf(BLANK, run, 0) == Account(true, 1, true, false)
  {
    var a, b := Action(0.0, Press(p.x, p.y, false)), Action(4.0, Move(q.x, q.y, true));
    var c, d := Action(5.0, Wipe), Action(10.0, Move(r.x, r.y, true));
    assert [] + [a] == [a] && [a] + [b] == [a, b] && [a, b] + [c] == [a, b, c] && [a, b, c] + [d] == [a, b, c, d];
    OneMore(BLANK, [], a, 0);
    OneMore(BLANK, [a], b, 0);
    OneMore(BLANK, [a, b], c, 0);
    assert Recorded([], Clear(5.0)) == [Clear(5.0)];
    OneMore(BLANK, [a, b, c], d, 0);
    assert [p] + [q] == [p, q] && [p, q] + [r] == [p, q, r];
    var u := Play(BLANK, [a, b, c, d]);
    assert u.live[0] == [Segment(q, r)];
    assert u.live == [[Segment(q, r)], []];
    assert u.events == [[Clear(5.0)], []];
  }

  /**
   A stroke begun at 0, the board cleared at 5, the button released at 10: what was drawn after the clear is
   on the canvas, and the replay shows nothing of it, as the clear is sorted behind the stroke.
   */
  lemma {:induction false} ClearInStroke(p: Point, q: Point, r: Point)
    requires p.nth == 0 && q.nth == 1 && r.nth == 2
    ensures var run := [Action(0.0, Press(p.x, p.y, false)), Action(4.0, Move(q.x, q.y, true)), Action(5.0, Wipe),
                        Action(10.0, Move(r.x, r.y, true)), Action(10.0, Release)];
      var u := Play(BLANK, run);
      && u.events[0] == [Draw(0.0, 10.0, [p, q, r]), Clear(5.0)] && !DabLeft(u.events[0])
      && u.live[0] == [Segment(q, r)] && Picture(u.events[0], 11.0) == []
      && !AccountOf(BLANK, run, 0).Even()
  {
    var a, b := Action(0.0, Press(p.x, p.y, false)), Action(4.0, Move(q.x, q.y, true));
    var c, d := Action(5.0, Wipe), Action(10.0, Move(r.x, r.y, true));
    ClearedLine(p, q, r);
    OneMore(BLANK, [a, b, c, d], Action(10.0, Release), 0);
    assert [a, b, c, d] + [Action(10.0, Release)] == [a, b, c, d, Action(10.0, Release)];
    BeforeClear(Draw(0.0, 10.0, [p, q, r]), 5.0);
  }

  /** The chalkboard opened in a stroke on the notes: the stroke is replayed on the chalkboard alone. */
  lemma {:induction false} OpenInStroke()
    ensures var run := [Action(0.0, Press(0.0, 0.0, false)), Action(1.0, Move(1.0, 0.0, true)), Action(2.0, Toggle),
                        Action(3.0, Release)];
      !AccountOf(BLANK, run, 0).Even() && !AccountOf(BLANK, run, 1).Even()
  {
    var a, b := Action(0.0, Press(0.0, 0.0, false)), Action(1.0, Move(1.0, 0.0, true));
    var c, d := Action(2.0, Toggle), Action(3.0, Release);
    assert [] + [a] == [a] && [a] + [b] == [a, b] && [a, b] + [c] == [a, b, c] && [a, b, c] + [d] == [a, b, c, d];
    for id := 0 to 2
      invariant forall i :: 0 <= i < id ==> !AccountOf(BLANK, [a, b, c, d], i).Even()
    {
      OneMore(BLANK, [], a, id);
      OneMore(BLANK, [a], b, id);
      OneMore(BLANK, [a, b], c, id);
      OneMore(BLANK, [a, b, c], d, id);
    }
  }

  /** A second button pressed in a stroke: what was drawn so far is never recorded. */
  lemma {:induction false} PressInStroke()
    ensures var run := [Action(0.0, Press(0.0, 0.0, false)), Action(1.0, Move(1.0, 0.0, true)),
                        Action(2.0, Press(1.0, 0.0, false)), Action(3.0, Release)];
      !AccountOf(BLANK, run, 0).Even() && Play(BLANK, run).events[0] == []
  {
    var a, b := Action(0.0, Press(0.0, 0.0, false)), Action(1.0, Move(1.0, 0.0, true));
    var c, d := Action(2.0, Press(1.0, 0.0, false)), Action(3.0, Release);
    assert [] + [a] == [a] && [a] + [b] == [a, b] && [a, b] + [c] == [a, b, c] && [a, b, c] + [d] == [a, b, c, d];
    OneMore(BLANK, [], a, 0);
    OneMore(BLANK, [a], b, 0);
    OneMore(BLANK, [a, b], c, 0);
    OneMore(BLANK, [a, b, c], d, 0);
  }

  /**
   A timer that is not stopped by the first move, as when a mouse moves or a second finger has come down: a line
   drawn before it is replayed as wiped with the sponge.
   */
  lemma {:induction false} HoldInStroke(p: Point, q: Point)
    requires p.nth == 0 && q.nth == 1
    ensures var run := [Action(0.0, Press(p.x, p.y, false)), Action(1.0, Move(q.x, q.y, true)),
                        Action(2.0, Hold(true, p.x, p.y)), Action(3.0, Release)];
      var u := Play(BLANK, run);
      && u.live[0] == [Segment(p, q), Sponge(p)] && u.events[0] == [Erase(2.0, 3.0, [p, q])]
      && Picture(u.events[0], 4.0) == [Sponge(p), Sponge(q)] && !AccountOf(BLANK, run, 0).Even()
  {
    var a, b := Action(0.0, Press(p.x, p.y, false)), Action(1.0, Move(q.x, q.y, true));
    var c, d := Action(2.0, Hold(true, p.x, p.y)), Action(3.0, Release);
    HeldLine(p, q);
    OneMore(BLANK, [a, b, c], d, 0);
    assert [a, b, c] + [d] == [a, b, c, d];
    WipedLine(p, q);
  }

  lemma {:induction false} HeldLine(p: Point, q: Point)
    requires p.nth == 0 && q.nth == 1
    ensures var run := [Action(0.0, Press(p.x, p.y, false)), Action(1.0, Move(q.x, q.y, true)),
                        Action(2.0, Hold(true, p.x, p.y))];
      var u := Play(BLANK, run);
      && u.mode == 0 && u.pending == Some(Pending(true, 2.0, [p, q], q))
      && u.live[0] == [Segment(p, q), Sponge(p)] && u.events[0] == []
      && AccountOf(BLANK, run, 0) == Account(true, 2, false, true)
  {
    var a, b := Action(0.0, Press(p.x, p.y, false)), Action(1.0, Move(q.x, q.y, true));
    var c := Action(2.0, Hold(true, p.x, p.y));
    assert [] + [a] == [a] && [a] + [b] == [a, b] && [a, b] + [c] == [a, b, c];
    OneMore(BLANK, [], a, 0);
    OneMore(BLANK, [a], b, 0);
    assert [p] + [q] == [p, q];
    OneMore(BLANK, [a, b], c, 0);
    assert Play(BLANK, [a, b]).live[0] == [Segment(p, q)];
  }

  lemma {:induction false} WipedLine(p: Point, q: Point)
    ensures var erase := Erase(2.0, 3.0, [p, q]);
      Recorded([], erase) == [erase] && Picture([erase], 4.0) == [Sponge(p), Sponge(q)]
  {
    var erase := Erase(2.0, 3.0, [p, q]);
    PictureOver([erase], 4.0);
    assert [erase][..0] == [] && Strokes(erase) == [Sponge(p), Sponge(q)];
  }

  /** Two fingers, and then the timer of the first: its sponge is on the canvas alone. */
  lemma {:induction false} HoldOfOther()
    ensures var run := [Action(0.0, Press(0.0, 0.0, false)), Action(0.1, Press(5.0, 5.0, false)),
                        Action(0.5, Hold(false, 0.0, 0.0)), Action(1.0, Move(6.0, 5.0, true)), Action(2.0, Release)];
      !AccountOf(BLANK, run, 0).Even()
  {
    var a, b := Action(0.0, Press(0.0, 0.0, false)), Action(0.1, Press(5.0, 5.0, false));
    var c, d, e := Action(0.5, Hold(false, 0.0, 0.0)), Action(1.0, Move(6.0, 5.0, true)), Action(2.0, Release);
    assert [] + [a] == [a] && [a] + [b] == [a, b] && [a, b] + [c] == [a, b, c] && [a, b, c] + [d] == [a, b, c, d];
    assert [a, b, c, d] + [e] == [a, b, c, d, e];
    OneMore(BLANK, [], a, 0);
    OneMore(BLANK, [a], b, 0);
    OneMore(BLANK, [a, b], c, 0);
    OneMore(BLANK, [a, b, c], d, 0);
    OneMore(BLANK, [a, b, c, d], e, 0);
  }

  /** A stroke that leaves the canvas: the replay draws it there all the same. */
  lemma {:induction false} StrokeOutside()
    ensures var run := [Action(0.0, Press(0.0, 0.0, false)), Action(1.0, Move(9.0, 9.0, false)), Action(2.0, Release)];
      !AccountOf(BLANK, run, 0).Even() && Play(BLANK, run).live[0] == []
  {
    var a, b, c := Action(0.0, Press(0.0, 0.0, false)), Action(1.0, Move(9.0, 9.0, false)), Action(2.0, Release);
    assert [] + [a] == [a] && [a] + [b] == [a, b] && [a, b] + [c] == [a, b, c];
    OneMore(BLANK, [], a, 0);
    OneMore(BLANK, [a], b, 0);
    OneMore(BLANK, [a, b], c, 0);
  }
}
