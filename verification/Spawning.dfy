/**
 Spawning the objects of the server's world at its clients, over a network that loses, repeats and
 reorders packets: the server's and the client's steps, and what holds in every run.
 */
module Spawning {
  import opened Bits
  import opened Options

  datatype Position = Position(x: real, y: real, z: real)

  datatype GameObject = GameObject(goid: Word, position: Position)

  type Table = map<Word, GameObject>

  datatype Command = Start | Quit | Heartbeat | Data | Enter | OtherCommand

  /** A packet to the server; nothing behind the header is no body. */
  datatype Request = Request(command: Command, sid: Word, body: Option<Body>)

  datatype Body = Body(guid: int, sid: Word)

  datatype Response =
    | Started(guid: int, sid: Word)
    | Left(guid: int, sid: Word)
    | Spawn(spawned: GameObject)
    | Replicated

  datatype Sent = Sent(to: nat, response: Response)

  // ---- the server ----

  datatype Session = Session(address: nat, guid: int)

  datatype Server = Server(world: Table, sidSeq: Word, sessions: map<Word, Session>)

  function NextSid(s: Server): Word
  {
    (s.sidSeq + 1) % TWO32
  }

  /** Every object of the world, to the given address. */
  function SpawnAll(world: Table, to: nat): set<Sent>
  {
    set g | g in world :: Sent(to, Spawn(world[g]))
  }

  function SpawnAllToAll(world: Table, sessions: map<Word, Session>): set<Sent>
  {
    set sid, g | sid in sessions && g in world :: Sent(sessions[sid].address, Spawn(world[g]))
  }

  /** Requests without a body, and all but START without a session, are dropped. */
  predicate Accepted(s: Server, request: Request)
  {
    request.body.Some? && (request.sid in s.sessions || request.command.Start?)
  }

  /** OnRecvBytes(): the server afterwards. */
  function Served(s: Server, from: nat, request: Request): Server
  {
    if !Accepted(s, request) then s
    else if request.command.Start? then
      s.(sidSeq := NextSid(s), sessions := s.sessions[NextSid(s) := Session(from, request.body.value.guid)])
    else if request.command.Quit? then s.(sessions := s.sessions - {request.body.value.sid})
    else s
  }

  /** OnRecvBytes(): what the server sends. */
  function Answers(s: Server, from: nat, request: Request): set<Sent>
  {
    if !Accepted(s, request) then {}
    else
      match request.command
      case Start => {Sent(from, Started(request.body.value.guid, NextSid(s)))}
      case Quit => {Sent(s.sessions[request.sid].address, Left(request.body.value.guid, request.body.value.sid))}
      case Enter =>
        // session zero stands for all
        if request.sid == 0 then SpawnAllToAll(s.world, s.sessions)
        else SpawnAll(s.world, s.sessions[request.sid].address)
      case _ => {}
  }

  /** A START gives the next session id to whoever asks, from whatever session, and tells it; nothing else changes. */
  lemma {:induction false} StartServed(s: Server, from: nat, request: Request, other: Word)
    requires request.command.Start? && request.body.Some?
    ensures var t, sid := Served(s, from, request), (s.sidSeq + 1) % TWO32;
      && t.world == s.world && t.sidSeq == sid
      && sid in t.sessions && t.sessions[sid] == Session(from, request.body.value.guid)
      && (other != sid ==> (other in t.sessions <==> other in s.sessions))
      && (other != sid && other in s.sessions ==> t.sessions[other] == s.sessions[other])
      && Answers(s, from, request) == {Sent(from, Started(request.body.value.guid, sid))}
  {
  }

  /**
   A QUIT from a session ends the session that its body names, and no other.  The answer, which names both
   fields of the body, goes to the address of the session that asked.
   */
  lemma {:induction false} QuitServed(s: Server, from: nat, request: Request, other: Word)
    requires request.command.Quit? && request.body.Some? && request.sid in s.sessions
    ensures var t := Served(s, from, request);
      && t.world == s.world && t.sidSeq == s.sidSeq
      && request.body.value.sid !in t.sessions
      && (other != request.body.value.sid ==> (other in t.sessions <==> other in s.sessions))
      && (other in t.sessions ==> t.sessions[other] == s.sessions[other])
      && Answers(s, from, request) ==
         {Sent(s.sessions[request.sid].address, Left(request.body.value.guid, request.body.value.sid))}
  {
  }

  /** An ENTER from a session changes nothing and is answered by one packet of every object, for zero to everyone. */
  lemma {:induction false} EnterServed(s: Server, from: nat, request: Request, p: Sent)
    requires request.command.Enter? && request.body.Some? && request.sid in s.sessions
    ensures Served(s, from, request) == s
    ensures p in Answers(s, from, request) <==>
            && p.response.Spawn? && p.response.spawned in s.world.Values
            && exists sid :: sid in s.sessions && (request.sid == 0 || sid == request.sid)
                             && p.to == s.sessions[sid].address
  {
    if p in Answers(s, from, request) {
      if request.sid == 0 {
        var sid, g :| sid in s.sessions && g in s.world && p == Sent(s.sessions[sid].address, Spawn(s.world[g]));
      } else {
        assert request.sid in s.sessions;
      }
    }
  }

  /** Requests without a session that the server knows, other than START, and those without a body do nothing. */
  lemma {:induction false} StrangerIgnored(s: Server, from: nat, request: Request)
    requires request.body.None? || (request.sid !in s.sessions && !request.command.Start?)
    ensures Served(s, from, request) == s && Answers(s, from, request) == {}
  {
  }

  /** The other commands do nothing at all. */
  lemma {:induction false} OthersIgnored(s: Server, from: nat, request: Request)
    requires request.command.Heartbeat? || request.command.Data? || request.command.OtherCommand?
    ensures Served(s, from, request) == s && Answers(s, from, request) == {}
  {
  }

  // ---- the client ----

  datatype Status = CsNone | CsStart | CsReady | CsQuit

  datatype Client = Client(status: Status, sid: Word, commands: seq<Command>, pending: seq<Response>, gos: Table)

  const NEW_CLIENT := Client(CsNone, 0, [], [], map[])

  /** One packet of the pending list. */
  function Resolved(c: Client, r: Response): Client
  {
    match r
    case Started(_, sid) => c.(sid := sid, status := CsStart)
    case Left(_, _) => c.(sid := 0, status := CsQuit)
    case Spawn(o) => if o.goid in c.gos then c else c.(gos := c.gos[o.goid := o])
    case Replicated => c
  }

  /** What a packet does to a client: a session gained, one lost, an object whose id is new, or nothing. */
  lemma {:induction false} ResolvedIs(c: Client, r: Response)
    ensures r.Started? ==> Resolved(c, r).sid == r.sid && Resolved(c, r).status == CsStart
    ensures r.Left? ==> Resolved(c, r).sid == 0 && Resolved(c, r).status == CsQuit
    ensures !r.Started? && !r.Left? ==> Resolved(c, r).sid == c.sid && Resolved(c, r).status == c.status
    ensures !r.Spawn? ==> Resolved(c, r).gos == c.gos
    ensures Resolved(c, r).commands == c.commands && Resolved(c, r).pending == c.pending
  {
  }

  function ResolvedAll(c: Client, rs: seq<Response>): Client
  {
    if rs == [] then c else Resolved(ResolvedAll(c, rs[..|rs| - 1]), rs[|rs| - 1])
  }

  /** OnUpdate(): a client that has started asks to enter, then the pending packets are resolved. */
  function Updated(c: Client): Client
  {
    var c1 := if c.status.CsStart? then c.(commands := c.commands + [Enter], status := CsReady) else c;
    ResolvedAll(c1, c.pending).(pending := [])
  }

  /** An update leaves nothing pending; a client that had started has one command more, and is ready. */
  lemma {:induction false} UpdatedIs(c: Client)
    ensures Updated(c).pending == []
    ensures Updated(c).commands == if c.status.CsStart? then c.commands + [Enter] else c.commands
    ensures (forall r :: r in c.pending ==> !r.Started? && !r.Left?) ==>
              && Updated(c).sid == c.sid
              && Updated(c).status == if c.status.CsStart? then CsReady else c.status
  {
    var c1 := if c.status.CsStart? then c.(commands := c.commands + [Enter], status := CsReady) else c;
    ResolvedCommands(c1, c.pending);
    if forall r :: r in c.pending ==> !r.Started? && !r.Left? {
      SessionKept(c1, c.pending);
    }
  }

  lemma {:induction false} SessionKept(c: Client, rs: seq<Response>)
    requires forall r :: r in rs ==> !r.Started? && !r.Left?
    ensures ResolvedAll(c, rs).sid == c.sid && ResolvedAll(c, rs).status == c.status
  {
    if rs != [] {
      SessionKept(c, rs[..|rs| - 1]);
      assert rs[|rs| - 1] in rs;
    }
  }

  /** Every client has the same one. */
  const GUID := 10908259400932504

  /** NetCommandDispatcher(): the packets that commands become; other commands have packets without a session. */
  function RequestsOf(sid: Word, commands: seq<Command>): set<Request>
  {
    (if Start in commands then {Request(Start, 0, Some(Body(GUID, 0)))} else {})
    + (if Quit in commands then {Request(Quit, sid, Some(Body(GUID, sid)))} else {})
    + (if Enter in commands then {Request(Enter, sid, Some(Body(GUID, sid)))} else {})
  }

  /** One request for each command there is: a START without a session, QUIT and ENTER with that of the client. */
  lemma {:induction false} RequestsAre(sid: Word, commands: seq<Command>, r: Request)
    ensures r in RequestsOf(sid, commands) <==>
            && r.command in commands && (r.command.Start? || r.command.Quit? || r.command.Enter?)
            && r.sid == (if r.command.Start? then 0 else sid) && r.body == Some(Body(GUID, r.sid))
  {
  }

  /** The ids of the objects in a list of packets. */
  function Ids(rs: seq<Response>): set<Word>
  {
    set r | r in rs && r.Spawn? :: r.spawned.goid
  }

  /** The object of the first packet with an id. */
  function FirstOf(rs: seq<Response>, g: Word): Option<GameObject>
  {
    if rs == [] then None
    else
      var before, last := FirstOf(rs[..|rs| - 1], g), rs[|rs| - 1];
      if before.None? && last.Spawn? && last.spawned.goid == g then Some(last.spawned) else before
  }

  lemma {:induction false} FirstConcat(a: seq<Response>, b: seq<Response>, g: Word)
    ensures FirstOf(a + b, g) == if FirstOf(a, g).Some? then FirstOf(a, g) else FirstOf(b, g)
  {
    if b == [] {
      assert a + b == a;
    } else {
      assert (a + b)[..|a + b| - 1] == a + b[..|b| - 1];
      FirstConcat(a, b[..|b| - 1], g);
    }
  }

  /** There is a first packet exactly for the ids in the list, and it is one of the list with that id. */
  lemma {:induction false} FirstHas(rs: seq<Response>, g: Word)
    ensures FirstOf(rs, g).Some? <==> g in Ids(rs)
    ensures FirstOf(rs, g).Some? ==> Spawn(FirstOf(rs, g).value) in rs && FirstOf(rs, g).value.goid == g
  {
    if rs != [] {
      var before, last := rs[..|rs| - 1], rs[|rs| - 1];
      FirstHas(before, g);
      assert rs == before + [last];
      assert Ids(rs) == Ids(before) + if last.Spawn? then {last.spawned.goid} else {};
    }
  }

  /** A packet with no other of its id before it is the first. */
  lemma {:induction false} FirstWins(a: seq<Response>, o: GameObject, b: seq<Response>)
    requires o.goid !in Ids(a)
    ensures FirstOf(a + [Spawn(o)] + b, o.goid) == Some(o)
  {
    FirstHas(a, o.goid);
    FirstConcat(a + [Spawn(o)], b, o.goid);
    FirstConcat(a, [Spawn(o)], o.goid);
    assert [Spawn(o)][..0] == [];
  }

  /** What the second table had stays, and of every other id the first has the object of the first packet. */
  ghost predicate Learnt(after: Table, before: Table, rs: seq<Response>)
  {
    && Extends(after, before)
    && forall g :: g !in before ==>
         if g in after then FirstOf(rs, g) == Some(after[g]) else FirstOf(rs, g) == None
  }

  /** An update learns from the packets in their order: of two with the same id the first counts. */
  lemma {:induction false} ResolvedTable(c: Client, rs: seq<Response>)
    ensures Learnt(ResolvedAll(c, rs).gos, c.gos, rs)
  {
    if rs != [] {
      ResolvedTable(c, rs[..|rs| - 1]);
    }
  }

  lemma {:induction false} LearntMore(t: Table, u: Table, v: Table, a: seq<Response>, b: seq<Response>)
    requires Learnt(u, t, a) && Learnt(v, u, b)
    ensures Learnt(v, t, a + b)
  {
    forall g | g !in t
      ensures if g in v then FirstOf(a + b, g) == Some(v[g]) else FirstOf(a + b, g) == None
    {
      FirstConcat(a, b, g);
    }
  }

  lemma {:induction false} LearntKeys(after: Table, before: Table, rs: seq<Response>)
    requires Learnt(after, before, rs)
    ensures after.Keys == before.Keys + Ids(rs)
    ensures forall g :: g in after && g !in before ==> Spawn(after[g]) in rs && after[g].goid == g
  {
    forall g: Word ensures g in after <==> g in before || g in Ids(rs) {
      FirstHas(rs, g);
    }
    forall g | g in after && g !in before ensures Spawn(after[g]) in rs && after[g].goid == g {
      FirstHas(rs, g);
    }
  }

  /** Every entry of the second table is one of the first. */
  ghost predicate Extends(larger: Table, smaller: Table)
  {
    forall g :: g in smaller ==> g in larger && larger[g] == smaller[g]
  }

  // ---- runs ----

  /** The whole system; every packet sent so far may arrive at any time, any number of times or never. */
  datatype System = System(
    server: Server,
    clients: map<nat, Client>,
    asked: set<Asked>,        // what the clients have sent
    sent: set<Sent>,          // what the server has sent
    known: set<GameObject>)   // what has been in the world

  datatype Asked = Asked(from: nat, request: Request)

  datatype Step =
    | Serve(from: nat, request: Request)        // any request from anywhere, forged ones included
    | Deliver(packet: Sent)
    | Update(at: nat)
    | Push(at: nat, command: Command)           // what the user may type: start, quit, anything else is data
    | Dispatch(at: nat)
    | Tick(moved: map<Word, Position>)

  function Moved(world: Table, moved: map<Word, Position>): Table
  {
    map g | g in world :: if g in moved then world[g].(position := moved[g]) else world[g]
  }

  /** What a client may do, or the network to it; a user types start or quit, and anything else is data. */
  predicate Enabled(s: System, step: Step)
  {
    match step
    case Serve(_, _) => true
    case Deliver(packet) => packet in s.sent && packet.to in s.clients
    case Update(at) => at in s.clients && s.clients[at].pending != []
    case Push(at, command) => at in s.clients && (command.Start? || command.Quit? || command.Data?)
    case Dispatch(at) => at in s.clients
    case Tick(_) => true
  }

  /** What the server tells everyone after moving its objects. */
  function Replications(sessions: map<Word, Session>): set<Sent>
  {
    set sid | sid in sessions :: Sent(sessions[sid].address, Replicated)
  }

  /** A tick moves what it moves, keeps all else of the world, and tells every session. */
  lemma {:induction false} TickIs(s: System, moved: map<Word, Position>, g: Word, p: Sent)
    ensures var t := After(s, Tick(moved));
      && (g in t.server.world <==> g in s.server.world)
      && (g in s.server.world ==>
            t.server.world[g] ==
            GameObject(s.server.world[g].goid, if g in moved then moved[g] else s.server.world[g].position))
      && t.server.sessions == s.server.sessions && t.clients == s.clients && t.asked == s.asked
      && (p in t.sent <==>
            || p in s.sent
            || (p.response.Replicated?
                && exists sid :: sid in s.server.sessions && s.server.sessions[sid].address == p.to))
  {
  }

  function After(s: System, step: Step): System
  {
    if !Enabled(s, step) then s
    else
      match step
      case Serve(from, request) =>
        s.(server := Served(s.server, from, request), sent := s.sent + Answers(s.server, from, request))
      case Deliver(packet) =>
        var c := s.clients[packet.to];
        s.(clients := s.clients[packet.to := c.(pending := c.pending + [packet.response])])
      case Update(at) => s.(clients := s.clients[at := Updated(s.clients[at])])
      case Push(at, command) =>
        s.(clients := s.clients[at := s.clients[at].(commands := s.clients[at].commands + [command])])
      case Dispatch(at) =>
        var c := s.clients[at];
        s.(clients := s.clients[at := c.(commands := [])],
           asked := s.asked + set r | r in RequestsOf(c.sid, c.commands) :: Asked(at, r))
      case Tick(moved) =>
        var world := Moved(s.server.world, moved);
        s.(server := s.server.(world := world), sent := s.sent + Replications(s.server.sessions),
           known := s.known + world.Values)
  }

  function Play(s: System, steps: seq<Step>): System
    decreases |steps|
  {
    if steps == [] then s else Play(After(s, steps[0]), steps[1..])
  }

  /** An object that the world has had, under its id. */
  ghost predicate Genuine(s: System, o: GameObject)
  {
    o in s.known && o.goid in s.server.world
  }

  ghost predicate GenuineTable(s: System, table: Table)
  {
    forall g :: g in table ==> table[g].goid == g && Genuine(s, table[g])
  }

  ghost predicate GenuineClient(s: System, c: Client)
  {
    && GenuineTable(s, c.gos)
    && forall r :: r in c.pending && r.Spawn? ==> Genuine(s, r.spawned)
  }

  ghost predicate GenuineSent(s: System)
  {
    forall p :: p in s.sent && p.response.Spawn? ==> Genuine(s, p.response.spawned)
  }

  /** Whatever travels, waits or is stored is an object that the world has had. */
  ghost predicate Inv(s: System)
  {
    && GenuineTable(s, s.server.world)
    && GenuineSent(s)
    && forall at :: at in s.clients ==> GenuineClient(s, s.clients[at])
  }

  /** A server with its world, and clients that have not started. */
  ghost predicate Initial(s: System)
  {
    && (forall g :: g in s.server.world ==> s.server.world[g].goid == g)
    && s.known == s.server.world.Values
    && s.asked == {} && s.sent == {} && forall at :: at in s.clients ==> s.clients[at] == NEW_CLIENT
  }

  lemma {:induction false} InitialInv(s: System)
    requires Initial(s)
    ensures Inv(s)
  {
  }

  /** Between two systems the world keeps its ids and what is known is not forgotten. */
  ghost predicate Onward(s: System, t: System)
  {
    t.server.world.Keys == s.server.world.Keys && s.known <= t.known
  }

  lemma {:induction false} GenuineOnward(s: System, t: System, c: Client)
    requires Onward(s, t) && GenuineClient(s, c)
    ensures GenuineClient(t, c)
  {
    forall g | g in c.gos ensures Genuine(t, c.gos[g]) {
      assert Genuine(s, c.gos[g]);
    }
    forall r | r in c.pending && r.Spawn? ensures Genuine(t, r.spawned) {
      assert Genuine(s, r.spawned);
    }
  }

  lemma {:induction false} UpdatedGenuine(s: System, c: Client)
    requires GenuineClient(s, c)
    ensures GenuineClient(s, Updated(c)) && Learnt(Updated(c).gos, c.gos, c.pending)
  {
    var c1 := if c.status.CsStart? then c.(commands := c.commands + [Enter], status := CsReady) else c;
    var c2 := ResolvedAll(c1, c.pending);
    ResolvedTable(c1, c.pending);
    LearntKeys(c2.gos, c.gos, c.pending);
    forall g | g in c2.gos ensures c2.gos[g].goid == g && Genuine(s, c2.gos[g]) {
      if g in c.gos {
        assert c2.gos[g] == c.gos[g];
      } else {
        assert Genuine(s, Spawn(c2.gos[g]).spawned);
      }
    }
  }

  /** The packets that a step resolves at a client. */
  function TakenBy(s: System, step: Step, at: nat): seq<Response>
  {
    if Enabled(s, step) && step == Update(at) then s.clients[at].pending else []
  }

  /** One step keeps all that is known to be genuine, and tables only grow. */
  lemma {:induction false} StepKeeps(s: System, step: Step)
    requires Inv(s)
    ensures var t := After(s, step);
      && Inv(t) && Onward(s, t) && t.clients.Keys == s.clients.Keys
      && forall at {:trigger t.clients[at]} :: at in s.clients ==>
           Learnt(t.clients[at].gos, s.clients[at].gos, TakenBy(s, step, at))
  {
    var t := After(s, step);
    StepOnward(s, step);
    StepSent(s, step);
    forall at | at in s.clients
      ensures GenuineClient(t, t.clients[at]) && Learnt(t.clients[at].gos, s.clients[at].gos, TakenBy(s, step, at))
    {
      StepClient(s, step, at);
    }
  }

  lemma {:induction false} StepOnward(s: System, step: Step)
    requires Inv(s)
    ensures var t := After(s, step);
      Onward(s, t) && t.clients.Keys == s.clients.Keys && GenuineTable(t, t.server.world)
  {
    var t := After(s, step);
    forall g | g in t.server.world ensures t.server.world[g].goid == g && Genuine(t, t.server.world[g]) {
      assert Genuine(s, s.server.world[g]);
      if step.Tick? {
        assert t.server.world[g] in t.server.world.Values;
      }
    }
  }

  lemma {:induction false} StepSent(s: System, step: Step)
    requires Inv(s)
    ensures GenuineSent(After(s, step))
  {
    var t := After(s, step);
    StepOnward(s, step);
    forall p | p in t.sent && p.response.Spawn? ensures Genuine(t, p.response.spawned) {
      if p in s.sent {
        assert Genuine(s, p.response.spawned);
      } else {
        assert step.Serve?;
        AnswersGenuine(s, step.from, step.request, p);
      }
    }
  }

  lemma {:induction false} AnswersGenuine(s: System, from: nat, request: Request, p: Sent)
    requires Inv(s) && p in Answers(s.server, from, request) && p.response.Spawn?
    ensures Genuine(s, p.response.spawned)
  {
    var g :| g in s.server.world && p.response == Spawn(s.server.world[g]);
    assert Genuine(s, s.server.world[g]);
  }

  lemma {:induction false} StepClient(s: System, step: Step, at: nat)
    requires Inv(s) && at in s.clients
    ensures var c, c', t := s.clients[at], After(s, step).clients[at], After(s, step);
      GenuineClient(t, c') && Learnt(c'.gos, c.gos, TakenBy(s, step, at))
  {
    var c, t := s.clients[at], After(s, step);
    StepOnward(s, step);
    if step == Update(at) && Enabled(s, step) {
      UpdatedGenuine(s, c);
      GenuineOnward(s, t, Updated(c));
    } else {
      GenuineOnward(s, t, c);
      if step.Deliver? && Enabled(s, step) && step.packet.response.Spawn? {
        assert Genuine(s, step.packet.response.spawned);
      }
    }
  }

  /** All packets resolved at a client in a run, in their order. */
  function Taken(s: System, steps: seq<Step>, at: nat): seq<Response>
    decreases |steps|
  {
    if steps == [] then [] else TakenBy(s, steps[0], at) + Taken(After(s, steps[0]), steps[1..], at)
  }

  /**
   In every run tables grow, by exactly the objects resolved, of each the one of its first packet, and hold
   only what the world has had.
   */
  lemma {:induction false} RunKeeps(s: System, steps: seq<Step>, at: nat)
    requires Inv(s) && at in s.clients
    ensures var t := Play(s, steps);
      && Inv(t) && Onward(s, t) && at in t.clients
      && Learnt(t.clients[at].gos, s.clients[at].gos, Taken(s, steps, at))
    decreases |steps|
  {
    if steps != [] {
      var t := After(s, steps[0]);
      StepKeeps(s, steps[0]);
      RunKeeps(t, steps[1..], at);
      LearntMore(s.clients[at].gos, t.clients[at].gos, Play(s, steps).clients[at].gos, TakenBy(s, steps[0], at),
                 Taken(t, steps[1..], at));
    }
  }

  // ---- a world at rest ----

  predicate Still(steps: seq<Step>)
  {
    forall i :: 0 <= i < |steps| && steps[i].Tick? ==> steps[i].moved == map[]
  }

  lemma {:induction false} StillWorld(s: System, steps: seq<Step>)
    requires Still(steps)
    ensures Play(s, steps).server.world == s.server.world
    ensures s.server.world.Values <= s.known ==> Play(s, steps).known == s.known
    decreases |steps|
  {
    if steps != [] {
      var t := After(s, steps[0]);
      assert t.server.world == s.server.world by {
        if steps[0].Tick? {
          assert Moved(s.server.world, map[]) == s.server.world;
        }
      }
      StillWorld(t, steps[1..]);
    }
  }

  /**
   While nothing moves, a client's table is always part of the world, and it is the whole world exactly
   when a packet of every object has been resolved.
   */
  lemma {:induction false} TableIsPartOfWorld(s: System, steps: seq<Step>, at: nat)
    requires Initial(s) && Still(steps) && at in s.clients
    ensures var t := Play(s, steps);
      && at in t.clients && Extends(s.server.world, t.clients[at].gos)
      && (t.clients[at].gos == s.server.world <==> s.server.world.Keys <= Ids(Taken(s, steps, at)))
  {
    InitialInv(s);
    RunKeeps(s, steps, at);
    StillWorld(s, steps);
    var t := Play(s, steps);
    var world, gos := s.server.world, t.clients[at].gos;
    forall g | g in gos ensures g in world && world[g] == gos[g] {
      assert Genuine(t, gos[g]);
      var h :| h in world && world[h] == gos[g];
    }
    LearntKeys(gos, s.clients[at].gos, Taken(s, steps, at));
  }

  /** In a world that moves, a client keeps every object where its first packet resolved said it was. */
  lemma {:induction false} FirstPositionStays(s: System, steps: seq<Step>, more: seq<Step>, at: nat,
          a: seq<Response>, o: GameObject, b: seq<Response>)
    requires Inv(s) && at in s.clients && o.goid !in s.clients[at].gos
    requires Taken(s, steps, at) == a + [Spawn(o)] + b && o.goid !in Ids(a)
    ensures var t, u := Play(s, steps), Play(Play(s, steps), more);
      && at in u.clients && o.goid in u.clients[at].gos && u.clients[at].gos[o.goid] == o
      && o in t.known
  {
    RunKeeps(s, steps, at);
    var t := Play(s, steps);
    FirstWins(a, o, b);
    assert t.clients[at].gos[o.goid] == o;
    RunKeeps(t, more, at);
    assert Genuine(t, t.clients[at].gos[o.goid]);
  }

  // ---- how a client gets there ----

  /** The server gets nothing but what clients have sent. */
  predicate Honest(s: System, steps: seq<Step>)
    decreases |steps|
  {
    steps == []
    || ((steps[0].Serve? ==> Asked(steps[0].from, steps[0].request) in s.asked)
        && Honest(After(s, steps[0]), steps[1..]))
  }

  lemma {:induction false} PlayConcat(s: System, a: seq<Step>, b: seq<Step>)
    ensures Play(s, a + b) == Play(Play(s, a), b)
    ensures Honest(s, a + b) <==> Honest(s, a) && Honest(Play(s, a), b)
    decreases |a|
  {
    if a == [] {
      assert a + b == b;
    } else {
      assert (a + b)[1..] == a[1..] + b;
      PlayConcat(After(s, a[0]), a[1..], b);
    }
  }

  lemma {:induction false} PlayOne(s: System, step: Step)
    ensures Play(s, [step]) == After(s, step)
    ensures Honest(s, [step]) <==> (step.Serve? ==> Asked(step.from, step.request) in s.asked)
  {
    assert [step][1..] == [];
    assert Play(After(s, step), []) == After(s, step);
  }

  /** The state after some honest steps, and one step more. */
  ghost predicate Leads(s: System, steps: seq<Step>, t: System)
  {
    Honest(s, steps) && Play(s, steps) == t
  }

  lemma {:induction false} LeadsOn(s: System, steps: seq<Step>, t: System, step: Step)
    requires Leads(s, steps, t) && (step.Serve? ==> Asked(step.from, step.request) in t.asked)
    ensures Leads(s, steps + [step], After(t, step))
  {
    PlayConcat(s, steps, [step]);
    PlayOne(t, step);
  }

  lemma {:induction false} LeadsThen(s: System, a: seq<Step>, t: System, b: seq<Step>, u: System)
    requires Leads(s, a, t) && Leads(t, b, u)
    ensures Leads(s, a + b, u)
  {
    PlayConcat(s, a, b);
  }

  /** The client has a session that the server knows, and nothing waits. */
  ghost predicate Connected(s: System, at: nat, sid: Word)
  {
    && at in s.clients && s.clients[at].sid == sid && s.clients[at].pending == []
    && sid in s.server.sessions && s.server.sessions[sid].address == at
  }

  /** From any state a client can start: its request, the answer, and the update that takes the session id. */
  lemma {:induction false} CanStart(s: System, at: nat) returns (steps: seq<Step>, t: System, sid: Word)
    requires at in s.clients
    ensures Leads(s, steps, t) && Connected(t, at, sid) && t.clients[at].status.CsStart?
  {
    steps, t := [], s;
    var request := Request(Start, 0, Some(Body(GUID, 0)));
    steps, t := More(s, steps, t, Update(at));
    assert t.clients[at].pending == [];
    steps, t := More(s, steps, t, Push(at, Start));
    assert Start in t.clients[at].commands;
    steps, t := More(s, steps, t, Dispatch(at));
    assert Asked(at, request) in t.asked;
    sid := NextSid(t.server);
    steps, t := More(s, steps, t, Serve(at, request));
    var answer := Sent(at, Started(GUID, sid));
    steps, t := More(s, steps, t, Deliver(answer));
    assert t.clients[at].pending == [answer.response];
    ResolvedOne(t.clients[at], answer.response);
    steps, t := More(s, steps, t, Update(at));
  }

  lemma {:induction false} More(s: System, steps: seq<Step>, t: System, step: Step)
    returns (steps': seq<Step>, t': System)
    requires Leads(s, steps, t) && (step.Serve? ==> Asked(step.from, step.request) in t.asked)
    ensures steps' == steps + [step] && t' == After(t, step) && Leads(s, steps', t')
  {
    LeadsOn(s, steps, t, step);
    steps', t' := steps + [step], After(t, step);
  }

  lemma {:induction false} ResolvedOne(c: Client, r: Response)
    requires c.pending == [r]
    ensures var c1 := if c.status.CsStart? then c.(commands := c.commands + [Enter], status := CsReady) else c;
      Updated(c) == Resolved(c1, r).(pending := [])
  {
    var c1 := if c.status.CsStart? then c.(commands := c.commands + [Enter], status := CsReady) else c;
    assert [r][..0] == [];
    assert ResolvedAll(c1, [r]) == Resolved(ResolvedAll(c1, []), r);
  }

  /** A started client gets to enter once the next packet comes, here one about a tick. */
  lemma {:induction false} CanEnter(s: System, at: nat, sid: Word) returns (steps: seq<Step>, t: System)
    requires Connected(s, at, sid) && s.clients[at].status.CsStart?
    ensures Leads(s, steps, t) && at in t.clients && t.clients[at].pending == [] && t.server.world == s.server.world
    ensures SpawnAll(s.server.world, at) <= t.sent && Asked(at, Request(Enter, sid, Some(Body(GUID, sid)))) in t.asked
  {
    steps, t := [], s;
    steps, t := More(s, steps, t, Tick(map[]));
    assert t.server.world == s.server.world;
    var packet := Sent(at, Replicated);
    assert packet == Sent(s.server.sessions[sid].address, Replicated);
    steps, t := More(s, steps, t, Deliver(packet));
    assert t.clients[at].pending == [Replicated];
    ResolvedOne(t.clients[at], Replicated);
    steps, t := More(s, steps, t, Update(at));
    assert Enter in t.clients[at].commands;
    steps, t := More(s, steps, t, Dispatch(at));
    var request := Request(Enter, sid, Some(Body(GUID, sid)));
    assert Asked(at, request) in t.asked;
    steps, t := More(s, steps, t, Serve(at, request));
    forall p | p in SpawnAll(s.server.world, at) ensures p in t.sent {
      var g :| g in s.server.world && p == Sent(at, Spawn(s.server.world[g]));
      assert p == Sent(s.server.sessions[sid].address, Spawn(s.server.world[g]));
    }
  }

  // ---- when a session is over ----

  /** Some step gives out the session id. */
  predicate GivesOut(s: System, step: Step, sid: Word)
  {
    step.Serve? && step.request.command.Start? && step.request.body.Some? && NextSid(s.server) == sid
  }

  predicate NeverGivenOut(s: System, steps: seq<Step>, sid: Word)
    decreases |steps|
  {
    steps == [] || (!GivesOut(s, steps[0], sid) && NeverGivenOut(After(s, steps[0]), steps[1..], sid))
  }

  lemma {:induction false} StaysOut(s: System, steps: seq<Step>, sid: Word)
    requires sid !in s.server.sessions && NeverGivenOut(s, steps, sid)
    ensures sid !in Play(s, steps).server.sessions
    decreases |steps|
  {
    if steps != [] {
      StaysOut(After(s, steps[0]), steps[1..], sid);
    }
  }

  /**
   After a QUIT was served that names a session, and until a START gives out its id again, no request from that
   session does anything, nor is it answered, unless it is a START.
   */
  lemma {:induction false} QuitIsFinal(s: System, from: nat, quit: Request, steps: seq<Step>, other: nat,
          request: Request)
    requires quit.command.Quit? && quit.body.Some? && quit.sid in s.server.sessions
    requires NeverGivenOut(After(s, Serve(from, quit)), steps, quit.body.value.sid)
    requires request.sid == quit.body.value.sid && !request.command.Start?
    ensures var t := Play(After(s, Serve(from, quit)), steps);
      && request.sid !in t.server.sessions && After(t, Serve(other, request)) == t
      && Answers(t.server, other, request) == {}
  {
    QuitServed(s.server, from, quit, request.sid);
    StaysOut(After(s, Serve(from, quit)), steps, request.sid);
    StrangerIgnored(Play(After(s, Serve(from, quit)), steps).server, other, request);
  }

  // ---- when a client asks to enter ----

  /** A client that has asked to enter at some time. */
  ghost predicate Entered(s: System, at: nat)
  {
    exists r: Request :: r.command.Enter? && Asked(at, r) in s.asked
  }

  /** The client has a session, and no command to enter. */
  predicate HasStarted(c: Client)
  {
    c.status.CsStart? && Enter !in c.commands
  }

  /** On its way into the world: started, with a packet pending, with the command to enter, and having asked. */
  ghost predicate Reached(s: System, at: nat, stage: nat)
  {
    at in s.clients
    && match stage
       case 0 => HasStarted(s.clients[at]) && s.clients[at].pending == [] && !Entered(s, at)
       case 1 => HasStarted(s.clients[at]) && s.clients[at].pending != [] && !Entered(s, at)
       case 2 => Enter in s.clients[at].commands && !Entered(s, at)
       case _ => Entered(s, at)
  }

  /** A packet is delivered, then the client updates, then it dispatches its commands. */
  function Forward(s: System, step: Step, at: nat, stage: nat): nat
  {
    match stage
    case 0 => if step.Deliver? && step.packet.to == at && step.packet in s.sent then 1 else 0
    case 1 => if step == Update(at) then 2 else 1
    case 2 => if step == Dispatch(at) then 3 else 2
    case _ => stage
  }

  function Stage(s: System, steps: seq<Step>, at: nat, stage: nat): nat
    decreases |steps|
  {
    if steps == [] then stage else Stage(After(s, steps[0]), steps[1..], at, Forward(s, steps[0], at, stage))
  }

  lemma {:induction false} ResolvedCommands(c: Client, rs: seq<Response>)
    ensures ResolvedAll(c, rs).commands == c.commands
  {
    if rs != [] {
      ResolvedCommands(c, rs[..|rs| - 1]);
    }
  }

  lemma {:induction false} StepForward(s: System, step: Step, at: nat, stage: nat)
    requires Reached(s, at, stage) && stage <= 3
    ensures Reached(After(s, step), at, Forward(s, step, at, stage)) && Forward(s, step, at, stage) <= 3
  {
    if step == Update(at) && Enabled(s, step) {
      var c := s.clients[at];
      var c1 := if c.status.CsStart? then c.(commands := c.commands + [Enter], status := CsReady) else c;
      ResolvedCommands(c1, c.pending);
    }
  }

  lemma {:induction false} RunForward(s: System, steps: seq<Step>, at: nat, stage: nat)
    requires Reached(s, at, stage) && stage <= 3
    ensures Reached(Play(s, steps), at, Stage(s, steps, at, stage)) && Stage(s, steps, at, stage) <= 3
    decreases |steps|
  {
    if steps != [] {
      StepForward(s, steps[0], at, stage);
      RunForward(After(s, steps[0]), steps[1..], at, Forward(s, steps[0], at, stage));
    }
  }

  /**
   In every run, a client that has a session, and nothing pending, asks to enter if and only if a further
   packet is delivered to it, then it updates, and then it dispatches.
   */
  lemma {:induction false} EnterIff(s: System, steps: seq<Step>, at: nat)
    requires Reached(s, at, 0)
    ensures Entered(Play(s, steps), at) <==> Stage(s, steps, at, 0) == 3
  {
    RunForward(s, steps, at, 0);
  }

  /** With nothing pending and nothing delivered, no client asks to enter that has not the command already. */
  lemma {:induction false} NoPacketNoEnter(s: System, steps: seq<Step>, at: nat, r: Request)
    requires at in s.clients && s.clients[at].pending == [] && Enter !in s.clients[at].commands && r.command.Enter?
    requires forall i :: 0 <= i < |steps| && steps[i].Deliver? ==> steps[i].packet.to != at
    ensures Asked(at, r) in Play(s, steps).asked <==> Asked(at, r) in s.asked
    decreases |steps|
  {
    if steps != [] {
      NoPacketNoEnter(After(s, steps[0]), steps[1..], at, r);
    }
  }

  /** Every object that has been sent can be delivered. */
  lemma {:induction false} CanDeliver(s: System, at: nat, ids: set<Word>) returns (steps: seq<Step>, t: System)
    requires at in s.clients && ids <= s.server.world.Keys && SpawnAll(s.server.world, at) <= s.sent
    requires forall g :: g in s.server.world ==> s.server.world[g].goid == g
    ensures Leads(s, steps, t) && t.server == s.server && t.sent == s.sent && at in t.clients
    ensures t.clients[at].gos == s.clients[at].gos && ids <= Ids(t.clients[at].pending)
    decreases |ids|
  {
    if ids == {} {
      return [], s;
    }
    var g :| g in ids;
    steps, t := CanDeliver(s, at, ids - {g});
    var packet, before := Sent(at, Spawn(s.server.world[g])), t.clients[at].pending;
    assert packet in SpawnAll(s.server.world, at);
    steps, t := More(s, steps, t, Deliver(packet));
    assert t.clients[at].pending == before + [packet.response];
    assert packet.response in t.clients[at].pending;
    forall h | h in ids ensures h in Ids(t.clients[at].pending) {
      if h != g {
        assert h in Ids(before);
      }
    }
  }

  /** From every state of every run there is a way, of honest steps, that gives a client all objects of the world. */
  lemma {:induction false} CanComplete(s: System, at: nat)
    requires Inv(s) && at in s.clients
    ensures exists steps :: Honest(s, steps) && at in Play(s, steps).clients
                            && Play(s, steps).clients[at].gos.Keys == s.server.world.Keys
  {
    var first, t := CanBeOffered(s, at);
    var second, u := CanTake(t, at);
    LeadsThen(s, first, t, second, u);
    assert Leads(s, first + second, u);
  }

  /** A client can start and enter, so that every object is sent to it. */
  lemma {:induction false} CanBeOffered(s: System, at: nat) returns (steps: seq<Step>, t: System)
    requires Inv(s) && at in s.clients
    ensures Leads(s, steps, t) && Inv(t) && at in t.clients && t.server.world.Keys == s.server.world.Keys
    ensures SpawnAll(t.server.world, at) <= t.sent
  {
    var first, u, sid := CanStart(s, at);
    var second;
    second, t := CanEnter(u, at, sid);
    LeadsThen(s, first, u, second, t);
    steps := first + second;
    RunKeeps(s, steps, at);
  }

  /** A client to which every object was sent can get them all. */
  lemma {:induction false} CanTake(s: System, at: nat) returns (steps: seq<Step>, t: System)
    requires Inv(s) && at in s.clients && SpawnAll(s.server.world, at) <= s.sent
    ensures Leads(s, steps, t) && at in t.clients && t.clients[at].gos.Keys == s.server.world.Keys
  {
    var delivered, u := CanDeliver(s, at, s.server.world.Keys);
    RunKeeps(s, delivered, at);
    steps, t := More(s, delivered, u, Update(at));
    StepKeeps(u, Update(at));
    UpdatedHasAll(u, at);
    TableKeys(t, at);
  }

  lemma {:induction false} UpdatedHasAll(s: System, at: nat)
    requires Inv(s) && at in s.clients && s.server.world.Keys <= Ids(s.clients[at].pending)
    ensures s.server.world.Keys <= After(s, Update(at)).clients[at].gos.Keys
  {
    var c := s.clients[at];
    UpdatedGenuine(s, c);
    LearntKeys(Updated(c).gos, c.gos, c.pending);
  }

  lemma {:induction false} TableKeys(s: System, at: nat)
    requires Inv(s) && at in s.clients
    ensures s.clients[at].gos.Keys <= s.server.world.Keys
  {
    forall g | g in s.clients[at].gos ensures g in s.server.world {
      assert Genuine(s, s.clients[at].gos[g]);
    }
  }
}
