/**
 The classes of the game server and client, each method proved against the steps of Spawning.
 */
module GameClasses {
  import opened Bits
  import opened Options
  import opened Spawning

  const SIDE: nat := 5

  /** The place of the k-th box of the grid. */
  function GridPosition(i: nat, j: nat): Position
  {
    Position(i as real * 2.0 - 16.0, 2.0 * j as real - 16.0, 0.0)
  }

  /** The first n boxes, row by row, with ids from zero. */
  function Grid(n: nat): Table
    requires n <= SIDE * SIDE
  {
    if n == 0 then map[] else Grid(n - 1)[n - 1 := GameObject(n - 1, GridPosition((n - 1) / SIDE, (n - 1) % SIDE))]
  }

  /** The ids are those below n, and each box is found under its own. */
  lemma {:induction false} GridHas(n: nat)
    requires n <= SIDE * SIDE
    ensures forall g: Word :: g in Grid(n) <==> g < n
    ensures forall g: Word :: g < n ==> Grid(n)[g] == GameObject(g, GridPosition(g / SIDE, g % SIDE))
  {
    if n > 0 {
      GridHas(n - 1);
    }
  }

  /** Five rows of five, two apart, the first at minus sixteen in both directions. */
  lemma {:induction false} GridPlaces(i: nat, j: nat)
    ensures GridPosition(0, 0) == Position(-16.0, -16.0, 0.0)
    ensures GridPosition(i + 1, j).x == GridPosition(i, j).x + 2.0 && GridPosition(i + 1, j).y == GridPosition(i, j).y
    ensures GridPosition(i, j + 1).x == GridPosition(i, j).x && GridPosition(i, j + 1).y == GridPosition(i, j).y + 2.0
    ensures GridPosition(i, j).z == 0.0
  {
  }

  /** No two boxes are at the same place. */
  lemma {:induction false} GridApart(g: Word, h: Word)
    requires g < SIDE * SIDE && h < SIDE * SIDE && g != h
    ensures GridPosition(g / SIDE, g % SIDE) != GridPosition(h / SIDE, h % SIDE)
  {
    assert g / SIDE != h / SIDE || g % SIDE != h % SIDE;
  }

  class World {
    var gos: Table
    var goidGenerator: Word

    constructor ()
      ensures gos == map[] && goidGenerator == 0
    {
      gos, goidGenerator := map[], 0;
    }

    /** Five by five boxes, each under its own id; no client is there yet. */
    method Initialize()
      requires gos == map[] && goidGenerator == 0
      modifies this
      ensures gos == Grid(SIDE * SIDE) && goidGenerator == SIDE * SIDE
    {
      for i := 0 to SIDE
        invariant goidGenerator == i * SIDE && gos == Grid(i * SIDE)
      {
        for j := 0 to SIDE
          invariant goidGenerator == i * SIDE + j && gos == Grid(i * SIDE + j)
        {
          assert goidGenerator / SIDE == i && goidGenerator % SIDE == j;
          gos := gos[goidGenerator := GameObject(goidGenerator, GridPosition(i, j))];
          goidGenerator := goidGenerator + 1;
        }
      }
    }
  }

  class SessionManager {
    var sidSeq: Word
    var sessions: map<Word, Session>

    constructor ()
      ensures sidSeq == 0 && sessions == map[]
    {
      sidSeq, sessions := 0, map[];
    }

    predicate IsSessionExist(sid: Word)
      reads this
    {
      sid in sessions
    }

    /** A new session under the next id, in place of one that may be there. */
    method CreateSession(address: nat, guid: int) returns (sid: Word)
      modifies this
      ensures sid == sidSeq == (old(sidSeq) + 1) % TWO32
      ensures sessions == old(sessions)[sid := Session(address, guid)]
    {
      sidSeq := (sidSeq + 1) % TWO32;
      sessions := sessions[sidSeq := Session(address, guid)];
      sid := sidSeq;
    }

    method RemoveSession(sid: Word)
      modifies this`sessions
      ensures sessions == old(sessions) - {sid}
    {
      if IsSessionExist(sid) {
        sessions := sessions - {sid};
      }
    }
  }

  /** What a list of packets sends. */
  function AsSet(packets: seq<Sent>): set<Sent>
  {
    set p | p in packets
  }

  class RUDPServer {
    const world: World
    const manager: SessionManager

    constructor (world: World, manager: SessionManager)
      ensures this.world == world && this.manager == manager
    {
      this.world, this.manager := world, manager;
    }

    ghost function Value(): Server
      reads this, world, manager
    {
      Server(world.gos, manager.sidSeq, manager.sessions)
    }

    /** Objects go out in the order of the hash map, which is any. */
    method ReplicateAllGameObjects(sid: Word) returns (sent: seq<Sent>)
      requires manager.IsSessionExist(sid)
      ensures AsSet(sent) == if sid == 0 then SpawnAllToAll(world.gos, manager.sessions)
                             else SpawnAll(world.gos, manager.sessions[sid].address)
      ensures sid != 0 ==> |sent| == |world.gos|
    {
      sent := [];
      var left := world.gos;
      assert world.gos - left.Keys == map[];
      while left != map[]
        invariant Within(world.gos, left)
        invariant AsSet(sent) == Done(sid, left)
        invariant sid != 0 ==> |sent| + |left| == |world.gos|
        decreases |left|
      {
        var g :| g in left;
        var packets := SpawnObject(world.gos[g], sid);
        TakeOne(left, g);
        if sid == 0 {
          OneMoreToAll(world.gos, left, g, manager.sessions);
        } else {
          OneMore(world.gos, left, g, manager.sessions[sid].address);
        }
        assert AsSet(sent + packets) == AsSet(sent) + AsSet(packets);
        sent, left := sent + packets, left - {g};
      }
      assert world.gos - left.Keys == world.gos;
    }

    /** The packets of the objects that are not left any more. */
    ghost function Done(sid: Word, left: Table): set<Sent>
      requires sid in manager.sessions
      reads this, world, manager
    {
      var done := world.gos - left.Keys;
      if sid == 0 then SpawnAllToAll(done, manager.sessions) else SpawnAll(done, manager.sessions[sid].address)
    }

    /** SpawnObject(): session zero stands for all sessions. */
    method SpawnObject(go: GameObject, sid: Word) returns (sent: seq<Sent>)
      requires manager.IsSessionExist(sid)
      ensures AsSet(sent) == if sid == 0
                             then set s | s in manager.sessions :: Sent(manager.sessions[s].address, Spawn(go))
                             else {Sent(manager.sessions[sid].address, Spawn(go))}
      ensures sid != 0 ==> |sent| == 1
    {
      if sid != 0 {
        return [Sent(manager.sessions[sid].address, Spawn(go))];
      }
      sent := [];
      var left := manager.sessions.Keys;
      while left != {}
        invariant left <= manager.sessions.Keys
        invariant AsSet(sent) ==
                  set s | s in manager.sessions.Keys - left :: Sent(manager.sessions[s].address, Spawn(go))
        decreases |left|
      {
        var s :| s in left;
        ghost var before := sent;
        sent := sent + [Sent(manager.sessions[s].address, Spawn(go))];
        assert AsSet(sent) == AsSet(before) + {Sent(manager.sessions[s].address, Spawn(go))};
        left := left - {s};
      }
      assert manager.sessions.Keys - left == manager.sessions.Keys;
    }

    /** One packet received. */
    method OnRecvBytes(from: nat, request: Request) returns (sent: seq<Sent>)
      modifies manager
      ensures Value() == Served(old(Value()), from, request)
      ensures AsSet(sent) == Answers(old(Value()), from, request)
      ensures request.command.Quit? && request.body.Some? && request.sid in old(manager.sessions) ==>
                && manager.sessions == old(manager.sessions) - {request.body.value.sid}
                && manager.sidSeq == old(manager.sidSeq)
      ensures request.command.Start? && request.body.Some? ==>
                && manager.sidSeq == (old(manager.sidSeq) + 1) % TWO32
                && manager.sessions == old(manager.sessions)[manager.sidSeq := Session(from, request.body.value.guid)]
    {
      if request.body.None? {
        return [];
      }
      if !manager.IsSessionExist(request.sid) && request.command != Start {
        return [];
      }
      match request.command {
        case Start =>
          var sid := manager.CreateSession(from, request.body.value.guid);
          sent := [Sent(from, Started(request.body.value.guid, sid))];
        case Enter =>
          sent := ReplicateAllGameObjects(request.sid);
        case Quit =>
          var address := manager.sessions[request.sid].address;
          manager.RemoveSession(request.body.value.sid);
          sent := [Sent(address, Left(request.body.value.guid, request.body.value.sid))];
        case _ =>
          sent := [];
      }
    }
  }

  lemma {:induction false} TakeOne(left: Table, g: Word)
    requires g in left
    ensures |left - {g}| == |left| - 1
  {
    assert (left - {g}).Keys == left.Keys - {g};
  }

  /** Every entry of left is one of the world. */
  ghost predicate Within(world: Table, left: Table)
  {
    forall g :: g in left ==> g in world && left[g] == world[g]
  }

  lemma {:induction false} OneMore(world: Table, left: Table, g: Word, to: nat)
    requires Within(world, left) && g in left
    ensures SpawnAll(world - (left - {g}).Keys, to) == SpawnAll(world - left.Keys, to) + {Sent(to, Spawn(world[g]))}
  {
    var before, after := world - left.Keys, world - (left - {g}).Keys;
    assert after.Keys == before.Keys + {g};
    assert Sent(to, Spawn(after[g])) in SpawnAll(after, to);
    forall p | p in SpawnAll(before, to) ensures p in SpawnAll(after, to) {
      var h :| h in before && p == Sent(to, Spawn(before[h]));
      assert p == Sent(to, Spawn(after[h]));
    }
  }

  lemma {:induction false} OneMoreToAll(world: Table, left: Table, g: Word, sessions: map<Word, Session>)
    requires Within(world, left) && g in left
    ensures SpawnAllToAll(world - (left - {g}).Keys, sessions) ==
            SpawnAllToAll(world - left.Keys, sessions)
            + set s | s in sessions :: Sent(sessions[s].address, Spawn(world[g]))
  {
    var before, after := world - left.Keys, world - (left - {g}).Keys;
    assert after.Keys == before.Keys + {g};
    forall p | p in SpawnAllToAll(before, sessions) ensures p in SpawnAllToAll(after, sessions) {
      var s, h :| s in sessions && h in before && p == Sent(sessions[s].address, Spawn(before[h]));
      assert p == Sent(sessions[s].address, Spawn(after[h]));
    }
    forall s | s in sessions ensures Sent(sessions[s].address, Spawn(world[g])) in SpawnAllToAll(after, sessions) {
      assert Sent(sessions[s].address, Spawn(world[g])) == Sent(sessions[s].address, Spawn(after[g]));
    }
  }

  class GameClient {
    var status: Status
    var sid: Word
    var commands: seq<Command>
    var pending: seq<Response>
    var gos: Table

    ghost function Value(): Client
      reads this
    {
      Client(status, sid, commands, pending, gos)
    }

    constructor ()
      ensures Value() == NEW_CLIENT
    {
      status, sid, commands, pending, gos := CsNone, 0, [], [], map[];
    }

    method PushCommandLine(command: Command)
      modifies this`commands
      ensures Value() == old(Value()).(commands := old(commands) + [command])
    {
      commands := commands + [command];
    }

    method OnRecv(response: Response)
      modifies this`pending
      ensures Value() == old(Value()).(pending := old(pending) + [response])
    {
      pending := pending + [response];
    }

    method OnUpdate()
      modifies this
      ensures Value() == Updated(old(Value()))
    {
      if status == CsStart {
        PushCommandLine(Enter);
        status := CsReady;
      }
      ghost var c := Value();
      for i := 0 to |pending|
        invariant pending == old(pending) && Value() == ResolvedAll(c, pending[..i])
      {
        assert pending[..i + 1][..i] == pending[..i];
        match pending[i] {
          case Started(_, newSid) =>
            sid := newSid;
            status := CsStart;
          case Left(_, _) =>
            sid := 0;
            status := CsQuit;
          case Spawn(go) =>
            ResolveGameObject(go);
          case Replicated =>
        }
      }
      assert pending[..|pending|] == pending;
      pending := [];
    }

    /** An object is taken only when none has its id. */
    method ResolveGameObject(go: GameObject)
      modifies this`gos
      ensures Value() == Resolved(old(Value()), Spawn(go))
    {
      if go.goid !in gos {
        gos := gos[go.goid := go];
      }
    }

    /** OnCommandDispatch(): all commands become packets. */
    method OnCommandDispatch() returns (sent: set<Request>)
      modifies this`commands
      ensures sent == RequestsOf(sid, old(commands)) && Value() == old(Value()).(commands := [])
    {
      sent := {};
      assert commands[..0] == [];
      for i := 0 to |commands|
        invariant commands == old(commands) && sent == RequestsOf(sid, commands[..i])
      {
        assert commands[..i + 1] == commands[..i] + [commands[i]];
        match commands[i] {
          case Start => sent := sent + {Request(Start, 0, Some(Body(GUID, 0)))};
          case Quit => sent := sent + {Request(Quit, sid, Some(Body(GUID, sid)))};
          case Enter => sent := sent + {Request(Enter, sid, Some(Body(GUID, sid)))};
          case _ =>
        }
      }
      assert commands[..|commands|] == commands;
      commands := [];
    }
  }
}
