/**
  Chat membership as a whole: the logic thread runs the join and leave handlers one command
  at a time, while workers accept, close, kick and forget clients between any two of its
  lock-protected operations.

  Client objects are slots that are reused: a closed slot may be opened again with a new
  socket. A search by client compares sockets entry by entry while sockets may change, so a
  search may end without a match at any time, and the search for an existing user is one
  step per entry. A room is named by its position, since rooms are never destroyed.
 */
module Chat {
  import opened Basics
  import opened Rooms

  datatype Config = Config(capacity: nat, slots: nat, initRooms: nat)

  /** Where the logic thread stands. `owner` is the client of the session that was found and
      `unchecked` the registered users not yet compared with the joining client. */
  datatype Logic =
    | Idle
    | JoinPicked(client: ClientId, name: string, room: nat)
    | JoinFound(client: ClientId, name: string, room: nat, owner: ClientId, unchecked: set<nat>)
    | JoinCreated(room: nat, user: User)
    | LeaveFound(user: User)
    | LeaveLeft(user: User)
    | NullDereference

  /** `known` are the slots that have ever been connected: only they can have sent a command
      or can be reported as disconnected. */
  datatype State = State(
    sockets: Sockets,
    known: set<ClientId>,
    sessions: map<nat, ClientId>,
    nextSession: nat,
    rooms: seq<RoomState>,
    users: map<nat, User>,
    nextUser: nat,
    logic: Logic)

  datatype Step =
    | Open(c: ClientId, socket: nat)
    | CreateSession(c: ClientId)
    | Close(c: ClientId)
    | KickRoom(r: nat, c: ClientId)
    | RemoveSessions(c: ClientId)
    | PickRoom(c: ClientId, name: string)
    | FindSession(sid: nat)
    | NoSession
    | CheckUser(uid: nat)
    | CreateUser
    | EnterRoom
    | FindUser(c: ClientId, uid: nat)
    | LeaveRoom
    | RemoveUser

  function WithMembers(rooms: seq<RoomState>, k: nat, members: seq<User>): seq<RoomState>
    requires k < |rooms|
  {
    rooms[k := rooms[k].(members := members)]
  }

  predicate Init(cfg: Config, s: State)
  {
    && s.sockets == seq(cfg.slots, _ => Invalid) && s.known == {}
    && s.sessions == map[] && s.users == map[] && s.nextSession == 0 && s.nextUser == 0
    && s.rooms == seq(cfg.initRooms, i => RoomState(i % UINT32, []))
    && s.logic == Idle
  }

  predicate Enabled(cfg: Config, s: State, step: Step)
  {
    match step
    case Open(c, h) => c < |s.sockets| && s.sockets[c] == Invalid && Handle(h) !in s.sockets
    case CreateSession(c) => c < |s.sockets| && c in s.known
    case Close(c) => c < |s.sockets|
    case KickRoom(r, c) => r < |s.rooms| && c < |s.sockets| && c in s.known
    case RemoveSessions(c) => c < |s.sockets| && c in s.known
    case PickRoom(c, _) => s.logic.Idle? && c < |s.sockets| && c in s.known
    case FindSession(sid) =>
      s.logic.JoinPicked? && sid in s.sessions && SameSocket(s.sockets, s.sessions[sid], s.logic.client)
    case NoSession => s.logic.JoinPicked?
    case CheckUser(uid) => s.logic.JoinFound? && uid in s.logic.unchecked && uid in s.users
    case CreateUser => s.logic.JoinFound? && s.logic.unchecked == {}
    case EnterRoom => s.logic.JoinCreated? && s.logic.room < |s.rooms|
    case FindUser(c, uid) =>
      && s.logic.Idle? && c < |s.sockets| && c in s.known
      && uid in s.users && SameSocket(s.sockets, s.users[uid].client, c)
    case LeaveRoom => s.logic.LeaveFound?
    case RemoveUser => s.logic.LeaveLeft?
  }

  function Next(cfg: Config, s: State, step: Step): State
    requires Enabled(cfg, s, step)
  {
    match step
    case Open(c, h) => s.(sockets := s.sockets[c := Handle(h)], known := s.known + {c})
    case CreateSession(c) =>
      s.(sessions := s.sessions[s.nextSession := c], nextSession := s.nextSession + 1)
    case Close(c) => s.(sockets := s.sockets[c := Invalid])
    case KickRoom(r, c) =>
      s.(rooms := WithMembers(s.rooms, r, Connected(s.rooms[r].members, s.sockets, c)))
    case RemoveSessions(c) =>
      s.(sessions := map sid <- s.sessions | !SameSocket(s.sockets, s.sessions[sid], c) :: s.sessions[sid])
    case PickRoom(c, name) =>
      s.(rooms := Pick(s.rooms, cfg.capacity),
         logic := JoinPicked(c, name, FirstBelow(s.rooms, cfg.capacity)))
    case FindSession(sid) =>
      s.(logic := JoinFound(s.logic.client, s.logic.name, s.logic.room, s.sessions[sid], s.users.Keys))
    case NoSession => s.(logic := Idle)
    case CheckUser(uid) =>
      if SameSocket(s.sockets, s.users[uid].client, s.logic.client) then s.(logic := Idle)
      else s.(logic := s.logic.(unchecked := s.logic.unchecked - {uid}))
    case CreateUser =>
      var user := User(s.nextUser, s.logic.name, s.logic.owner, s.logic.room % UINT32);
      s.(users := s.users[s.nextUser := user], nextUser := s.nextUser + 1,
         logic := JoinCreated(s.logic.room, user))
    case EnterRoom =>
      s.(rooms := WithMembers(s.rooms, s.logic.room, s.rooms[s.logic.room].members + [s.logic.user]),
         logic := Idle)
    case FindUser(c, uid) => s.(logic := LeaveFound(s.users[uid]))
    case LeaveRoom =>
      var user := s.logic.user;
      var k := FirstWithId(s.rooms, user.roomId);
      if k == |s.rooms| then s.(logic := NullDereference)
      else s.(rooms := WithMembers(s.rooms, k, WithoutFirst(s.rooms[k].members, user.id)), logic := LeaveLeft(user))
    case RemoveUser => s.(users := s.users - {s.logic.user.id}, logic := Idle)
  }

  ghost predicate Run(cfg: Config, trace: seq<State>, steps: seq<Step>)
  {
    && |trace| == |steps| + 1
    && Init(cfg, trace[0])
    && forall i | 0 <= i < |steps| :: Enabled(cfg, trace[i], steps[i]) && trace[i + 1] == Next(cfg, trace[i], steps[i])
  }

  // ---------------------------------------------------------------- invariant of every run

  predicate SocketsInv(cfg: Config, s: State)
  {
    && |s.sockets| == cfg.slots
    && (forall c, d | 0 <= c < d < |s.sockets| :: s.sockets[c].Handle? ==> s.sockets[c] != s.sockets[d])
    && (forall sid <- s.sessions :: s.sessions[sid] < cfg.slots)
  }

  predicate RegistryInv(cfg: Config, s: State)
  {
    forall id <- s.users ::
      && s.users[id].id == id && id < s.nextUser
      && s.users[id].client < cfg.slots
      && s.users[id].roomId < |s.rooms| && s.users[id].roomId < UINT32
  }

  predicate MembersBelow(members: seq<User>, n: nat)
  {
    forall m <- members :: m.id < n
  }

  predicate RoomsInv(cfg: Config, s: State)
  {
    && |s.rooms| >= cfg.initRooms
    && forall i | 0 <= i < |s.rooms| ::
         && s.rooms[i].id == i % UINT32
         && DistinctIds(s.rooms[i].members)
         && MembersBelow(s.rooms[i].members, s.nextUser)
  }

  /** No room holds a user with this id. */
  predicate Outside(rooms: seq<RoomState>, id: nat)
  {
    forall i | 0 <= i < |rooms| :: forall m <- rooms[i].members :: m.id != id
  }

  predicate LogicInv(cfg: Config, s: State)
  {
    match s.logic
    case Idle => true
    case JoinPicked(c, _, room) => c < cfg.slots && room < |s.rooms|
    case JoinFound(c, _, room, owner, unchecked) =>
      c < cfg.slots && room < |s.rooms| && owner < cfg.slots && unchecked <= s.users.Keys
    case JoinCreated(room, user) =>
      room < |s.rooms| && user.roomId == room % UINT32 && Registered(s, user) && Outside(s.rooms, user.id)
    case LeaveFound(user) => Registered(s, user)
    case LeaveLeft(user) => Registered(s, user)
    case NullDereference => false
  }

  predicate Registered(s: State, user: User)
  {
    user.id in s.users && s.users[user.id] == user
  }

  predicate Inv(cfg: Config, s: State)
  {
    SocketsInv(cfg, s) && RegistryInv(cfg, s) && RoomsInv(cfg, s) && LogicInv(cfg, s)
  }

  lemma InitInv(cfg: Config, s: State)
    requires Init(cfg, s)
    ensures Inv(cfg, s)
  {
  }

  lemma NextSockets(cfg: Config, s: State, step: Step)
    requires Inv(cfg, s) && Enabled(cfg, s, step)
    ensures SocketsInv(cfg, Next(cfg, s, step))
  {
  }

  lemma NextRegistry(cfg: Config, s: State, step: Step)
    requires Inv(cfg, s) && Enabled(cfg, s, step)
    ensures RegistryInv(cfg, Next(cfg, s, step))
  {
  }

  /** Positions below 2^32 are their own room ids, so a lookup of one finds it. */
  lemma LookupFinds(cfg: Config, s: State, id: nat)
    requires RoomsInv(cfg, s) && id < |s.rooms| && id < UINT32
    ensures FirstWithId(s.rooms, id) == id
  {
    assert s.rooms[id].id == id;
    var k := FirstWithId(s.rooms, id);
    if k < id {
      assert s.rooms[k].id == k;
    }
  }

  /** The leaving user is erased from the room with the stored id, and nobody else moves. */
  lemma LeaveEffect(cfg: Config, s: State)
    requires Inv(cfg, s) && Enabled(cfg, s, LeaveRoom)
    ensures var user := s.logic.user;
            && user.roomId < |s.rooms|
            && Next(cfg, s, LeaveRoom)
            == s.(rooms := WithMembers(s.rooms, user.roomId, Others(s.rooms[user.roomId].members, user.id)),
                  logic := LeaveLeft(user))
  {
    var user := s.logic.user;
    LookupFinds(cfg, s, user.roomId);
    WithoutFirstIsOthers(s.rooms[user.roomId].members, user.id);
  }

  lemma ShrunkRooms(cfg: Config, s: State, t: State, r: nat, p: User -> bool)
    requires RoomsInv(cfg, s) && r < |s.rooms| && t.nextUser == s.nextUser
    requires t.rooms == WithMembers(s.rooms, r, Keep(s.rooms[r].members, p))
    ensures RoomsInv(cfg, t)
  {
    ShrunkRoom(s.rooms[r].members, p, s.nextUser);
  }

  lemma EnterRooms(cfg: Config, s: State)
    requires Inv(cfg, s) && Enabled(cfg, s, EnterRoom)
    ensures RoomsInv(cfg, Next(cfg, s, EnterRoom))
  {
  }

  lemma OtherRooms(cfg: Config, s: State, step: Step)
    requires RoomsInv(cfg, s) && Enabled(cfg, s, step)
    requires !step.KickRoom? && !step.LeaveRoom? && !step.EnterRoom?
    ensures RoomsInv(cfg, Next(cfg, s, step))
  {
  }

  lemma NextRooms(cfg: Config, s: State, step: Step)
    requires Inv(cfg, s) && Enabled(cfg, s, step)
    ensures RoomsInv(cfg, Next(cfg, s, step))
  {
    match step
    case KickRoom(r, c) =>
      ShrunkRooms(cfg, s, Next(cfg, s, step), r, (u: User) => !SameSocket(s.sockets, u.client, c));
    case LeaveRoom =>
      LeaveEffect(cfg, s);
      ShrunkRooms(cfg, s, Next(cfg, s, step), s.logic.user.roomId, (u: User) => u.id != s.logic.user.id);
    case EnterRoom => EnterRooms(cfg, s);
    case _ => OtherRooms(cfg, s, step);
  }

  lemma ShrunkRoom(members: seq<User>, p: User -> bool, n: nat)
    requires DistinctIds(members) && MembersBelow(members, n)
    ensures DistinctIds(Keep(members, p)) && MembersBelow(Keep(members, p), n)
  {
    KeepDistinct(members, p);
    KeepElements(members, p);
  }

  lemma NextLogic(cfg: Config, s: State, step: Step)
    requires Inv(cfg, s) && Enabled(cfg, s, step)
    ensures LogicInv(cfg, Next(cfg, s, step))
  {
    match step
    case KickRoom(r, c) =>
      KeepElements(s.rooms[r].members, (u: User) => !SameSocket(s.sockets, u.client, c));
    case LeaveRoom => LeaveEffect(cfg, s);
    case _ =>
  }

  lemma {:induction false} RunInv(cfg: Config, trace: seq<State>, steps: seq<Step>, i: nat)
    requires Run(cfg, trace, steps) && i < |trace|
    ensures Inv(cfg, trace[i])
  {
    if i == 0 {
      InitInv(cfg, trace[0]);
    } else {
      RunInv(cfg, trace, steps, i - 1);
      var s, step := trace[i - 1], steps[i - 1];
      assert trace[i - 1 + 1] == Next(cfg, s, step);
      NextSockets(cfg, s, step);
      NextRegistry(cfg, s, step);
      NextRooms(cfg, s, step);
      NextLogic(cfg, s, step);
    }
  }

  /** The room a leaving user is looked up in always exists. */
  lemma LeaveFindsTheRoom(cfg: Config, trace: seq<State>, steps: seq<Step>, i: nat)
    requires Run(cfg, trace, steps) && i < |trace|
    ensures !trace[i].logic.NullDereference?
    ensures forall id <- trace[i].users ::
      var roomId := trace[i].users[id].roomId;
      FirstWithId(trace[i].rooms, roomId) == roomId && roomId < |trace[i].rooms|
  {
    RunInv(cfg, trace, steps, i);
    forall id <- trace[i].users
      ensures var roomId := trace[i].users[id].roomId;
              FirstWithId(trace[i].rooms, roomId) == roomId
    {
      LookupFinds(cfg, trace[i], trace[i].users[id].roomId);
    }
  }

  // ---------------------------------------------------------------- capacity

  predicate WithinCapacity(rooms: seq<RoomState>, capacity: nat)
  {
    forall r <- rooms :: |r.members| <= capacity
  }

  /** Only the logic thread adds members, so the picked room keeps a free place. */
  predicate PlaceFree(cfg: Config, s: State)
  {
    (s.logic.JoinPicked? || s.logic.JoinFound? || s.logic.JoinCreated?) && s.logic.room < |s.rooms|
    ==> |s.rooms[s.logic.room].members| < cfg.capacity
  }

  ghost predicate CapacityInv(cfg: Config, s: State)
  {
    WithinCapacity(s.rooms, cfg.capacity) && PlaceFree(cfg, s)
  }

  lemma ShrunkCapacity(cfg: Config, s: State, t: State, r: nat, p: User -> bool)
    requires CapacityInv(cfg, s) && r < |s.rooms| && (t.logic == s.logic || t.logic.LeaveLeft?)
    requires t.rooms == WithMembers(s.rooms, r, Keep(s.rooms[r].members, p))
    ensures CapacityInv(cfg, t)
  {
    KeepElements(s.rooms[r].members, p);
  }

  lemma OtherCapacity(cfg: Config, s: State, step: Step)
    requires Inv(cfg, s) && Enabled(cfg, s, step) && cfg.capacity >= 1 && CapacityInv(cfg, s)
    requires !step.KickRoom? && !step.LeaveRoom?
    ensures CapacityInv(cfg, Next(cfg, s, step))
  {
  }

  lemma NextCapacity(cfg: Config, s: State, step: Step)
    requires Inv(cfg, s) && Enabled(cfg, s, step) && cfg.capacity >= 1 && CapacityInv(cfg, s)
    ensures CapacityInv(cfg, Next(cfg, s, step))
  {
    match step
    case KickRoom(r, c) =>
      ShrunkCapacity(cfg, s, Next(cfg, s, step), r, (u: User) => !SameSocket(s.sockets, u.client, c));
    case LeaveRoom =>
      LeaveEffect(cfg, s);
      ShrunkCapacity(cfg, s, Next(cfg, s, step), s.logic.user.roomId, (u: User) => u.id != s.logic.user.id);
    case _ => OtherCapacity(cfg, s, step);
  }

  lemma {:induction false} RunCapacity(cfg: Config, trace: seq<State>, steps: seq<Step>, i: nat)
    requires Run(cfg, trace, steps) && i < |trace| && cfg.capacity >= 1
    ensures CapacityInv(cfg, trace[i])
  {
    if i > 0 {
      RunCapacity(cfg, trace, steps, i - 1);
      RunInv(cfg, trace, steps, i - 1);
      assert trace[i - 1 + 1] == Next(cfg, trace[i - 1], steps[i - 1]);
      NextCapacity(cfg, trace[i - 1], steps[i - 1]);
    }
  }

  ghost predicate NeverOverfull(cfg: Config)
  {
    forall trace: seq<State>, steps: seq<Step> | Run(cfg, trace, steps) ::
      WithinCapacity(trace[|trace| - 1].rooms, cfg.capacity)
  }

  /** Without client slots nothing ever happens. */
  lemma NothingEnabled(cfg: Config, s: State, step: Step)
    requires Init(cfg, s) && cfg.slots == 0
    ensures !Enabled(cfg, s, step)
  {
  }

  lemma NoSlotsNoSteps(cfg: Config, trace: seq<State>, steps: seq<Step>)
    requires Run(cfg, trace, steps) && cfg.slots == 0
    ensures steps == []
  {
    if steps != [] {
      NothingEnabled(cfg, trace[0], steps[0]);
    }
  }

  /** No interleaving ever overfills a room, exactly when the capacity is at least 1 or nobody
      can connect: with capacity 0 a new room is created and joined all the same. */
  lemma CapacityKept(cfg: Config)
    ensures NeverOverfull(cfg) <==> cfg.capacity >= 1 || cfg.slots == 0
  {
    if cfg.capacity >= 1 || cfg.slots == 0 {
      forall trace: seq<State>, steps: seq<Step> | Run(cfg, trace, steps)
        ensures WithinCapacity(trace[|trace| - 1].rooms, cfg.capacity)
      {
        if cfg.capacity >= 1 {
          RunCapacity(cfg, trace, steps, |trace| - 1);
        } else {
          NoSlotsNoSteps(cfg, trace, steps);
        }
      }
    } else {
      var trace, steps := ZeroCapacityOverfills(cfg);
      assert trace[|trace| - 1].rooms[cfg.initRooms] in trace[|trace| - 1].rooms;
      assert !WithinCapacity(trace[|trace| - 1].rooms, cfg.capacity);
    }
  }

  lemma Begin(cfg: Config) returns (trace: seq<State>, steps: seq<Step>)
    ensures Run(cfg, trace, steps) && steps == []
  {
    var rooms := seq(cfg.initRooms, i requires 0 <= i < cfg.initRooms => RoomState(i % UINT32, []));
    trace := [State(seq(cfg.slots, _ => Invalid), {}, map[], 0, rooms, map[], 0, Idle)];
    steps := [];
  }

  /** Every slot opened was the first free one, as the search through the pool finds it when
      no slot is closed while it runs. */
  ghost predicate FirstFreeRun(trace: seq<State>, steps: seq<Step>)
    requires |trace| == |steps| + 1
  {
    forall i | 0 <= i < |steps| && steps[i].Open? :: TakesFirstFree(trace[i], steps[i].c)
  }

  predicate TakesFirstFree(s: State, c: ClientId)
  {
    forall d | 0 <= d < c && d < |s.sockets| :: s.sockets[d] != Invalid
  }

  lemma Extend(cfg: Config, trace: seq<State>, steps: seq<Step>, step: Step)
    returns (longer: seq<State>, last: State)
    requires Run(cfg, trace, steps) && Enabled(cfg, trace[|trace| - 1], step)
    ensures last == Next(cfg, trace[|trace| - 1], step)
    ensures longer == trace + [last] && Run(cfg, longer, steps + [step])
    ensures FirstFreeRun(trace, steps) && (step.Open? ==> TakesFirstFree(trace[|trace| - 1], step.c)) ==>
              FirstFreeRun(longer, steps + [step])
  {
    last := Next(cfg, trace[|trace| - 1], step);
    longer := trace + [last];
    var taken := steps + [step];
    forall i | 0 <= i < |taken|
      ensures Enabled(cfg, longer[i], taken[i]) && longer[i + 1] == Next(cfg, longer[i], taken[i])
    {
      if i < |steps| {
        assert longer[i] == trace[i] && longer[i + 1] == trace[i + 1];
      }
    }
  }

  lemma FirstPick(cfg: Config, c: ClientId) returns (trace: seq<State>, steps: seq<Step>, s: State)
    requires c < cfg.slots
    ensures Run(cfg, trace, steps) && s == trace[|trace| - 1]
    ensures s.sessions == map[0 := c] && s.nextSession == 1 && s.nextUser == 0 && s.users == map[]
    ensures s.sockets == seq(cfg.slots, _ => Invalid)[c := Handle(c)] && s.known == {c}
    ensures s.logic.JoinPicked? && s.logic.client == c && s.logic.room < |s.rooms|
    ensures cfg.capacity == 0 ==> s.logic.room == cfg.initRooms
    ensures s.rooms[s.logic.room].members == []
    ensures c == 0 ==> FirstFreeRun(trace, steps)
  {
    trace, steps := Begin(cfg);
    s := trace[0];
    trace, s := Extend(cfg, trace, steps, Open(c, c));
    steps := steps + [Open(c, c)];
    trace, s := Extend(cfg, trace, steps, CreateSession(c));
    steps := steps + [CreateSession(c)];
    trace, s := Extend(cfg, trace, steps, PickRoom(c, ""));
    steps := steps + [PickRoom(c, "")];
  }

  /** A first client connects and joins. */
  lemma FirstJoin(cfg: Config, c: ClientId) returns (trace: seq<State>, steps: seq<Step>, s: State)
    requires c < cfg.slots
    ensures Run(cfg, trace, steps) && s == trace[|trace| - 1]
    ensures s.logic.Idle? && s.sessions == map[0 := c] && s.nextSession == 1 && s.nextUser == 1
    ensures s.users.Keys == {0} && s.users[0].client == c
    ensures s.sockets == seq(cfg.slots, _ => Invalid)[c := Handle(c)] && s.known == {c}
    ensures cfg.capacity == 0 ==> |s.rooms| > cfg.initRooms && |s.rooms[cfg.initRooms].members| == 1
    ensures c == 0 ==> FirstFreeRun(trace, steps)
  {
    trace, steps, s := FirstPick(cfg, c);
    trace, s := Extend(cfg, trace, steps, FindSession(0));
    steps := steps + [FindSession(0)];
    trace, s := Extend(cfg, trace, steps, CreateUser);
    steps := steps + [CreateUser];
    trace, s := Extend(cfg, trace, steps, EnterRoom);
    steps := steps + [EnterRoom];
  }

  lemma ZeroCapacityOverfills(cfg: Config) returns (trace: seq<State>, steps: seq<Step>)
    requires cfg.slots >= 1 && cfg.capacity == 0
    ensures Run(cfg, trace, steps) && FirstFreeRun(trace, steps)
    ensures var s := trace[|trace| - 1];
            |s.rooms| > cfg.initRooms && |s.rooms[cfg.initRooms].members| == 1
  {
    var s;
    trace, steps, s := FirstJoin(cfg, 0);
  }

  // ---------------------------------------------------------------- membership

  predicate RoomMembers(s: State, i: nat)
    requires i < |s.rooms|
  {
    forall m <- s.rooms[i].members :: Registered(s, m) && m.roomId == i
  }

  /** Every member of every room is a registered user whose stored room id is that room's;
      a user about to be dropped is in no room. */
  predicate MembershipInv(s: State)
  {
    && (forall i | 0 <= i < |s.rooms| :: RoomMembers(s, i))
    && (s.logic.LeaveLeft? ==> Outside(s.rooms, s.logic.user.id))
  }

  /** A room that lost members, with registrations kept, is still consistent. */
  lemma ShrunkMembers(s: State, t: State, r: nat, p: User -> bool)
    requires MembershipInv(s) && r < |s.rooms| && t.users == s.users
    requires t.rooms == WithMembers(s.rooms, r, Keep(s.rooms[r].members, p))
    ensures forall i | 0 <= i < |t.rooms| :: RoomMembers(t, i)
    ensures forall id | Outside(s.rooms, id) :: Outside(t.rooms, id)
  {
    KeepElements(s.rooms[r].members, p);
    forall i | 0 <= i < |t.rooms|
      ensures RoomMembers(t, i)
    {
      assert RoomMembers(s, i);
    }
  }

  lemma EnterMembers(cfg: Config, s: State)
    requires Inv(cfg, s) && MembershipInv(s) && Enabled(cfg, s, EnterRoom) && |s.rooms| <= UINT32
    ensures MembershipInv(Next(cfg, s, EnterRoom))
  {
    var t := Next(cfg, s, EnterRoom);
    assert s.logic.user.roomId == s.logic.room;
    forall i | 0 <= i < |t.rooms|
      ensures RoomMembers(t, i)
    {
      assert RoomMembers(s, i);
    }
  }

  lemma LeaveMembers(cfg: Config, s: State)
    requires Inv(cfg, s) && MembershipInv(s) && Enabled(cfg, s, LeaveRoom)
    ensures MembershipInv(Next(cfg, s, LeaveRoom))
  {
    var user := s.logic.user;
    LeaveEffect(cfg, s);
    ShrunkMembers(s, Next(cfg, s, LeaveRoom), user.roomId, (u: User) => u.id != user.id);
    LeftEverywhere(s, user);
  }

  /** Steps that leave the members alone, or only add an empty room, and keep their users. */
  lemma OtherMembers(cfg: Config, s: State, step: Step)
    requires Inv(cfg, s) && MembershipInv(s) && Enabled(cfg, s, step)
    requires !step.KickRoom? && !step.LeaveRoom? && !step.EnterRoom?
    ensures MembershipInv(Next(cfg, s, step))
  {
    var t := Next(cfg, s, step);
    forall i | 0 <= i < |t.rooms|
      ensures RoomMembers(t, i)
    {
      if i < |s.rooms| {
        assert RoomMembers(s, i);
      }
    }
  }

  lemma NextMembership(cfg: Config, s: State, step: Step)
    requires Inv(cfg, s) && Enabled(cfg, s, step) && MembershipInv(s) && |s.rooms| <= UINT32
    ensures MembershipInv(Next(cfg, s, step))
  {
    match step
    case KickRoom(r, c) =>
      ShrunkMembers(s, Next(cfg, s, step), r, (u: User) => !SameSocket(s.sockets, u.client, c));
    case LeaveRoom => LeaveMembers(cfg, s);
    case EnterRoom => EnterMembers(cfg, s);
    case _ => OtherMembers(cfg, s, step);
  }

  lemma LeftEverywhere(s: State, user: User)
    requires MembershipInv(s) && Registered(s, user) && user.roomId < |s.rooms|
    ensures Outside(WithMembers(s.rooms, user.roomId, Others(s.rooms[user.roomId].members, user.id)), user.id)
  {
    KeepElements(s.rooms[user.roomId].members, (u: User) => u.id != user.id);
    forall i, m | 0 <= i < |s.rooms| && i != user.roomId && m in s.rooms[i].members
      ensures m.id != user.id
    {
      assert RoomMembers(s, i);
    }
  }

  lemma RoomsOnlyGrow(cfg: Config, trace: seq<State>, steps: seq<Step>, i: nat)
    requires Run(cfg, trace, steps) && i < |steps|
    ensures |trace[i].rooms| <= |trace[i + 1].rooms|
  {
  }

  lemma {:induction false} RunMembership(cfg: Config, trace: seq<State>, steps: seq<Step>, i: nat)
    requires Run(cfg, trace, steps) && i < |trace| && |trace[i].rooms| <= UINT32
    ensures MembershipInv(trace[i])
  {
    if i > 0 {
      RoomsOnlyGrow(cfg, trace, steps, i - 1);
      RunMembership(cfg, trace, steps, i - 1);
      RunInv(cfg, trace, steps, i - 1);
      assert trace[i - 1 + 1] == Next(cfg, trace[i - 1], steps[i - 1]);
      NextMembership(cfg, trace[i - 1], steps[i - 1]);
    }
  }

  // ---------------------------------------------------------------- placement, in every run

  /** A member stores the id of its room, and is the registered user of its id if there is one. */
  predicate RoomPlaced(s: State, i: nat)
    requires i < |s.rooms|
  {
    forall m <- s.rooms[i].members :: m.roomId == i % UINT32 && (m.id in s.users ==> s.users[m.id] == m)
  }

  predicate Apart(rooms: seq<RoomState>)
  {
    forall i, j | 0 <= i < j < |rooms| :: NoCommonIds(rooms[i].members, rooms[j].members)
  }

  predicate NoCommonIds(a: seq<User>, b: seq<User>)
  {
    forall m <- a, n <- b :: m.id != n.id
  }

  predicate PlacedInv(s: State)
  {
    Apart(s.rooms) && forall i | 0 <= i < |s.rooms| :: RoomPlaced(s, i)
  }

  lemma ShrunkPlaced(s: State, t: State, r: nat, p: User -> bool)
    requires PlacedInv(s) && r < |s.rooms| && t.users == s.users
    requires t.rooms == WithMembers(s.rooms, r, Keep(s.rooms[r].members, p))
    ensures PlacedInv(t)
  {
    KeepElements(s.rooms[r].members, p);
    forall i | 0 <= i < |t.rooms|
      ensures RoomPlaced(t, i)
    {
      assert RoomPlaced(s, i);
    }
    forall i, j | 0 <= i < j < |t.rooms|
      ensures NoCommonIds(t.rooms[i].members, t.rooms[j].members)
    {
      assert NoCommonIds(s.rooms[i].members, s.rooms[j].members);
    }
  }

  lemma EnterPlaced(cfg: Config, s: State)
    requires Inv(cfg, s) && PlacedInv(s) && Enabled(cfg, s, EnterRoom)
    ensures PlacedInv(Next(cfg, s, EnterRoom))
  {
    var t, user := Next(cfg, s, EnterRoom), s.logic.user;
    forall i | 0 <= i < |t.rooms|
      ensures RoomPlaced(t, i)
    {
      assert RoomPlaced(s, i);
    }
    forall i, j | 0 <= i < j < |t.rooms|
      ensures NoCommonIds(t.rooms[i].members, t.rooms[j].members)
    {
      assert NoCommonIds(s.rooms[i].members, s.rooms[j].members);
    }
  }

  lemma OtherPlaced(cfg: Config, s: State, step: Step)
    requires Inv(cfg, s) && PlacedInv(s) && Enabled(cfg, s, step)
    requires !step.KickRoom? && !step.LeaveRoom? && !step.EnterRoom?
    ensures PlacedInv(Next(cfg, s, step))
  {
    var t := Next(cfg, s, step);
    forall i | 0 <= i < |t.rooms|
      ensures RoomPlaced(t, i)
    {
      if i < |s.rooms| {
        assert RoomPlaced(s, i) && MembersBelow(s.rooms[i].members, s.nextUser);
      }
    }
  }

  lemma NextPlaced(cfg: Config, s: State, step: Step)
    requires Inv(cfg, s) && PlacedInv(s) && Enabled(cfg, s, step)
    ensures PlacedInv(Next(cfg, s, step))
  {
    match step
    case KickRoom(r, c) =>
      ShrunkPlaced(s, Next(cfg, s, step), r, (u: User) => !SameSocket(s.sockets, u.client, c));
    case LeaveRoom =>
      LeaveEffect(cfg, s);
      ShrunkPlaced(s, Next(cfg, s, step), s.logic.user.roomId, (u: User) => u.id != s.logic.user.id);
    case EnterRoom => EnterPlaced(cfg, s);
    case _ => OtherPlaced(cfg, s, step);
  }

  lemma {:induction false} RunPlaced(cfg: Config, trace: seq<State>, steps: seq<Step>, i: nat)
    requires Run(cfg, trace, steps) && i < |trace|
    ensures PlacedInv(trace[i])
  {
    if i > 0 {
      RunPlaced(cfg, trace, steps, i - 1);
      RunInv(cfg, trace, steps, i - 1);
      assert trace[i - 1 + 1] == Next(cfg, trace[i - 1], steps[i - 1]);
      NextPlaced(cfg, trace[i - 1], steps[i - 1]);
    }
  }

  /** User ids are unique; a user is in at most one room and there at most once; that room has
      the id the user stores; a member whose id is registered is the registered user. */
  ghost predicate Placed(s: State)
  {
    && (forall id <- s.users :: s.users[id].id == id)
    && (forall r | 0 <= r < |s.rooms| :: DistinctIds(s.rooms[r].members))
    && (forall r | 0 <= r < |s.rooms| ::
          forall m <- s.rooms[r].members ::
            m.roomId == s.rooms[r].id && (m.id in s.users ==> s.users[m.id] == m))
    && (forall r, q | 0 <= r < |s.rooms| && 0 <= q < |s.rooms| ::
          forall m <- s.rooms[r].members, n <- s.rooms[q].members | m.id == n.id :: r == q)
  }

  /** Everyone is placed, and every member of every room is registered. */
  ghost predicate Consistent(s: State)
  {
    Placed(s) && forall r | 0 <= r < |s.rooms| :: forall m <- s.rooms[r].members :: Registered(s, m)
  }

  lemma InvPlaced(cfg: Config, s: State)
    requires Inv(cfg, s) && PlacedInv(s)
    ensures Placed(s)
  {
    forall r, m | 0 <= r < |s.rooms| && m in s.rooms[r].members
      ensures m.roomId == s.rooms[r].id && (m.id in s.users ==> s.users[m.id] == m)
    {
      assert RoomPlaced(s, r) && s.rooms[r].id == r % UINT32;
    }
    forall r, q | 0 <= r < |s.rooms| && 0 <= q < |s.rooms| && r != q
      ensures NoCommonIds(s.rooms[r].members, s.rooms[q].members)
    {
      assert NoCommonIds(s.rooms[if r < q then r else q].members, s.rooms[if r < q then q else r].members);
    }
  }

  /** In every reachable state users are placed, however many rooms there are; and as long as
      room ids have not wrapped, every member is registered too. */
  lemma MembershipConsistent(cfg: Config, trace: seq<State>, steps: seq<Step>, i: nat)
    requires Run(cfg, trace, steps) && i < |trace|
    ensures Placed(trace[i])
    ensures |trace[i].rooms| <= UINT32 ==> Consistent(trace[i])
  {
    RunInv(cfg, trace, steps, i);
    RunPlaced(cfg, trace, steps, i);
    InvPlaced(cfg, trace[i]);
    if |trace[i].rooms| <= UINT32 {
      RunMembership(cfg, trace, steps, i);
      forall r, m | 0 <= r < |trace[i].rooms| && m in trace[i].rooms[r].members
        ensures Registered(trace[i], m)
      {
        assert RoomMembers(trace[i], r);
      }
    }
  }
}
