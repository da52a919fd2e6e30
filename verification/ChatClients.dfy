/**
  Which client objects the registered users own, and what that says about the number of rooms.

  A join looks its session up by socket and then compares every registered user with the
  joining client. The two searches agree on what "the same client" means as long as the
  session's client still has the joining client's socket; a slot reopened in between can
  break that, because all closed clients look alike.
 */
module ChatClients {
  import opened Basics
  import opened Rooms
  import opened Chat

  predicate DistinctClients(s: State)
  {
    forall a, b | a in s.users && b in s.users && s.users[a].client == s.users[b].client :: a == b
  }

  /** No user compared so far owns the session's client. */
  predicate CheckedInv(s: State)
  {
    s.logic.JoinFound? ==>
      forall id <- s.users | id !in s.logic.unchecked :: s.users[id].client != s.logic.owner
  }

  /** The session found for a join still has the joining client's socket. */
  predicate Steady(s: State)
  {
    s.logic.JoinFound? ==> SameSocket(s.sockets, s.logic.owner, s.logic.client)
  }

  ghost predicate SteadyRun(cfg: Config, trace: seq<State>, steps: seq<Step>)
  {
    Run(cfg, trace, steps) && forall i | 0 <= i < |trace| :: Steady(trace[i])
  }

  lemma CreateClients(cfg: Config, s: State)
    requires Inv(cfg, s) && Enabled(cfg, s, CreateUser) && DistinctClients(s) && CheckedInv(s)
    ensures DistinctClients(Next(cfg, s, CreateUser)) && CheckedInv(Next(cfg, s, CreateUser))
  {
  }

  lemma CheckClients(cfg: Config, s: State, uid: nat)
    requires Enabled(cfg, s, CheckUser(uid)) && DistinctClients(s) && CheckedInv(s) && Steady(s)
    ensures DistinctClients(Next(cfg, s, CheckUser(uid))) && CheckedInv(Next(cfg, s, CheckUser(uid)))
  {
  }

  /** The steps that add no user and compare none. */
  lemma OtherClients(cfg: Config, s: State, step: Step)
    requires Enabled(cfg, s, step) && DistinctClients(s) && CheckedInv(s)
    requires !step.CreateUser? && !step.CheckUser?
    ensures DistinctClients(Next(cfg, s, step)) && CheckedInv(Next(cfg, s, step))
  {
  }

  lemma NextClients(cfg: Config, s: State, step: Step)
    requires Inv(cfg, s) && Enabled(cfg, s, step)
    requires DistinctClients(s) && CheckedInv(s) && Steady(s)
    ensures DistinctClients(Next(cfg, s, step)) && CheckedInv(Next(cfg, s, step))
  {
    match step
    case CreateUser => CreateClients(cfg, s);
    case CheckUser(uid) => CheckClients(cfg, s, uid);
    case _ => OtherClients(cfg, s, step);
  }

  lemma {:induction false} RunClients(cfg: Config, trace: seq<State>, steps: seq<Step>, i: nat)
    requires SteadyRun(cfg, trace, steps) && i < |trace|
    ensures DistinctClients(trace[i]) && CheckedInv(trace[i])
  {
    if i > 0 {
      RunClients(cfg, trace, steps, i - 1);
      RunInv(cfg, trace, steps, i - 1);
      assert trace[i - 1 + 1] == Next(cfg, trace[i - 1], steps[i - 1]);
      NextClients(cfg, trace[i - 1], steps[i - 1]);
    }
  }

  // ---------------------------------------------------------------- when runs are steady

  /** While a join is between its session search and its user, and the session is another
      client's, neither that client's slot nor the joining client's is reopened. */
  ghost predicate Undisturbed(trace: seq<State>, steps: seq<Step>)
    requires |trace| == |steps| + 1
  {
    forall i | 0 <= i < |steps| :: !Disturbs(trace[i], steps[i])
  }

  predicate Disturbs(s: State, step: Step)
  {
    && step.Open? && s.logic.JoinFound? && s.logic.owner != s.logic.client
    && (step.c == s.logic.owner || step.c == s.logic.client)
  }

  predicate SameOrBothClosed(s: State)
  {
    s.logic.JoinFound? ==>
      || s.logic.owner == s.logic.client
      || (SocketOf(s.sockets, s.logic.owner) == Invalid && SocketOf(s.sockets, s.logic.client) == Invalid)
  }

  lemma NextSameOrBothClosed(cfg: Config, s: State, step: Step)
    requires Inv(cfg, s) && Enabled(cfg, s, step) && SameOrBothClosed(s)
    requires !Disturbs(s, step)
    ensures SameOrBothClosed(Next(cfg, s, step))
  {
  }

  lemma {:induction false} UndisturbedIsSteady(cfg: Config, trace: seq<State>, steps: seq<Step>, i: nat)
    requires Run(cfg, trace, steps) && Undisturbed(trace, steps) && i < |trace|
    ensures SameOrBothClosed(trace[i]) && Steady(trace[i])
  {
    if i > 0 {
      UndisturbedIsSteady(cfg, trace, steps, i - 1);
      RunInv(cfg, trace, steps, i - 1);
      assert trace[i - 1 + 1] == Next(cfg, trace[i - 1], steps[i - 1]);
      NextSameOrBothClosed(cfg, trace[i - 1], steps[i - 1]);
    }
  }

  /** In every run that reopens neither slot inside that window, no two users share a client. */
  lemma ClientsNotShared(cfg: Config, trace: seq<State>, steps: seq<Step>, i: nat)
    requires Run(cfg, trace, steps) && Undisturbed(trace, steps) && i < |trace|
    ensures DistinctClients(trace[i])
  {
    UndisturbedRun(cfg, trace, steps);
    RunClients(cfg, trace, steps, i);
  }

  lemma UndisturbedRun(cfg: Config, trace: seq<State>, steps: seq<Step>)
    requires Run(cfg, trace, steps) && Undisturbed(trace, steps)
    ensures SteadyRun(cfg, trace, steps)
  {
    forall k | 0 <= k < |trace|
      ensures Steady(trace[k])
    {
      UndisturbedIsSteady(cfg, trace, steps, k);
    }
  }

  ghost predicate NeverShared(cfg: Config)
  {
    forall trace: seq<State>, steps: seq<Step> | Run(cfg, trace, steps) :: DistinctClients(trace[|trace| - 1])
  }

  ghost predicate NeverSharedFirstFree(cfg: Config)
  {
    forall trace: seq<State>, steps: seq<Step> | Run(cfg, trace, steps) && FirstFreeRun(trace, steps) ::
      DistinctClients(trace[|trace| - 1])
  }

  /** Without that restriction no configuration with two slots is safe, not even when every
      accept takes the first free slot, and every smaller one is. */
  lemma SharingNeedsTwoSlots(cfg: Config)
    ensures NeverShared(cfg) <==> cfg.slots <= 1
    ensures NeverSharedFirstFree(cfg) <==> cfg.slots <= 1
  {
    if cfg.slots <= 1 {
      forall trace: seq<State>, steps: seq<Step> | Run(cfg, trace, steps)
        ensures DistinctClients(trace[|trace| - 1])
      {
        OneSlotIsSteady(cfg, trace, steps);
        RunClients(cfg, trace, steps, |trace| - 1);
      }
    } else {
      var trace, steps := ReopenedSlotIsShared(cfg);
      assert !DistinctClients(trace[|trace| - 1]);
    }
  }

  lemma OneSlotIsSteady(cfg: Config, trace: seq<State>, steps: seq<Step>)
    requires Run(cfg, trace, steps) && cfg.slots <= 1
    ensures SteadyRun(cfg, trace, steps)
  {
    forall k | 0 <= k < |trace|
      ensures Steady(trace[k])
    {
      RunInv(cfg, trace, steps, k);
    }
  }

  /** Client 0 joins, client 1 connects, and both are closed for a bad frame, which leaves
      their sessions behind. */
  lemma BothClosed(cfg: Config) returns (trace: seq<State>, steps: seq<Step>, s: State)
    requires cfg.slots >= 2
    ensures Run(cfg, trace, steps) && FirstFreeRun(trace, steps) && s == trace[|trace| - 1]
    ensures s.logic.Idle? && s.sessions == map[0 := 0, 1 := 1] && s.nextUser == 1
    ensures s.users.Keys == {0} && s.users[0].client == 0
    ensures |s.sockets| == cfg.slots && forall c | 0 <= c < |s.sockets| :: s.sockets[c] == Invalid
    ensures s.known == {0, 1}
  {
    trace, steps, s := FirstJoin(cfg, 0);
    trace, s := Extend(cfg, trace, steps, Open(1, 1));
    steps := steps + [Open(1, 1)];
    trace, s := Extend(cfg, trace, steps, CreateSession(1));
    steps := steps + [CreateSession(1)];
    trace, s := Extend(cfg, trace, steps, Close(0));
    steps := steps + [Close(0)];
    trace, s := Extend(cfg, trace, steps, Close(1));
    steps := steps + [Close(1)];
  }

  /** The join client 1 had sent finds the session of client 0; client 0 is reopened before
      the users are compared, and a second user gets client 0. */
  lemma ReopenedSlotIsShared(cfg: Config) returns (trace: seq<State>, steps: seq<Step>)
    requires cfg.slots >= 2
    ensures Run(cfg, trace, steps) && FirstFreeRun(trace, steps)
    ensures var s := trace[|trace| - 1];
            0 in s.users && 1 in s.users && s.users[0].client == s.users[1].client == 0
  {
    var s;
    trace, steps, s := BothClosed(cfg);
    trace, s := Extend(cfg, trace, steps, PickRoom(1, ""));
    steps := steps + [PickRoom(1, "")];
    trace, s := Extend(cfg, trace, steps, FindSession(0));
    steps := steps + [FindSession(0)];
    trace, s := Extend(cfg, trace, steps, Open(0, 0));
    steps := steps + [Open(0, 0)];
    trace, s := Extend(cfg, trace, steps, CheckUser(0));
    steps := steps + [CheckUser(0)];
    trace, s := Extend(cfg, trace, steps, CreateUser);
    steps := steps + [CreateUser];
  }

  // ---------------------------------------------------------------- how many rooms there are

  function RoomBound(cfg: Config): nat
  {
    if cfg.initRooms > cfg.slots + 1 then cfg.initRooms else cfg.slots + 1
  }

  ghost function FirstOwners(rooms: seq<RoomState>): set<ClientId>
    requires forall r <- rooms :: r.members != []
  {
    if rooms == [] then {}
    else FirstOwners(rooms[..|rooms| - 1]) + {rooms[|rooms| - 1].members[0].client}
  }

  lemma {:induction false} FirstOwnersAre(rooms: seq<RoomState>)
    requires forall r <- rooms :: r.members != []
    ensures forall c <- FirstOwners(rooms) :: exists i | 0 <= i < |rooms| :: rooms[i].members[0].client == c
  {
    if rooms != [] {
      var front := rooms[..|rooms| - 1];
      FirstOwnersAre(front);
      forall c <- FirstOwners(front)
        ensures exists i | 0 <= i < |rooms| :: rooms[i].members[0].client == c
      {
        var i :| 0 <= i < |front| && front[i].members[0].client == c;
        assert rooms[i] == front[i];
      }
      assert rooms[|rooms| - 1] in rooms;
    }
  }

  predicate OwnersDiffer(rooms: seq<RoomState>)
    requires forall r <- rooms :: r.members != []
  {
    forall i, j | 0 <= i < j < |rooms| :: rooms[i].members[0].client != rooms[j].members[0].client
  }

  lemma {:induction false} CountOwners(rooms: seq<RoomState>)
    requires forall r <- rooms :: r.members != []
    requires OwnersDiffer(rooms)
    ensures |FirstOwners(rooms)| == |rooms|
  {
    if rooms != [] {
      var front := rooms[..|rooms| - 1];
      CountOwners(front);
      FirstOwnersAre(front);
      var c := rooms[|rooms| - 1].members[0].client;
      assert c !in FirstOwners(front);
    }
  }

  lemma {:induction false} SlotsBelow(clients: set<ClientId>, n: nat)
    requires forall c <- clients :: c < n
    ensures |clients| <= n
  {
    if n == 0 {
      assert clients == {};
    } else {
      SlotsBelow(clients - {n - 1}, n - 1);
    }
  }

  /** Full rooms need as many different clients. */
  lemma FullRoomsAreFew(cfg: Config, s: State)
    requires Inv(cfg, s) && MembershipInv(s) && DistinctClients(s)
    requires forall r <- s.rooms :: r.members != []
    ensures |s.rooms| <= cfg.slots
  {
    forall i, j | 0 <= i < j < |s.rooms|
      ensures s.rooms[i].members[0].client != s.rooms[j].members[0].client
    {
      assert RoomMembers(s, i) && RoomMembers(s, j);
      assert s.rooms[i].members[0] in s.rooms[i].members && s.rooms[j].members[0] in s.rooms[j].members;
    }
    assert OwnersDiffer(s.rooms);
    CountOwners(s.rooms);
    FirstOwnersAre(s.rooms);
    forall c <- FirstOwners(s.rooms)
      ensures c < cfg.slots
    {
      var i :| 0 <= i < |s.rooms| && s.rooms[i].members[0].client == c;
      assert RoomMembers(s, i) && s.rooms[i].members[0] in s.rooms[i].members;
    }
    SlotsBelow(FirstOwners(s.rooms), cfg.slots);
  }

  lemma NextRoomCount(cfg: Config, s: State, step: Step)
    requires Inv(cfg, s) && MembershipInv(s) && DistinctClients(s)
    requires cfg.capacity >= 1 && Enabled(cfg, s, step) && |s.rooms| <= RoomBound(cfg)
    ensures |Next(cfg, s, step).rooms| <= RoomBound(cfg)
  {
    if step.PickRoom? && FirstBelow(s.rooms, cfg.capacity) == |s.rooms| {
      FullRoomsAreFew(cfg, s);
    }
  }

  lemma {:induction false} SteadyRoomCount(cfg: Config, trace: seq<State>, steps: seq<Step>, i: nat)
    requires cfg.capacity >= 1 && cfg.slots < UINT32 && cfg.initRooms <= UINT32
    requires SteadyRun(cfg, trace, steps) && i < |trace|
    ensures |trace[i].rooms| <= RoomBound(cfg) && MembershipInv(trace[i])
  {
    if i > 0 {
      SteadyRoomCount(cfg, trace, steps, i - 1);
      RoomCountStep(cfg, trace, steps, i - 1);
    }
    RunMembership(cfg, trace, steps, i);
  }

  lemma RoomCountStep(cfg: Config, trace: seq<State>, steps: seq<Step>, i: nat)
    requires cfg.capacity >= 1 && SteadyRun(cfg, trace, steps) && i < |steps|
    requires |trace[i].rooms| <= RoomBound(cfg) && MembershipInv(trace[i])
    ensures |trace[i + 1].rooms| <= RoomBound(cfg)
  {
    RunClients(cfg, trace, steps, i);
    RunInv(cfg, trace, steps, i);
    NextRoomCount(cfg, trace[i], steps[i]);
  }

  /** A room is only created when all are full, so there are never more than the initial ones
      or one beyond the number of client slots. Room ids therefore never wrap, and
      membership is consistent in every such run without further condition. */
  lemma RoomCountBound(cfg: Config, trace: seq<State>, steps: seq<Step>, i: nat)
    requires cfg.capacity >= 1 && cfg.slots < UINT32 && cfg.initRooms <= UINT32
    requires Run(cfg, trace, steps) && Undisturbed(trace, steps) && i < |trace|
    ensures |trace[i].rooms| <= RoomBound(cfg) && MembershipInv(trace[i])
  {
    UndisturbedRun(cfg, trace, steps);
    SteadyRoomCount(cfg, trace, steps, i);
  }
}
