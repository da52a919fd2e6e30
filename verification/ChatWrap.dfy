/**
  What happens when room ids wrap. Room ids have 32 bits, so the room created after 2^32 others
  has the id of the first, and a user leaving it is erased from the wrong room. This module
  proves for exactly which configurations no run gets that far.
 */
module ChatWrap {
  import opened Basics
  import opened Rooms
  import opened Chat
  import opened ChatClients

  ghost predicate Reachable(cfg: Config, s: State)
  {
    exists trace: seq<State>, steps: seq<Step> :: Run(cfg, trace, steps) && trace[|trace| - 1] == s
  }

  /** Reachable by a run in which every accept takes the first free slot. */
  ghost predicate Reached(cfg: Config, s: State)
  {
    exists trace: seq<State>, steps: seq<Step> ::
      Run(cfg, trace, steps) && FirstFreeRun(trace, steps) && trace[|trace| - 1] == s
  }

  lemma ReachNext(cfg: Config, s: State, step: Step) returns (t: State)
    requires Reached(cfg, s) && Enabled(cfg, s, step) && (step.Open? ==> TakesFirstFree(s, step.c))
    ensures t == Next(cfg, s, step) && Reached(cfg, t)
  {
    var trace: seq<State>, steps: seq<Step> :|
      Run(cfg, trace, steps) && FirstFreeRun(trace, steps) && trace[|trace| - 1] == s;
    var longer;
    longer, t := Extend(cfg, trace, steps, step);
    assert longer[|longer| - 1] == t;
  }

  lemma ReachedInv(cfg: Config, s: State)
    requires Reached(cfg, s)
    ensures Reachable(cfg, s) && Inv(cfg, s)
  {
    var trace: seq<State>, steps: seq<Step> :|
      Run(cfg, trace, steps) && FirstFreeRun(trace, steps) && trace[|trace| - 1] == s;
    RunInv(cfg, trace, steps, |trace| - 1);
  }

  /** Nobody is connected, has a session or is registered. */
  ghost predicate Quiet(cfg: Config, s: State)
  {
    && s.sockets == seq(cfg.slots, _ => Invalid)
    && s.sessions == map[] && s.users == map[] && s.nextUser == 0
    && s.logic.Idle? && forall r <- s.rooms :: r.members == []
  }

  lemma Start(cfg: Config) returns (s: State)
    ensures Reached(cfg, s) && Quiet(cfg, s) && |s.rooms| == cfg.initRooms && s.nextSession == 0
  {
    var trace, steps := Begin(cfg);
    s := trace[0];
    assert FirstFreeRun(trace, steps) && trace[|trace| - 1] == s;
  }

  // ---------------------------------------------------------------- a stranded member

  /** A user of the room behind 2^32 others stays in it after leaving, unregistered. */
  lemma LeaveStrands(cfg: Config, s: State, uid: nat) returns (t: State)
    requires Reached(cfg, s) && s.logic.Idle? && |s.rooms| > UINT32
    requires uid in s.users && s.users[uid].client in s.known
    requires s.users[uid].roomId == 0 && s.users[uid] in s.rooms[UINT32].members
    ensures Reached(cfg, t) && |t.rooms| > UINT32
    ensures s.users[uid] in t.rooms[UINT32].members && uid !in t.users && !Consistent(t)
  {
    ReachedInv(cfg, s);
    var user := s.users[uid];
    assert s.rooms[0].id == 0 && user.id == uid;
    var s1 := ReachNext(cfg, s, FindUser(user.client, uid));
    var s2 := ReachNext(cfg, s1, LeaveRoom);
    assert s2.rooms[UINT32] == s.rooms[UINT32] && s2.logic == LeaveLeft(user);
    t := ReachNext(cfg, s2, RemoveUser);
    assert user in t.rooms[UINT32].members && !Registered(t, user);
  }

  // ---------------------------------------------------------------- capacity 0

  /** Client 0 connects, sends its joins and disconnects before any of them is handled. */
  lemma ComeAndGo(cfg: Config) returns (s: State)
    requires cfg.slots >= 1
    ensures Reached(cfg, s) && Quiet(cfg, s) && 0 in s.known && |s.rooms| == cfg.initRooms && s.nextSession == 1
  {
    s := Start(cfg);
    s := ReachNext(cfg, s, Open(0, 0));
    s := ReachNext(cfg, s, CreateSession(0));
    s := ReachNext(cfg, s, RemoveSessions(0));
    s := ReachNext(cfg, s, Close(0));
  }

  /** With capacity 0 every attempt to join adds a room, even one without a session. */
  lemma {:induction false} GrowEmpty(cfg: Config, n: nat) returns (s: State)
    requires cfg.capacity == 0 && cfg.slots >= 1 && n >= cfg.initRooms
    ensures Reached(cfg, s) && Quiet(cfg, s) && 0 in s.known && |s.rooms| == n && s.nextSession == 1
    decreases n
  {
    if n == cfg.initRooms {
      s := ComeAndGo(cfg);
    } else {
      s := GrowEmpty(cfg, n - 1);
      s := ReachNext(cfg, s, PickRoom(0, ""));
      s := ReachNext(cfg, s, NoSession);
    }
  }

  lemma ZeroCapacityStrands(cfg: Config) returns (t: State)
    requires cfg.capacity == 0 && cfg.slots >= 1 && cfg.initRooms <= UINT32
    ensures Reached(cfg, t) && !Consistent(t)
  {
    var s := GrowEmpty(cfg, UINT32);
    s := ReachNext(cfg, s, Open(0, 0));
    s := ReachNext(cfg, s, CreateSession(0));
    s := ReachNext(cfg, s, PickRoom(0, ""));
    s := EnterPicked(cfg, s, 1);
    t := LeaveStrands(cfg, s, 0);
  }

  /** The first user ever, of client 0, enters the room it picked. */
  lemma EnterPicked(cfg: Config, s: State, sid: nat) returns (t: State)
    requires Reached(cfg, s) && s.logic.JoinPicked? && s.logic.client == 0 && s.logic.room == UINT32 < |s.rooms|
    requires s.users == map[] && s.nextUser == 0 && sid in s.sessions && s.sessions[sid] == 0
    ensures Reached(cfg, t) && t.logic.Idle? && |t.rooms| == |s.rooms| && t.known == s.known
    ensures 0 in t.users && t.users[0].client == 0
    ensures t.users[0].roomId == 0 && t.users[0] in t.rooms[UINT32].members
  {
    t := ReachNext(cfg, s, FindSession(sid));
    t := ReachNext(cfg, t, CreateUser);
    t := ReachNext(cfg, t, EnterRoom);
  }

  // ---------------------------------------------------------------- two slots

  /** The rooms below `k` are full, room `k` holds `m` users and the rest are empty. */
  predicate Packed(rooms: seq<RoomState>, capacity: nat, k: nat, m: nat)
  {
    && k <= |rooms| && m < capacity && (k == |rooms| ==> m == 0)
    && (forall i | 0 <= i < k :: |rooms[i].members| == capacity)
    && (k < |rooms| ==> |rooms[k].members| == m)
    && (forall i | k < i < |rooms| :: rooms[i].members == [])
  }

  /** Clients 0 and 1 have been connected, everyone is closed, every user has client 0, and
      client 0 has left its session behind. */
  ghost predicate Crowd(cfg: Config, s: State)
  {
    && s.logic.Idle? && |s.sockets| == cfg.slots && cfg.slots >= 2
    && (forall c | 0 <= c < |s.sockets| :: s.sockets[c] == Invalid)
    && 0 in s.known && 1 in s.known && 0 in s.sessions && s.sessions[0] == 0
    && (forall id <- s.users :: s.users[id].client == 0)
  }

  lemma PackedPick(rooms: seq<RoomState>, capacity: nat, k: nat, m: nat)
    requires Packed(rooms, capacity, k, m)
    ensures FirstBelow(rooms, capacity) == k && k < |Pick(rooms, capacity)|
    ensures Packed(Pick(rooms, capacity), capacity, k, m)
  {
  }

  function NextRoom(capacity: nat, k: nat, m: nat): nat
  {
    if m + 1 == capacity then k + 1 else k
  }

  function NextCount(capacity: nat, m: nat): nat
  {
    if m + 1 == capacity then 0 else m + 1
  }

  lemma PackedEnter(rooms: seq<RoomState>, capacity: nat, k: nat, m: nat, user: User)
    requires Packed(rooms, capacity, k, m) && k < |rooms|
    ensures var entered := WithMembers(rooms, k, rooms[k].members + [user]);
            Packed(entered, capacity, NextRoom(capacity, k, m), NextCount(capacity, m))
  {
  }

  /** The comparison of every user with client 1, while client 0 has a socket again. */
  lemma {:induction false} CheckAll(cfg: Config, s: State) returns (t: State)
    requires Reached(cfg, s) && s.logic.JoinFound? && s.logic.client == 1 && s.logic.unchecked <= s.users.Keys
    requires |s.sockets| >= 2 && s.sockets[0].Handle? && s.sockets[1] == Invalid
    requires forall id <- s.users :: s.users[id].client == 0
    ensures Reached(cfg, t) && t == s.(logic := s.logic.(unchecked := {}))
    decreases |s.logic.unchecked|
  {
    if s.logic.unchecked == {} {
      t := s;
    } else {
      var uid :| uid in s.logic.unchecked;
      var s' := ReachNext(cfg, s, CheckUser(uid));
      t := CheckAll(cfg, s');
    }
  }

  /** A join of client 1 up to the point where every user has been compared. */
  lemma PickAndCheck(cfg: Config, s: State, k: nat, m: nat) returns (t: State)
    requires Reached(cfg, s) && Crowd(cfg, s) && Packed(s.rooms, cfg.capacity, k, m)
    ensures Reached(cfg, t) && t.logic == JoinFound(1, "", k, 0, {})
    ensures t == s.(rooms := t.rooms, sockets := s.sockets[0 := Handle(0)], logic := t.logic)
    ensures Packed(t.rooms, cfg.capacity, k, m) && k < |t.rooms|
  {
    PackedPick(s.rooms, cfg.capacity, k, m);
    t := ReachNext(cfg, s, PickRoom(1, ""));
    t := ReachNext(cfg, t, FindSession(0));
    t := ReachNext(cfg, t, Open(0, 0));
    t := CheckAll(cfg, t);
  }

  /** One more user of client 0. */
  lemma JoinOne(cfg: Config, s: State, k: nat, m: nat) returns (t: State, uid: nat)
    requires Reached(cfg, s) && Crowd(cfg, s) && Packed(s.rooms, cfg.capacity, k, m)
    ensures Reached(cfg, t) && Crowd(cfg, t)
    ensures Packed(t.rooms, cfg.capacity, NextRoom(cfg.capacity, k, m), NextCount(cfg.capacity, m))
    ensures k < |t.rooms| && uid in t.users && t.users[uid].client == 0
    ensures t.users[uid].roomId == k % UINT32 && t.users[uid] in t.rooms[k].members
  {
    t := PickAndCheck(cfg, s, k, m);
    t := ReachNext(cfg, t, CreateUser);
    var user := t.logic.user;
    uid := user.id;
    PackedEnter(t.rooms, cfg.capacity, k, m, user);
    t := ReachNext(cfg, t, EnterRoom);
    t := ReachNext(cfg, t, Close(0));
    assert t.rooms[k].members[|t.rooms[k].members| - 1] == user;
  }

  lemma {:induction false} FillTo(cfg: Config, s: State, k: nat, m: nat, target: nat) returns (t: State)
    requires Reached(cfg, s) && Crowd(cfg, s) && Packed(s.rooms, cfg.capacity, k, m)
    requires k < target || (k == target && m == 0)
    ensures Reached(cfg, t) && Crowd(cfg, t) && Packed(t.rooms, cfg.capacity, target, 0)
    decreases target - k, cfg.capacity - m
  {
    t := s;
    if k < target {
      var uid;
      t, uid := JoinOne(cfg, s, k, m);
      t := FillTo(cfg, t, NextRoom(cfg.capacity, k, m), NextCount(cfg.capacity, m), target);
    }
  }

  lemma FirstCrowd(cfg: Config) returns (s: State)
    requires cfg.capacity >= 1 && cfg.slots >= 2
    ensures Reached(cfg, s) && Crowd(cfg, s) && Packed(s.rooms, cfg.capacity, 0, 0)
  {
    s := Start(cfg);
    s := ReachNext(cfg, s, Open(0, 0));
    s := ReachNext(cfg, s, CreateSession(0));
    s := ReachNext(cfg, s, Open(1, 1));
    s := ReachNext(cfg, s, CreateSession(1));
    s := ReachNext(cfg, s, Close(0));
    s := ReachNext(cfg, s, Close(1));
  }

  lemma TwoSlotsStrand(cfg: Config) returns (t: State)
    requires cfg.capacity >= 1 && cfg.slots >= 2
    ensures Reached(cfg, t) && !Consistent(t)
  {
    var s := FirstCrowd(cfg);
    s := FillTo(cfg, s, 0, 0, UINT32);
    var uid;
    s, uid := JoinOne(cfg, s, UINT32, 0);
    t := LeaveStrands(cfg, s, uid);
  }

  // ---------------------------------------------------------------- the exact condition

  ghost predicate ConsistentAlways(cfg: Config)
  {
    forall s: State | Reachable(cfg, s) :: Consistent(s)
  }

  ghost predicate ConsistentFirstFree(cfg: Config)
  {
    forall s: State | Reached(cfg, s) :: Consistent(s)
  }

  lemma OneSlotConsistent(cfg: Config, s: State)
    requires cfg.initRooms <= UINT32 && Reachable(cfg, s)
    requires cfg.slots == 0 || (cfg.slots == 1 && cfg.capacity >= 1)
    ensures Consistent(s)
  {
    var trace: seq<State>, steps: seq<Step> :| Run(cfg, trace, steps) && trace[|trace| - 1] == s;
    var i := |trace| - 1;
    if cfg.slots == 0 {
      NoSlotsNoSteps(cfg, trace, steps);
    } else {
      OneSlotIsSteady(cfg, trace, steps);
      SteadyRoomCount(cfg, trace, steps, i);
      MembershipConsistent(cfg, trace, steps, i);
    }
  }

  lemma Strand(cfg: Config) returns (t: State)
    requires cfg.initRooms <= UINT32 && cfg.slots >= 1 && (cfg.slots == 1 ==> cfg.capacity == 0)
    ensures Reached(cfg, t) && Reachable(cfg, t) && !Consistent(t)
  {
    if cfg.capacity == 0 {
      t := ZeroCapacityStrands(cfg);
    } else {
      t := TwoSlotsStrand(cfg);
    }
    ReachedInv(cfg, t);
  }

  /** Membership is consistent in every reachable state if and only if nobody can connect, or
      there is one client slot and rooms have a capacity; accepts that always take the first
      free slot make no difference. With two slots, reopening them inside joins piles up users
      until the room ids wrap; with capacity 0 joins of a client that has gone do. */
  lemma ConsistencyExactly(cfg: Config)
    requires cfg.initRooms <= UINT32
    ensures ConsistentAlways(cfg) <==> cfg.slots == 0 || (cfg.slots == 1 && cfg.capacity >= 1)
    ensures ConsistentFirstFree(cfg) <==> cfg.slots == 0 || (cfg.slots == 1 && cfg.capacity >= 1)
  {
    if cfg.slots == 0 || (cfg.slots == 1 && cfg.capacity >= 1) {
      forall s: State | Reachable(cfg, s)
        ensures Consistent(s)
      {
        OneSlotConsistent(cfg, s);
      }
      forall s: State | Reached(cfg, s)
        ensures Consistent(s)
      {
        ReachedInv(cfg, s);
      }
    } else {
      var t := Strand(cfg);
      assert Reached(cfg, t) && Reachable(cfg, t) && !Consistent(t);
    }
  }
}
