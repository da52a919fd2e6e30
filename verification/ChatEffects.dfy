/**
  What the steps of the chat machine do, by contents, in every run: who a kick removes, which
  sessions a disconnect forgets, whom a join makes and where it goes, whom a leave removes.
 */
module ChatEffects {
  import opened Basics
  import opened Rooms
  import opened Chat

  lemma StepOf(cfg: Config, trace: seq<State>, steps: seq<Step>, i: nat)
    requires Run(cfg, trace, steps) && i < |steps|
    ensures Enabled(cfg, trace[i], steps[i]) && trace[i + 1] == Next(cfg, trace[i], steps[i])
  {
  }

  /** Only the members of room `r` differ. */
  predicate OnlyRoom(s: State, t: State, r: nat)
  {
    && |t.rooms| == |s.rooms| && r < |s.rooms|
    && (forall q | 0 <= q < |s.rooms| && q != r :: t.rooms[q] == s.rooms[q])
    && t.rooms[r].id == s.rooms[r].id
    && t.users == s.users && t.nextUser == s.nextUser
    && t.sockets == s.sockets && t.known == s.known && t.sessions == s.sessions && t.nextSession == s.nextSession
  }

  // ---------------------------------------------------------------- disconnects

  /** After a kick, the room holds exactly the earlier members whose socket differed from the
      client's at that moment, in the old order, and nothing else has changed. */
  lemma KickLaw(cfg: Config, trace: seq<State>, steps: seq<Step>, i: nat)
    requires Run(cfg, trace, steps) && i < |steps| && steps[i].KickRoom?
    ensures var s, t, r, c := trace[i], trace[i + 1], steps[i].r, steps[i].c;
      && c < |s.sockets| && OnlyRoom(s, t, r) && t.logic == s.logic
      && ExactlyThose(s.rooms[r].members, t.rooms[r].members,
                      (u: User) => SocketOf(s.sockets, u.client) != s.sockets[c])
  {
    StepOf(cfg, trace, steps, i);
    var s, r, c := trace[i], steps[i].r, steps[i].c;
    var differs := (u: User) => SocketOf(s.sockets, u.client) != s.sockets[c];
    KeepExactly(s.rooms[r].members, differs);
    SameTest(s.rooms[r].members, differs, (u: User) => !SameSocket(s.sockets, u.client, c));
  }

  lemma {:induction false} SameTest(users: seq<User>, p: User -> bool, q: User -> bool)
    requires forall u <- users :: p(u) == q(u)
    ensures Keep(users, p) == Keep(users, q)
  {
    if users != [] {
      SameTest(users[1..], p, q);
    }
  }

  /** Exactly the sessions with another socket than the client's remain. */
  lemma SessionsLaw(cfg: Config, trace: seq<State>, steps: seq<Step>, i: nat)
    requires Run(cfg, trace, steps) && i < |steps| && steps[i].RemoveSessions?
    ensures var s, t, c := trace[i], trace[i + 1], steps[i].c;
      && c < |s.sockets| && t == s.(sessions := t.sessions)
      && (forall sid ::
            sid in t.sessions <==> sid in s.sessions && SocketOf(s.sockets, s.sessions[sid]) != s.sockets[c])
      && (forall sid <- t.sessions :: t.sessions[sid] == s.sessions[sid])
  {
    StepOf(cfg, trace, steps, i);
  }

  predicate Has(room: RoomState, sockets: Sockets, c: ClientId)
  {
    exists m <- room.members :: SocketOf(sockets, m.client) == SocketOf(sockets, c)
  }

  predicate QuietStep(step: Step)
  {
    !step.Open? && !step.Close? && !step.EnterRoom?
  }

  /** A step that changes no socket and admits nobody keeps a room free of a client. */
  lemma StaysFree(cfg: Config, s: State, step: Step, r: nat, c: ClientId)
    requires Inv(cfg, s) && Enabled(cfg, s, step) && QuietStep(step) && r < |s.rooms|
    requires !Has(s.rooms[r], s.sockets, c)
    ensures var t := Next(cfg, s, step);
      t.sockets == s.sockets && r < |t.rooms| && !Has(t.rooms[r], t.sockets, c)
  {
    match step
    case KickRoom(q, d) => KeepElements(s.rooms[q].members, (u: User) => !SameSocket(s.sockets, u.client, d));
    case LeaveRoom =>
      LeaveEffect(cfg, s);
      KeepElements(s.rooms[s.logic.user.roomId].members, (u: User) => u.id != s.logic.user.id);
    case _ =>
  }

  lemma KickFrees(cfg: Config, s: State, r: nat, c: ClientId)
    requires Enabled(cfg, s, KickRoom(r, c))
    ensures var t := Next(cfg, s, KickRoom(r, c));
      t.sockets == s.sockets && r < |t.rooms| && !Has(t.rooms[r], t.sockets, c)
  {
    KeepElements(s.rooms[r].members, (u: User) => !SameSocket(s.sockets, u.client, c));
  }

  /** A room added by a join is empty. */
  lemma NewRoomIsFree(cfg: Config, s: State, step: Step, r: nat, c: ClientId)
    requires Enabled(cfg, s, step) && QuietStep(step) && |s.rooms| <= r < |Next(cfg, s, step).rooms|
    ensures !Has(Next(cfg, s, step).rooms[r], s.sockets, c)
  {
  }

  ghost predicate QuietBetween(steps: seq<Step>, i: nat, j: nat)
  {
    i <= j <= |steps| && forall k | i <= k < j :: QuietStep(steps[k])
  }

  /** Some kick of room `r` for client `c` between the two points. */
  ghost predicate Kicked(steps: seq<Step>, i: nat, j: nat, r: nat, c: ClientId)
  {
    exists k | i <= k < j && k < |steps| :: steps[k] == KickRoom(r, c)
  }

  lemma FreedStep(cfg: Config, s: State, step: Step, r: nat, c: ClientId)
    requires Inv(cfg, s) && Enabled(cfg, s, step) && QuietStep(step) && r < |Next(cfg, s, step).rooms|
    requires step == KickRoom(r, c) || r >= |s.rooms| || !Has(s.rooms[r], s.sockets, c)
    ensures !Has(Next(cfg, s, step).rooms[r], Next(cfg, s, step).sockets, c)
  {
    if step == KickRoom(r, c) {
      KickFrees(cfg, s, r, c);
    } else if r >= |s.rooms| {
      NewRoomIsFree(cfg, s, step, r, c);
      SocketsStay(cfg, s, step);
    } else {
      StaysFree(cfg, s, step, r, c);
    }
  }

  /** Room `r`, if there yet, has no member with the client's socket. */
  predicate FreeOf(s: State, r: nat, c: ClientId)
  {
    r < |s.rooms| ==> !Has(s.rooms[r], s.sockets, c)
  }

  lemma FreedByStep(cfg: Config, trace: seq<State>, steps: seq<Step>, k: nat, r: nat, c: ClientId)
    requires Run(cfg, trace, steps) && k < |steps| && QuietStep(steps[k])
    requires steps[k] == KickRoom(r, c) || FreeOf(trace[k], r, c)
    ensures FreeOf(trace[k + 1], r, c)
  {
    StepOf(cfg, trace, steps, k);
    RunInv(cfg, trace, steps, k);
    if r < |trace[k + 1].rooms| {
      FreedStep(cfg, trace[k], steps[k], r, c);
    }
  }

  /** From a point where the room is free, or from the kick on, it stays free. */
  lemma {:induction false} StaysFreeOf(cfg: Config, trace: seq<State>, steps: seq<Step>,
                                       k: nat, j: nat, r: nat, c: ClientId)
    requires Run(cfg, trace, steps) && QuietBetween(steps, k, j) && FreeOf(trace[k], r, c)
    ensures FreeOf(trace[j], r, c)
    decreases j - k
  {
    if k < j {
      FreedByStep(cfg, trace, steps, k, r, c);
      StaysFreeOf(cfg, trace, steps, k + 1, j, r, c);
    }
  }

  lemma RoomFreed(cfg: Config, trace: seq<State>, steps: seq<Step>, i: nat, j: nat, r: nat, c: ClientId)
    requires Run(cfg, trace, steps) && QuietBetween(steps, i, j)
    requires r < |trace[i].rooms| ==> Kicked(steps, i, j, r, c)
    ensures FreeOf(trace[j], r, c)
  {
    if r < |trace[i].rooms| {
      var k :| i <= k < j && k < |steps| && steps[k] == KickRoom(r, c);
      FreedByStep(cfg, trace, steps, k, r, c);
      StaysFreeOf(cfg, trace, steps, k + 1, j, r, c);
    } else {
      StaysFreeOf(cfg, trace, steps, i, j, r, c);
    }
  }

  lemma SocketsStay(cfg: Config, s: State, step: Step)
    requires Enabled(cfg, s, step) && QuietStep(step)
    ensures Next(cfg, s, step).sockets == s.sockets
  {
  }

  /** Once every room has been kicked for a client, and nobody has entered and no socket has
      changed since, no member of any room has that client's socket. */
  lemma KickedOut(cfg: Config, trace: seq<State>, steps: seq<Step>, i: nat, j: nat, c: ClientId)
    requires Run(cfg, trace, steps) && QuietBetween(steps, i, j)
    requires forall r: nat | r < |trace[i].rooms| :: Kicked(steps, i, j, r, c)
    ensures forall r | 0 <= r < |trace[j].rooms| ::
      forall m <- trace[j].rooms[r].members :: SocketOf(trace[j].sockets, m.client) != SocketOf(trace[j].sockets, c)
  {
    forall r, m | 0 <= r < |trace[j].rooms| && m in trace[j].rooms[r].members
      ensures SocketOf(trace[j].sockets, m.client) != SocketOf(trace[j].sockets, c)
    {
      RoomFreed(cfg, trace, steps, i, j, r, c);
      assert !Has(trace[j].rooms[r], trace[j].sockets, c);
    }
  }

  // ---------------------------------------------------------------- joins

  /** The first room with a place, or the one behind all full ones. */
  predicate FirstFit(rooms: seq<RoomState>, capacity: nat, room: nat)
  {
    && room <= |rooms| && (forall q | 0 <= q < room :: |rooms[q].members| >= capacity)
    && (room < |rooms| ==> |rooms[room].members| < capacity)
  }

  /** The join in progress was started by step `a`, which picked the first room that fits. */
  ghost predicate StartedAt(cfg: Config, trace: seq<State>, steps: seq<Step>, a: nat, i: nat,
                            c: ClientId, name: string, room: nat)
    requires |trace| == |steps| + 1
  {
    && a < i <= |steps| && steps[a] == PickRoom(c, name) && FirstFit(trace[a].rooms, cfg.capacity, room)
    && forall k | a < k < i :: !steps[k].PickRoom?
  }

  predicate Joining(logic: Logic)
  {
    logic.JoinPicked? || logic.JoinFound?
  }

  lemma JoinStep(cfg: Config, s: State, step: Step)
    requires Enabled(cfg, s, step) && Joining(Next(cfg, s, step).logic)
    ensures var l, l' := s.logic, Next(cfg, s, step).logic;
      && (step.PickRoom? ==> step == PickRoom(l'.client, l'.name) && FirstFit(s.rooms, cfg.capacity, l'.room))
      && (!step.PickRoom? ==> Joining(l) && l.client == l'.client && l.name == l'.name && l.room == l'.room)
  {
  }

  lemma JoinByStep(cfg: Config, trace: seq<State>, steps: seq<Step>, k: nat)
    requires Run(cfg, trace, steps) && k < |steps| && Joining(trace[k + 1].logic)
    ensures var step, l, l' := steps[k], trace[k].logic, trace[k + 1].logic;
      && (step.PickRoom? ==> step == PickRoom(l'.client, l'.name) && FirstFit(trace[k].rooms, cfg.capacity, l'.room))
      && (!step.PickRoom? ==> Joining(l) && l.client == l'.client && l.name == l'.name && l.room == l'.room)
  {
    StepOf(cfg, trace, steps, k);
    JoinStep(cfg, trace[k], steps[k]);
  }

  lemma {:induction false} JoinStarted(cfg: Config, trace: seq<State>, steps: seq<Step>, i: nat) returns (a: nat)
    requires Run(cfg, trace, steps) && i < |trace| && Joining(trace[i].logic)
    ensures var l := trace[i].logic; StartedAt(cfg, trace, steps, a, i, l.client, l.name, l.room)
  {
    assert trace[0].logic.Idle?;
    JoinByStep(cfg, trace, steps, i - 1);
    if steps[i - 1].PickRoom? {
      a := i - 1;
    } else {
      a := JoinStarted(cfg, trace, steps, i - 1);
      var l := trace[i].logic;
      StartedLonger(cfg, trace, steps, a, i - 1, l.client, l.name, l.room);
    }
  }

  lemma StartedLonger(cfg: Config, trace: seq<State>, steps: seq<Step>, a: nat, i: nat,
                      c: ClientId, name: string, room: nat)
    requires |trace| == |steps| + 1 && i < |steps| && !steps[i].PickRoom?
    requires StartedAt(cfg, trace, steps, a, i, c, name, room)
    ensures StartedAt(cfg, trace, steps, a, i + 1, c, name, room)
  {
  }

  /** The session of client `owner` was found at step `b`, where its socket was the joiner's. */
  ghost predicate FoundAt(trace: seq<State>, steps: seq<Step>, b: nat, i: nat, c: ClientId, owner: ClientId)
    requires |trace| == |steps| + 1
  {
    && b < i <= |steps| && steps[b].FindSession?
    && steps[b].sid in trace[b].sessions && trace[b].sessions[steps[b].sid] == owner
    && SocketOf(trace[b].sockets, owner) == SocketOf(trace[b].sockets, c)
  }

  lemma FoundStep(cfg: Config, s: State, step: Step)
    requires Enabled(cfg, s, step) && Next(cfg, s, step).logic.JoinFound?
    ensures var l, l' := s.logic, Next(cfg, s, step).logic;
      && (step.FindSession? ==>
            && step.sid in s.sessions && s.sessions[step.sid] == l'.owner
            && SocketOf(s.sockets, l'.owner) == SocketOf(s.sockets, l'.client))
      && (!step.FindSession? ==> l.JoinFound? && l.owner == l'.owner && l.client == l'.client)
  {
  }

  lemma FoundByStep(cfg: Config, trace: seq<State>, steps: seq<Step>, k: nat)
    requires Run(cfg, trace, steps) && k < |steps| && trace[k + 1].logic.JoinFound?
    ensures var l := trace[k + 1].logic;
      && (steps[k].FindSession? ==> FoundAt(trace, steps, k, k + 1, l.client, l.owner))
      && (!steps[k].FindSession? ==>
            trace[k].logic.JoinFound? && trace[k].logic.owner == l.owner && trace[k].logic.client == l.client)
  {
    StepOf(cfg, trace, steps, k);
    FoundStep(cfg, trace[k], steps[k]);
  }

  lemma {:induction false} SessionFound(cfg: Config, trace: seq<State>, steps: seq<Step>, i: nat) returns (b: nat)
    requires Run(cfg, trace, steps) && i < |trace| && trace[i].logic.JoinFound?
    ensures var l := trace[i].logic; FoundAt(trace, steps, b, i, l.client, l.owner)
  {
    assert trace[0].logic.Idle?;
    FoundByStep(cfg, trace, steps, i - 1);
    if steps[i - 1].FindSession? {
      b := i - 1;
    } else {
      b := SessionFound(cfg, trace, steps, i - 1);
    }
  }

  /** Creating the user of a join: a number never used, the name the join carried, the client
      of the session that was found for it, and the id of the room picked; no user before it
      changes. `a` is where the join was taken up, `b` where the session was found. */
  lemma CreateLaw(cfg: Config, trace: seq<State>, steps: seq<Step>, i: nat) returns (a: nat, b: nat)
    requires Run(cfg, trace, steps) && i < |steps| && steps[i].CreateUser?
    ensures var s, t := trace[i], trace[i + 1];
      && s.logic.JoinFound? && s.nextUser !in s.users
      && var l := s.logic;
      && StartedAt(cfg, trace, steps, a, i, l.client, l.name, l.room)
      && FoundAt(trace, steps, b, i, l.client, l.owner)
      && var user := User(s.nextUser, l.name, l.owner, l.room % 4294967296);
      && t.users == s.users[s.nextUser := user] && t.logic == JoinCreated(l.room, user)
      && t == s.(users := t.users, nextUser := s.nextUser + 1, logic := t.logic)
  {
    RunInv(cfg, trace, steps, i);
    StepOf(cfg, trace, steps, i);
    a := JoinStarted(cfg, trace, steps, i);
    b := SessionFound(cfg, trace, steps, i);
  }

  /** Entering adds the user behind the members of the room picked and changes nothing else. */
  lemma EnterLaw(cfg: Config, trace: seq<State>, steps: seq<Step>, i: nat)
    requires Run(cfg, trace, steps) && i < |steps| && steps[i].EnterRoom?
    ensures var s, t := trace[i], trace[i + 1];
      && s.logic.JoinCreated? && OnlyRoom(s, t, s.logic.room) && t.logic.Idle?
      && t.rooms[s.logic.room].members == s.rooms[s.logic.room].members + [s.logic.user]
  {
    StepOf(cfg, trace, steps, i);
  }

  // ---------------------------------------------------------------- leaves

  /** A leave removes exactly the user found, from the room with the id it stores, keeping the
      order of the others, and changes nothing else. */
  lemma LeaveLaw(cfg: Config, trace: seq<State>, steps: seq<Step>, i: nat)
    requires Run(cfg, trace, steps) && i < |steps| && steps[i].LeaveRoom?
    ensures var s, t := trace[i], trace[i + 1];
      && s.logic.LeaveFound? && t.logic == LeaveLeft(s.logic.user)
      && var user := s.logic.user;
      && OnlyRoom(s, t, user.roomId)
      && ExactlyThose(s.rooms[user.roomId].members, t.rooms[user.roomId].members, (u: User) => u.id != user.id)
  {
    RunInv(cfg, trace, steps, i);
    StepOf(cfg, trace, steps, i);
    var s := trace[i];
    LeaveEffect(cfg, s);
    KeepExactly(s.rooms[s.logic.user.roomId].members, (u: User) => u.id != s.logic.user.id);
  }

  /** The user a leave finds has the sender's socket, and in the end exactly he is dropped. */
  lemma FindAndDropLaw(cfg: Config, trace: seq<State>, steps: seq<Step>, i: nat)
    requires Run(cfg, trace, steps) && i < |steps|
    ensures var s, t := trace[i], trace[i + 1];
      && (steps[i].FindUser? ==>
            && steps[i].uid in s.users && t == s.(logic := LeaveFound(s.users[steps[i].uid]))
            && SocketOf(s.sockets, s.users[steps[i].uid].client) == SocketOf(s.sockets, steps[i].c))
      && (steps[i].RemoveUser? ==>
            s.logic.LeaveLeft? && t == s.(users := s.users - {s.logic.user.id}, logic := Idle))
  {
    StepOf(cfg, trace, steps, i);
  }
}
