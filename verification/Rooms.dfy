/**
  Chat rooms and their manager. `User` objects never change after construction and are shared
  between a room and the user registry, so they are values. A client object is named by its
  slot in the client pool; `Sockets` gives the socket of every slot at one moment.
 */
module Rooms {
  import opened Basics

  type ClientId = nat

  datatype Socket = Invalid | Handle(number: nat)

  type Sockets = seq<Socket>

  datatype User = User(id: nat, name: string, client: ClientId, roomId: nat)

  datatype Packet =
    | UserJoined(roomId: nat, userId: nat, name: string)
    | UserLeft(userId: nat, name: string)
    | ChatMessage(senderId: nat, name: string, message: string, sequence: nat)

  /** A packet handed to the session of `to`. */
  datatype Delivery = Delivery(to: User, packet: Packet)

  function SocketOf(sockets: Sockets, c: ClientId): Socket
  {
    if c < |sockets| then sockets[c] else Invalid
  }

  /** Clients are compared by socket, so any two closed clients look the same. */
  predicate SameSocket(sockets: Sockets, c: ClientId, d: ClientId)
  {
    SocketOf(sockets, c) == SocketOf(sockets, d)
  }

  // ---------------------------------------------------------------- membership lists

  function Keep(users: seq<User>, p: User -> bool): seq<User>
  {
    if users == [] then []
    else if p(users[0]) then [users[0]] + Keep(users[1..], p)
    else Keep(users[1..], p)
  }

  function Connected(users: seq<User>, sockets: Sockets, c: ClientId): seq<User>
  {
    Keep(users, (u: User) => !SameSocket(sockets, u.client, c))
  }

  function Others(users: seq<User>, id: nat): seq<User>
  {
    Keep(users, (u: User) => u.id != id)
  }

  /** Without the first user that has the id. */
  function WithoutFirst(users: seq<User>, id: nat): seq<User>
  {
    if users == [] then []
    else if users[0].id == id then users[1..]
    else [users[0]] + WithoutFirst(users[1..], id)
  }

  function ToAll(users: seq<User>, packet: Packet): (sent: seq<Delivery>)
    ensures |sent| == |users| && forall i | 0 <= i < |users| :: sent[i] == Delivery(users[i], packet)
  {
    seq(|users|, i requires 0 <= i < |users| => Delivery(users[i], packet))
  }

  predicate IsFirst(users: seq<User>, k: nat, id: nat)
    requires k < |users|
  {
    users[k].id == id && forall i | 0 <= i < k :: users[i].id != id
  }

  predicate DistinctIds(users: seq<User>)
  {
    forall i, j | 0 <= i < j < |users| :: users[i].id != users[j].id
  }

  lemma {:induction false} KeepElements(users: seq<User>, p: User -> bool)
    ensures |Keep(users, p)| <= |users|
    ensures forall u :: u in Keep(users, p) <==> u in users && p(u)
  {
    if users != [] {
      KeepElements(users[1..], p);
      assert users == [users[0]] + users[1..];
    }
  }

  /** `kept` are the users at the positions `idx`, which go up. */
  ghost predicate Picks(users: seq<User>, kept: seq<User>, idx: seq<nat>)
  {
    && |idx| == |kept|
    && (forall k | 0 <= k < |idx| :: idx[k] < |users| && kept[k] == users[idx[k]])
    && (forall k, l | 0 <= k < l < |idx| :: idx[k] < idx[l])
  }

  /** `kept` are exactly the users that pass the test, each as often as before, in order. */
  ghost predicate ExactlyThose(users: seq<User>, kept: seq<User>, p: User -> bool)
  {
    exists idx :: Picks(users, kept, idx) && forall j: nat | j < |users| :: j in idx <==> p(users[j])
  }

  lemma {:induction false} KeepPicks(users: seq<User>, p: User -> bool) returns (idx: seq<nat>)
    ensures Picks(users, Keep(users, p), idx) && forall j: nat | j < |users| :: j in idx <==> p(users[j])
  {
    if users == [] {
      idx := [];
    } else {
      var rest := KeepPicks(users[1..], p);
      var up := Shifted(rest);
      ShiftedPicks(users, Keep(users[1..], p), rest, p);
      if p(users[0]) {
        ZeroFirst(users, Keep(users[1..], p), up);
        idx := [0] + up;
      } else {
        idx := up;
      }
    }
  }

  lemma ZeroFirst(users: seq<User>, kept: seq<User>, up: seq<nat>)
    requires users != [] && Picks(users, kept, up) && 0 !in up
    ensures Picks(users, [users[0]] + kept, [0] + up)
    ensures forall j: nat :: j in [0] + up <==> j == 0 || j in up
  {
    var idx, all := [0] + up, [users[0]] + kept;
    forall k, l | 0 <= k < l < |idx|
      ensures idx[k] < idx[l]
    {
      assert idx[l] == up[l - 1] && up[l - 1] in up;
      assert k > 0 ==> idx[k] == up[k - 1];
    }
    forall k | 0 <= k < |idx|
      ensures idx[k] < |users| && all[k] == users[idx[k]]
    {
      assert k > 0 ==> idx[k] == up[k - 1] && all[k] == kept[k - 1];
    }
  }

  function Shifted(idx: seq<nat>): seq<nat>
  {
    seq(|idx|, k requires 0 <= k < |idx| => idx[k] + 1)
  }

  lemma ShiftedPicks(users: seq<User>, kept: seq<User>, idx: seq<nat>, p: User -> bool)
    requires users != [] && Picks(users[1..], kept, idx)
    requires forall j: nat | j < |users| - 1 :: j in idx <==> p(users[1..][j])
    ensures Picks(users, kept, Shifted(idx)) && 0 !in Shifted(idx)
    ensures forall j: nat | 0 < j < |users| :: j in Shifted(idx) <==> p(users[j])
  {
    var up := Shifted(idx);
    forall j: nat | 0 < j < |users|
      ensures j in up <==> p(users[j])
    {
      if j in up {
        var k :| 0 <= k < |up| && up[k] == j;
        assert idx[k] == j - 1;
      }
      if j - 1 in idx {
        var k :| 0 <= k < |idx| && idx[k] == j - 1;
        assert up[k] == j;
      }
      assert users[1..][j - 1] == users[j];
    }
  }

  lemma KeepExactly(users: seq<User>, p: User -> bool)
    ensures ExactlyThose(users, Keep(users, p), p)
  {
    var idx := KeepPicks(users, p);
  }

  lemma {:induction false} KeepDistinct(users: seq<User>, p: User -> bool)
    requires DistinctIds(users)
    ensures DistinctIds(Keep(users, p))
  {
    if users != [] {
      KeepDistinct(users[1..], p);
      KeepElements(users[1..], p);
      var rest := Keep(users[1..], p);
      forall j | 0 <= j < |rest|
        ensures rest[j].id != users[0].id
      {
        assert rest[j] in users[1..];
      }
    }
  }

  lemma {:induction false} KeepAppend(users: seq<User>, u: User, p: User -> bool)
    ensures Keep(users + [u], p) == Keep(users, p) + if p(u) then [u] else []
  {
    if users == [] {
      assert users + [u] == [u];
      assert Keep([], p) == [];
      assert [u][1..] == [];
    } else {
      assert (users + [u])[1..] == users[1..] + [u];
      KeepAppend(users[1..], u, p);
    }
  }

  lemma {:induction false} KeepAll(users: seq<User>, p: User -> bool)
    requires forall u <- users :: p(u)
    ensures Keep(users, p) == users
  {
    if users != [] {
      KeepAll(users[1..], p);
    }
  }

  /** Where ids are distinct, erasing the first user with an id erases all that have it. */
  lemma {:induction false} WithoutFirstIsOthers(users: seq<User>, id: nat)
    requires DistinctIds(users)
    ensures WithoutFirst(users, id) == Others(users, id)
  {
    if users != [] {
      if users[0].id == id {
        Absent(users[1..], id);
      } else {
        WithoutFirstIsOthers(users[1..], id);
      }
    }
  }

  lemma {:induction false} WithoutFirstErases(users: seq<User>, k: nat)
    requires k < |users| && forall i | 0 <= i < k :: users[i].id != users[k].id
    ensures WithoutFirst(users, users[k].id) == users[..k] + users[k + 1..]
  {
    if k > 0 {
      WithoutFirstErases(users[1..], k - 1);
      assert users[1..][..k - 1] == users[1..k];
      assert users[1..][k..] == users[k + 1..];
    }
  }

  lemma {:induction false} WithoutFirstAbsent(users: seq<User>, id: nat)
    requires forall u <- users :: u.id != id
    ensures WithoutFirst(users, id) == users
  {
    if users != [] {
      WithoutFirstAbsent(users[1..], id);
    }
  }

  lemma Absent(users: seq<User>, id: nat)
    requires forall u <- users :: u.id != id
    ensures Others(users, id) == users
  {
    KeepAll(users, (u: User) => u.id != id);
  }

  /** `erase_if` with the opposite test: the users to keep move to the front, in order. */
  method KeepLoop(users: seq<User>, p: User -> bool) returns (kept: seq<User>)
    ensures kept == Keep(users, p) && ExactlyThose(users, kept, p)
    ensures forall u :: u in kept <==> u in users && p(u)
  {
    kept := [];
    for i := 0 to |users|
      invariant kept == Keep(users[..i], p)
    {
      assert users[..i + 1] == users[..i] + [users[i]];
      KeepAppend(users[..i], users[i], p);
      if p(users[i]) {
        kept := kept + [users[i]];
      }
    }
    assert users[..|users|] == users;
    KeepElements(users, p);
    KeepExactly(users, p);
  }

  method IndexOf(users: seq<User>, id: nat) returns (k: nat)
    ensures k <= |users|
    ensures k < |users| ==> users[k].id == id
    ensures forall i | 0 <= i < k :: users[i].id != id
  {
    k := 0;
    while k < |users| && users[k].id != id
      invariant 0 <= k <= |users|
      invariant forall i | 0 <= i < k :: users[i].id != id
    {
      k := k + 1;
    }
  }

  lemma ToAllAppend(users: seq<User>, u: User, packet: Packet)
    ensures ToAll(users + [u], packet) == ToAll(users, packet) + [Delivery(u, packet)]
  {
  }

  // ---------------------------------------------------------------- the room object

  class Room {
    const roomId: nat
    var users: seq<User>

    constructor (roomId: nat)
      ensures this.roomId == roomId && users == []
    {
      this.roomId := roomId;
      users := [];
    }

    /** Tells the members already present, then adds the user. */
    method Join(user: Option<User>) returns (sent: seq<Delivery>)
      modifies this
      ensures user.None? ==> users == old(users) && sent == []
      ensures user.Some? ==>
        && users == old(users) + [user.value]
        && sent == ToAll(old(users), UserJoined(roomId, user.value.id, user.value.name))
    {
      sent := [];
      if user.None? {
        return;
      }
      var packet := UserJoined(roomId, user.value.id, user.value.name);
      for i := 0 to |users|
        invariant users == old(users)
        invariant sent == ToAll(users[..i], packet)
      {
        assert users[..i + 1] == users[..i] + [users[i]];
        ToAllAppend(users[..i], users[i], packet);
        sent := sent + [Delivery(users[i], packet)];
      }
      assert users[..|users|] == users;
      users := users + [user.value];
    }

    /** Removes the first user with the id, if any, and tells the others who stay; no one
        else moves. */
    method Leave(userId: nat) returns (sent: seq<Delivery>)
      modifies this
      ensures users == WithoutFirst(old(users), userId)
      ensures DistinctIds(old(users)) ==> users == Others(old(users), userId)
      ensures (forall u <- old(users) :: u.id != userId) ==> sent == []
      ensures forall k | 0 <= k < |old(users)| && IsFirst(old(users), k, userId) ::
        sent == ToAll(Others(users, userId), UserLeft(userId, old(users)[k].name))
    {
      if DistinctIds(users) {
        WithoutFirstIsOthers(users, userId);
      }
      var k := IndexOf(users, userId);
      if k == |users| {
        WithoutFirstAbsent(users, userId);
        return [];
      }
      WithoutFirstErases(users, k);
      var packet := UserLeft(userId, users[k].name);
      users := users[..k] + users[k + 1..];
      sent := SendToOthers(userId, packet);
    }

    /** Both broadcast loops: every member except the one with the given id, in order. */
    method SendToOthers(userId: nat, packet: Packet) returns (sent: seq<Delivery>)
      ensures sent == ToAll(Others(users, userId), packet)
    {
      var p := (u: User) => u.id != userId;
      sent := [];
      for i := 0 to |users|
        invariant sent == ToAll(Keep(users[..i], p), packet)
      {
        assert users[..i + 1] == users[..i] + [users[i]];
        KeepAppend(users[..i], users[i], p);
        if users[i].id != userId {
          ToAllAppend(Keep(users[..i], p), users[i], packet);
          sent := sent + [Delivery(users[i], packet)];
        }
      }
      assert users[..|users|] == users;
    }

    method BroadcastChatMessage(senderId: nat, userId: nat, name: string, message: string, sequence: nat)
      returns (sent: seq<Delivery>)
      ensures sent == ToAll(Others(users, userId), ChatMessage(senderId, name, message, sequence))
      ensures forall d <- sent :: d.to in users && d.to.id != userId
      ensures forall u <- users | u.id != userId :: Delivery(u, ChatMessage(senderId, name, message, sequence)) in sent
    {
      var packet := ChatMessage(senderId, name, message, sequence);
      sent := SendToOthers(userId, packet);
      var others := Others(users, userId);
      KeepElements(users, (u: User) => u.id != userId);
      forall u <- users | u.id != userId
        ensures Delivery(u, packet) in sent
      {
        assert u in others;
        var k :| 0 <= k < |others| && others[k] == u;
        assert sent[k] == Delivery(u, packet);
      }
    }

    method GetUserCount() returns (n: nat)
      ensures n == |users|
    {
      n := |users|;
    }

    /** Exactly the users with the id go; the others keep their order. */
    method Kick(userId: nat)
      modifies this
      ensures users == Others(old(users), userId)
      ensures forall u :: u in users <==> u in old(users) && u.id != userId
    {
      users := KeepLoop(users, (u: User) => u.id != userId);
    }

    /** Exactly the users whose client has the socket of the client that went away go; the
        others keep their order. `sockets` are the sockets compared. */
    method KickByDisconnected(sockets: Sockets, client: ClientId)
      modifies this
      ensures users == Connected(old(users), sockets, client)
      ensures forall u :: u in users <==> u in old(users) && !SameSocket(sockets, u.client, client)
    {
      users := KeepLoop(users, (u: User) => !SameSocket(sockets, u.client, client));
    }
  }

  // ---------------------------------------------------------------- rooms as values

  datatype RoomState = RoomState(id: nat, members: seq<User>)

  /** The position of the first room below capacity, or the number of rooms. */
  function FirstBelow(rooms: seq<RoomState>, capacity: nat): (k: nat)
    ensures k <= |rooms|
    ensures k < |rooms| ==> |rooms[k].members| < capacity
    ensures forall i | 0 <= i < k :: |rooms[i].members| >= capacity
  {
    if rooms == [] || |rooms[0].members| < capacity then 0
    else 1 + FirstBelow(rooms[1..], capacity)
  }

  /** The position of the first room with an id, or the number of rooms. */
  function FirstWithId(rooms: seq<RoomState>, id: nat): (k: nat)
    ensures k <= |rooms|
    ensures k < |rooms| ==> rooms[k].id == id
    ensures forall i | 0 <= i < k :: rooms[i].id != id
  {
    if rooms == [] || rooms[0].id == id then 0
    else 1 + FirstWithId(rooms[1..], id)
  }

  /** A room to join exists afterwards: one is added when all are full. */
  function Pick(rooms: seq<RoomState>, capacity: nat): seq<RoomState>
  {
    if FirstBelow(rooms, capacity) < |rooms| then rooms
    else rooms + [RoomState(|rooms| % UINT32, [])]
  }

  ghost function Snapshot(rooms: seq<Room>): (s: seq<RoomState>)
    reads rooms
    ensures |s| == |rooms|
    ensures forall i | 0 <= i < |rooms| :: s[i] == RoomState(rooms[i].roomId, rooms[i].users)
  {
    seq(|rooms|, i requires 0 <= i < |rooms| reads rooms => RoomState(rooms[i].roomId, rooms[i].users))
  }

  // ---------------------------------------------------------------- the room manager

  class RoomManager {
    const maxRoomCapacity: nat
    var rooms: seq<Room>
    var roomCounter: nat

    /** Every room is a separate object and the i-th room created has the number i. */
    ghost predicate Valid()
      reads this
    {
      && roomCounter == |rooms| % UINT32
      && (forall i | 0 <= i < |rooms| :: rooms[i].roomId == i % UINT32)
      && (forall i, j | 0 <= i < j < |rooms| :: rooms[i] != rooms[j])
    }

    constructor (initRoomCount: nat, maxRoomCapacity: nat)
      requires initRoomCount < 0x1_0000 && maxRoomCapacity < UINT32
      ensures Valid() && this.maxRoomCapacity == maxRoomCapacity && |rooms| == initRoomCount
      ensures forall i | 0 <= i < |rooms| :: fresh(rooms[i]) && rooms[i].users == []
    {
      this.maxRoomCapacity := maxRoomCapacity;
      rooms := [];
      roomCounter := 0;
      new;
      for i := 0 to initRoomCount
        invariant Valid() && |rooms| == i
        invariant forall k | 0 <= k < |rooms| :: fresh(rooms[k]) && rooms[k].users == []
      {
        var r := AddRoom();
      }
    }

    /** `_roomCounter.fetch_add(1)` on 32 bits, and the new room goes to the back. */
    method AddRoom() returns (room: Room)
      requires Valid()
      modifies this
      ensures Valid() && fresh(room) && room.users == []
      ensures rooms == old(rooms) + [room]
      ensures Snapshot(rooms) == old(Snapshot(rooms)) + [RoomState(|old(rooms)| % UINT32, [])]
    {
      room := new Room(roomCounter);
      rooms := rooms + [room];
      roomCounter := (roomCounter + 1) % UINT32;
    }

    /** The oldest room below capacity, or a new one when every room is full. */
    method GetOrCreateAvailableRoom() returns (room: Room)
      requires Valid()
      modifies this
      ensures Valid() && old(rooms) <= rooms
      ensures Snapshot(rooms) == Pick(old(Snapshot(rooms)), maxRoomCapacity)
      ensures var k := FirstBelow(old(Snapshot(rooms)), maxRoomCapacity); k < |rooms| && rooms[k] == room
      ensures rooms != old(rooms) ==> fresh(room)
    {
      var k := FindAvailable();
      if k < |rooms| {
        return rooms[k];
      }
      room := AddRoom();
    }

    /** The search under the lock. */
    method FindAvailable() returns (k: nat)
      ensures k == FirstBelow(Snapshot(rooms), maxRoomCapacity)
    {
      ghost var s := Snapshot(rooms);
      k := 0;
      while k < |rooms|
        invariant k <= |rooms|
        invariant forall i | 0 <= i < k :: |s[i].members| >= maxRoomCapacity
      {
        var count := rooms[k].GetUserCount();
        if count < maxRoomCapacity {
          return;
        }
        k := k + 1;
      }
    }

    method GetRoom(roomId: nat) returns (room: Room?)
      ensures var k := FirstWithId(Snapshot(rooms), roomId);
              room == if k < |rooms| then rooms[k] else null
    {
      for i := 0 to |rooms|
        invariant forall k | 0 <= k < i :: Snapshot(rooms)[k].id != roomId
      {
        if rooms[i].roomId == roomId {
          return rooms[i];
        }
      }
      room := null;
    }

    /** Every room keeps exactly the members whose socket differs. */
    method KickDisconnected(sockets: Sockets, client: ClientId)
      requires Valid()
      modifies set r <- rooms
      ensures Valid()
      ensures forall r <- rooms :: r.users == Connected(old(r.users), sockets, client)
    {
      for i := 0 to |rooms|
        invariant forall k | 0 <= k < i :: rooms[k].users == Connected(old(rooms[k].users), sockets, client)
        invariant forall k | i <= k < |rooms| :: rooms[k].users == old(rooms[k].users)
      {
        rooms[i].KickByDisconnected(sockets, client);
      }
    }
  }
}
