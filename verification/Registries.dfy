/**
  The session and user registries. Both are searched by comparing sockets entry by entry, in
  whatever order the hash map yields; `sockets` is the moment of the comparison.
 */
module Registries {
  import opened Basics
  import opened Rooms

  datatype Session = Session(id: nat, client: ClientId)

  function Matching(sessions: map<nat, Session>, sockets: Sockets, c: ClientId): set<nat>
  {
    set id <- sessions | SameSocket(sockets, sessions[id].client, c)
  }

  class SessionManager {
    var sessions: map<nat, Session>
    var sessionCounter: nat

    ghost predicate Valid()
      reads this
    {
      forall id <- sessions :: sessions[id].id == id && id < sessionCounter
    }

    constructor ()
      ensures Valid() && sessions == map[] && sessionCounter == 0
    {
      sessions, sessionCounter := map[], 0;
    }

    /** The new id was never used before, so no session is replaced. */
    method CreateSession(client: ClientId) returns (session: Session)
      requires Valid()
      modifies this
      ensures Valid() && session.client == client
      ensures session.id !in old(sessions) && sessions == old(sessions)[session.id := session]
      ensures sessionCounter == old(sessionCounter) + 1
    {
      session := Session(sessionCounter, client);
      sessionCounter := sessionCounter + 1;
      sessions := sessions[session.id := session];
    }

    method GetSessionByClient(sockets: Sockets, client: ClientId) returns (found: Option<Session>)
      ensures found.None? <==> forall id <- sessions :: !SameSocket(sockets, sessions[id].client, client)
      ensures found.Some? ==> found.value in sessions.Values && SameSocket(sockets, found.value.client, client)
    {
      var left := sessions.Keys;
      while left != {}
        invariant left <= sessions.Keys
        invariant forall id <- sessions | id !in left :: !SameSocket(sockets, sessions[id].client, client)
        decreases |left|
      {
        var id :| id in left;
        if SameSocket(sockets, sessions[id].client, client) {
          return Some(sessions[id]);
        }
        left := left - {id};
      }
      found := None;
    }

    method RemoveSession(sessionId: nat) returns (removed: bool)
      requires Valid()
      modifies this
      ensures Valid() && sessions == old(sessions) - {sessionId} && sessionCounter == old(sessionCounter)
      ensures removed <==> sessionId in old(sessions)
    {
      removed := sessionId in sessions;
      sessions := sessions - {sessionId};
    }

    method RemoveByClient(sockets: Sockets, client: ClientId) returns (removed: bool)
      requires Valid()
      modifies this
      ensures Valid() && sessionCounter == old(sessionCounter)
      ensures sessions == old(sessions) - Matching(old(sessions), sockets, client)
      ensures removed <==> exists id <- old(sessions) :: SameSocket(sockets, old(sessions)[id].client, client)
    {
      var oldSize := |sessions|;
      SizeTells(sessions, Matching(sessions, sockets, client));
      sessions := EraseMatching(sessions, sockets, client);
      removed := oldSize != |sessions|;
    }
  }

  /** The erasing loop, in whatever order the entries come. */
  method EraseMatching(all: map<nat, Session>, sockets: Sockets, client: ClientId) returns (kept: map<nat, Session>)
    ensures kept == all - Matching(all, sockets, client)
  {
    ghost var gone := Matching(all, sockets, client);
    var left := all.Keys;
    kept := all;
    while left != {}
      invariant left <= all.Keys && kept == all - (gone - left)
      decreases |left|
    {
      var id :| id in left;
      EraseOne(all, gone, left, id);
      left := left - {id};
      if SameSocket(sockets, all[id].client, client) {
        kept := kept - {id};
      }
    }
    assert gone - {} == gone;
  }

  lemma EraseOne(all: map<nat, Session>, gone: set<nat>, left: set<nat>, id: nat)
    requires id in left
    ensures id in gone ==> all - (gone - (left - {id})) == all - (gone - left) - {id}
    ensures id !in gone ==> gone - (left - {id}) == gone - left
  {
    if id in gone {
      assert gone - (left - {id}) == (gone - left) + {id};
    } else {
      assert gone - (left - {id}) == gone - left;
    }
  }

  /** Comparing sizes tells whether anything was erased. */
  lemma SizeTells(all: map<nat, Session>, gone: set<nat>)
    requires gone <= all.Keys
    ensures |all - gone| != |all| <==> exists id <- all :: id in gone
  {
    assert (all - gone).Keys == all.Keys - gone;
    assert |all - gone| == |all.Keys - gone| && |all| == |all.Keys|;
    assert |all.Keys - gone| == |all.Keys| - |gone|;
    if gone != {} {
      var id :| id in gone;
      assert id in all;
    }
  }

  class UserManager {
    const sessionManager: SessionManager
    var users: map<nat, User>
    var userIdCounter: nat

    ghost predicate Valid()
      reads this
    {
      forall id <- users :: users[id].id == id && id < userIdCounter
    }

    constructor (sessionManager: SessionManager)
      ensures Valid() && users == map[] && this.sessionManager == sessionManager
    {
      this.sessionManager := sessionManager;
      users, userIdCounter := map[], 0;
    }

    /** `atSession` and `atUsers` are the sockets during the two searches, between which
        workers may close and reopen clients. */
    method CreateUser(atSession: Sockets, atUsers: Sockets, client: ClientId, name: string, roomId: nat)
      returns (created: Option<User>)
      requires Valid()
      modifies this
      ensures Valid()
      ensures created.None? <==>
        || (forall id <- sessionManager.sessions ::
              !SameSocket(atSession, sessionManager.sessions[id].client, client))
        || exists id <- old(users) :: SameSocket(atUsers, old(users)[id].client, client)
      ensures created.None? ==> users == old(users) && userIdCounter == old(userIdCounter)
      ensures created.Some? ==>
        && var u := created.value;
        && u.id !in old(users) && users == old(users)[u.id := u] && u.name == name && u.roomId == roomId
        && SameSocket(atSession, u.client, client)
        && exists id <- sessionManager.sessions :: sessionManager.sessions[id].client == u.client
    {
      var session := sessionManager.GetSessionByClient(atSession, client);
      if session.None? {
        return None;
      }
      var existing := GetUserByClient(atUsers, client);
      if existing.Some? {
        return None;
      }
      var user := User(userIdCounter, name, session.value.client, roomId);
      userIdCounter := userIdCounter + 1;
      users := users[user.id := user];
      created := Some(user);
    }

    method RemoveUserByUserId(userId: nat)
      requires Valid()
      modifies this
      ensures Valid() && users == old(users) - {userId} && userIdCounter == old(userIdCounter)
    {
      users := users - {userId};
    }

    method GetUserByClient(sockets: Sockets, client: ClientId) returns (found: Option<User>)
      ensures found.None? <==> forall id <- users :: !SameSocket(sockets, users[id].client, client)
      ensures found.Some? ==> found.value in users.Values && SameSocket(sockets, found.value.client, client)
    {
      var left := users.Keys;
      while left != {}
        invariant left <= users.Keys
        invariant forall id <- users | id !in left :: !SameSocket(sockets, users[id].client, client)
        decreases |left|
      {
        var id :| id in left;
        if SameSocket(sockets, users[id].client, client) {
          return Some(users[id]);
        }
        left := left - {id};
      }
      found := None;
    }
  }
}
