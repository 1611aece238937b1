/** The authentication service over the in-memory repository, whose maps share the records they file. */
module SessionService {
  import opened Sessions
  import opened Wrappers

  /** A user record, filed by identifier and by username; the service never changes either. */
  class UserRecord {
    const id: string
    const username: string
    var email: string
    var roles: seq<string>
    var passwordHash: string
    var active: bool
    var version: int

    constructor (id: string, username: string, email: string, roles: seq<string>, passwordHash: string)
      ensures View() == Account(id, username, email, roles, passwordHash, true, 0)
    {
      this.id, this.username, this.email, this.roles, this.passwordHash := id, username, email, roles, passwordHash;
      active, version := true, 0;
    }

    /** The in-place part of UpdateUserDetails: an empty email and absent roles leave what is there. */
    method Change(newEmail: string, newRoles: Option<seq<string>>)
      modifies this
      ensures View() == old(View()).(email := if newEmail != "" then newEmail else old(email),
                                     roles := if newRoles.Some? then newRoles.value else old(roles))
    {
      if newEmail != "" {
        email := newEmail;
      }
      if newRoles.Some? {
        roles := newRoles.value;
      }
    }

    method SetPasswordHash(hash: string)
      modifies this
      ensures View() == old(View()).(passwordHash := hash)
    {
      passwordHash := hash;
    }

    function View(): Account
      reads this
    {
      Account(id, username, email, roles, passwordHash, active, version)
    }
  }

  class SessionRecord {
    const userId: string
    const access: string
    const refresh: string
    const expiresAt: int
    var revokedAt: Option<int>

    constructor (userId: string, access: string, refresh: string, expiresAt: int)
      ensures View() == Session(userId, access, expiresAt, None) && this.refresh == refresh
    {
      this.userId, this.access, this.refresh, this.expiresAt, revokedAt := userId, access, refresh, expiresAt, None;
    }

    function View(): Session
      reads this
    {
      Session(userId, access, expiresAt, revokedAt)
    }
  }

  class InMemoryRepository {
    var users: map<string, UserRecord>
    var usersByName: map<string, UserRecord>
    var sessions: map<string, SessionRecord>

    /** The two user indexes file the same records, each record once; sessions are filed under their refresh token. */
    ghost predicate Valid()
      reads this
    {
      && (forall id | id in users :: users[id].id == id && users[id].username in usersByName
                                     && usersByName[users[id].username] == users[id])
      && (forall n | n in usersByName :: usersByName[n].username == n && usersByName[n].id in users
                                         && users[usersByName[n].id] == usersByName[n])
      && (forall r | r in sessions :: sessions[r].refresh == r)
    }

    ghost function Accounts(): map<string, Account>
      reads this, users.Values
    {
      map id | id in users :: users[id].View()
    }

    ghost function Names(): map<string, string>
      reads this
    {
      map n | n in usersByName :: usersByName[n].id
    }

    ghost function Filed(): map<string, Session>
      reads this, sessions.Values
    {
      map r | r in sessions :: sessions[r].View()
    }

    ghost function View(now: int): State
      reads this, users.Values, sessions.Values
    {
      State(Accounts(), Names(), Filed(), now)
    }

    /** What the indexes file is what the state machine calls indexed. */
    lemma {:induction false} ValidIsIndexed(now: int)
      requires Valid()
      ensures Indexed(View(now))
    {}

    constructor ()
      ensures Valid() && users == map[] && usersByName == map[] && sessions == map[]
    {
      users, usersByName, sessions := map[], map[], map[];
    }

    method CreateUser(user: UserRecord) returns (ok: bool)
      requires Valid() && user.id !in users
      modifies this
      ensures Valid() && sessions == old(sessions)
      ensures ok <==> user.username !in old(usersByName)
      ensures users == if ok then old(users)[user.id := user] else old(users)
      ensures usersByName == if ok then old(usersByName)[user.username := user] else old(usersByName)
      ensures Accounts() == if ok then old(Accounts())[user.id := user.View()] else old(Accounts())
      ensures Names() == if ok then old(Names())[user.username := user.id] else old(Names())
      ensures Filed() == old(Filed())
    {
      if user.username in usersByName {
        return false;
      }
      FileUser(user);
      ok := true;
    }

    method FileUser(user: UserRecord)
      requires Valid() && user.id !in users && user.username !in usersByName
      modifies this`users, this`usersByName
      ensures Valid()
      ensures users == old(users)[user.id := user] && usersByName == old(usersByName)[user.username := user]
      ensures Accounts() == old(Accounts())[user.id := user.View()]
      ensures Names() == old(Names())[user.username := user.id]
    {
      users := users[user.id := user];
      usersByName := usersByName[user.username := user];
      assert Accounts() == old(Accounts())[user.id := user.View()];
    }

    /** UpdateUser: the record is filed again under both of its keys. */
    method UpdateUser(user: UserRecord) returns (ok: bool)
      requires Valid() && (user.id in users ==> users[user.id] == user)
      modifies this
      ensures ok <==> user.id in old(users)
      ensures users == old(users) && usersByName == old(usersByName) && sessions == old(sessions)
      ensures Accounts() == old(Accounts()) && Filed() == old(Filed())
    {
      if user.id !in users {
        return false;
      }
      users := users[user.id := user];
      usersByName := usersByName[user.username := user];
      ok := true;
    }

    method DeleteUser(id: string) returns (ok: bool)
      requires Valid()
      modifies this
      ensures Valid() && sessions == old(sessions)
      ensures ok <==> id in old(users)
      ensures users == old(users) - {id}
      ensures usersByName == if ok then old(usersByName) - {old(users)[id].username} else old(usersByName)
    {
      if id !in users {
        return false;
      }
      var user := users[id];
      users := users - {id};
      usersByName := usersByName - {user.username};
      ok := true;
    }

    method CreateSession(session: SessionRecord)
      requires Valid()
      modifies this
      ensures Valid() && users == old(users) && usersByName == old(usersByName)
      ensures sessions == old(sessions)[session.refresh := session]
      ensures Accounts() == old(Accounts()) && Names() == old(Names())
      ensures Filed() == old(Filed())[session.refresh := session.View()]
    {
      sessions := sessions[session.refresh := session];
    }

    /** GetSessionByAccessToken searches the map in no particular order. */
    method GetSessionByAccessToken(token: string) returns (found: Option<SessionRecord>)
      requires Valid()
      ensures found.Some? ==> found.value.refresh in sessions && sessions[found.value.refresh] == found.value
      ensures forall now :: MayFind(View(now), token, if found.Some? then Some(found.value.refresh) else None)
    {
      var rest := sessions.Keys;
      while rest != {}
        invariant rest <= sessions.Keys
        invariant forall r | r in sessions && r !in rest :: sessions[r].access != token
        decreases rest
      {
        var r :| r in rest;
        if sessions[r].access == token {
          return Some(sessions[r]);
        }
        rest := rest - {r};
      }
      found := None;
    }

    method RevokeSession(refresh: string, now: int) returns (ok: bool)
      requires Valid()
      modifies sessions.Values
      ensures ok <==> refresh in sessions
      ensures forall r | r in sessions ::
                sessions[r].revokedAt == if r == refresh then Some(now) else old(sessions[r].revokedAt)
    {
      if refresh !in sessions {
        return false;
      }
      sessions[refresh].revokedAt := Some(now);
      ok := true;
    }
  }

  class AuthService {
    const repo: InMemoryRepository
    const crypto: Crypto

    constructor (repo: InMemoryRepository, crypto: Crypto)
      ensures this.repo == repo && this.crypto == crypto
    {
      this.repo, this.crypto := repo, crypto;
    }

    /** The identifier is freshly generated and the hash was computed from the password. */
    method CreateUser(id: string, username: string, email: string, roles: seq<string>, hash: string, now: int)
      returns (ok: bool)
      requires repo.Valid() && id !in repo.users
      modifies repo
      ensures repo.Valid() && ok == (username !in old(repo.View(now)).byName)
      ensures repo.View(now) == Next(old(repo.View(now)), crypto, Step.CreateUser(id, username, email, roles, hash))
      ensures ok ==> id in repo.users
      ensures ok ==> repo.users[id].View() ==
                     Account(id, username, email, if roles == [] then ["viewer"] else roles, hash, true, 0)
    {
      var user := new UserRecord(id, username, email, if roles == [] then ["viewer"] else roles, hash);
      ok := repo.CreateUser(user);
    }

    /** Returns the access token; the refresh token is freshly generated. */
    method Login(username: string, password: string, refresh: string, now: int) returns (access: Option<string>)
      requires repo.Valid() && refresh !in repo.sessions
      modifies repo
      ensures repo.Valid()
      ensures repo.View(now) == Next(old(repo.View(now)), crypto, Step.Login(username, password, refresh))
      ensures
        access == match Authenticated(old(repo.View(now)), crypto, username, password) {
          case None => None
          case Some(a) => Some(crypto.sign(ClaimsOf(a), now))
        }
      ensures access.Some? <==>
              && username in old(repo.usersByName) && old(repo.usersByName[username].active)
              && crypto.matches(old(repo.usersByName[username].passwordHash), password)
      ensures access.Some? ==>
              var user := old(repo.usersByName[username].View());
              && access.value == crypto.sign(Claims(user.id, user.roles, user.version), now)
              && repo.Filed() == old(repo.Filed())[refresh := Session(user.id, access.value, now + 604_800, None)]
      ensures access.None? ==> repo.Filed() == old(repo.Filed())
    {
      if username !in repo.usersByName {
        return None;
      }
      var user := repo.usersByName[username];
      if !user.active {
        return None;
      }
      if !crypto.matches(user.passwordHash, password) {
        return None;
      }
      var token := crypto.sign(Claims(user.id, user.roles, user.version), now);
      var session := new SessionRecord(user.id, token, refresh, now + SESSION_TTL);
      repo.CreateSession(session);
      access := Some(token);
    }

    method RefreshToken(refresh: string, now: int) returns (access: Option<string>)
      requires repo.Valid()
      ensures access == RefreshedToken(repo.View(now), crypto, refresh)
      ensures access.Some? <==>
              && refresh in repo.sessions && repo.sessions[refresh].revokedAt.None?
              && repo.sessions[refresh].expiresAt != 0 && now < repo.sessions[refresh].expiresAt
              && repo.sessions[refresh].userId in repo.users
    {
      if refresh !in repo.sessions {
        return None;
      }
      var session := repo.sessions[refresh].View();
      if !session.IsActive(now) {
        return None;
      }
      if session.userId !in repo.users {
        return None;
      }
      var user := repo.users[session.userId];
      access := Some(crypto.sign(Claims(user.id, user.roles, user.version), now));
    }

    method ValidateToken(token: string, now: int) returns (answer: Answer)
      requires repo.Valid()
      ensures MayAnswer(repo.View(now), crypto, token, answer)
      ensures answer.Valid? ==>
              && (exists r | r in repo.sessions :: repo.sessions[r].access == token && repo.sessions[r].revokedAt.None?
                                                   && now < repo.sessions[r].expiresAt)
              && answer.userId in repo.users && answer.version == repo.users[answer.userId].version
              && crypto.verify(token, now).Some?
              && var claims := crypto.verify(token, now).value;
                 && answer.userId == claims.userId && answer.roles == claims.roles
                 && answer.stale == (answer.version != claims.version)
    {
      var claims := crypto.verify(token, now);
      var found := repo.GetSessionByAccessToken(token);
      ghost var refresh := if found.Some? then Some(found.value.refresh) else None;
      assert MayFind(repo.View(now), token, refresh);
      if claims.None? {
        answer := Invalid;
      } else if found.None? {
        answer := Invalid;
      } else if !found.value.View().IsActive(now) {
        answer := Invalid;
      } else if claims.value.userId !in repo.users {
        answer := Failed;
      } else {
        var version := repo.users[claims.value.userId].version;
        answer := Valid(claims.value.userId, claims.value.roles, version, version != claims.value.version);
      }
      assert ValidateWith(repo.View(now), crypto, token, refresh) == answer;
    }

    method RevokeToken(refresh: string, now: int) returns (ok: bool)
      requires repo.Valid()
      modifies repo.sessions.Values
      ensures repo.Valid() && ok == (refresh in repo.sessions)
      ensures repo.View(now) == Next(old(repo.View(now)), crypto, Revoke(refresh))
      ensures ok ==> repo.sessions[refresh].revokedAt == Some(now)
    {
      ok := repo.RevokeSession(refresh, now);
    }

    /** The shared record is changed in place before it is filed again. */
    method UpdateUserDetails(id: string, email: string, roles: Option<seq<string>>, now: int) returns (ok: bool)
      requires repo.Valid()
      modifies repo, repo.users.Values
      ensures repo.Valid() && ok == (id in old(repo.users))
      ensures repo.View(now) == Next(old(repo.View(now)), crypto, Update(id, email, roles))
      ensures ok ==> id in repo.users
      ensures ok ==> repo.users[id].email == if email == "" then old(repo.users[id].email) else email
      ensures ok ==> repo.users[id].roles == if roles.None? then old(repo.users[id].roles) else roles.value
      ensures ok ==> repo.users[id].passwordHash == old(repo.users[id].passwordHash)
    {
      if id !in repo.users {
        return false;
      }
      var user := repo.users[id];
      user.Change(email, roles);
      assert repo.Accounts() == old(repo.Accounts())[id := user.View()];
      ok := repo.UpdateUser(user);
    }

    method ResetPassword(id: string, hash: string, now: int) returns (ok: bool)
      requires repo.Valid()
      modifies repo, repo.users.Values
      ensures repo.Valid() && ok == (id in old(repo.users))
      ensures repo.View(now) == Next(old(repo.View(now)), crypto, Step.ResetPassword(id, hash))
      ensures ok ==> id in repo.users && repo.users[id].passwordHash == hash
      ensures ok ==> repo.users[id].roles == old(repo.users[id].roles)
    {
      if id !in repo.users {
        return false;
      }
      var user := repo.users[id];
      user.SetPasswordHash(hash);
      ok := repo.UpdateUser(user);
    }

    method DeleteUser(id: string, now: int) returns (ok: bool)
      requires repo.Valid()
      modifies repo
      ensures repo.Valid() && ok == (id in old(repo.users))
      ensures repo.View(now) == Next(old(repo.View(now)), crypto, Delete(id))
      ensures id !in repo.users && forall n | n in repo.usersByName :: repo.usersByName[n].id != id
    {
      if id !in repo.users {
        return false;
      }
      ok := repo.DeleteUser(id);
    }
  }
}
