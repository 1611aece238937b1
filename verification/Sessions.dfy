/**
 * Accounts and sessions of the authentication service over the in-memory repository, as a state machine:
 * what a run of service calls can and cannot make of a token.
 */
module Sessions {
  import opened Wrappers

  /** Instants are seconds, the resolution of the token's own times. */
  const SESSION_TTL := 7 * 24 * 3600
  const ACCESS_TTL := 900

  datatype Account = Account(id: string, username: string, email: string, roles: seq<string>, passwordHash: string,
                             active: bool, version: int)

  datatype Session = Session(userId: string, access: string, expiresAt: int, revokedAt: Option<int>) {
    predicate IsActive(now: int) {
      expiresAt != 0 && revokedAt.None? && now < expiresAt
    }
  }

  /** What an access token says about its user. */
  datatype Claims = Claims(userId: string, roles: seq<string>, version: int)

  /** Password hashing, and signing and verifying access tokens at an instant. */
  datatype Crypto = Crypto(matches: (string, string) -> bool, sign: (Claims, int) -> string,
                           verify: (string, int) -> Option<Claims>) {
    /** A signed token verifies to what was signed, from its issue until it expires. */
    ghost predicate Sound() {
      forall c, t, now ::
        verify(sign(c, t), now) == if t <= now < t + ACCESS_TTL then Some(c) else None
    }
  }

  /** Sessions are filed under their refresh token; `byName` is the second index, from username to identifier. */
  datatype State = State(users: map<string, Account>, byName: map<string, string>, sessions: map<string, Session>,
                         now: int)

  datatype Step =
    | CreateUser(id: string, username: string, email: string, roles: seq<string>, hash: string)
    | Login(username: string, password: string, refresh: string)
    | Refresh(refresh: string)
    | Validate(token: string)
    | Revoke(refresh: string)
    | Update(id: string, email: string, newRoles: Option<seq<string>>)
    | ResetPassword(id: string, hash: string)
    | Delete(id: string)
    | Wait(seconds: nat)

  /** New identifiers and refresh tokens are fresh; everything else may be called with anything. */
  predicate Enabled(s: State, e: Step) {
    match e
    case CreateUser(id, _, _, _, _) => id !in s.users
    case Login(_, _, refresh) => refresh !in s.sessions
    case _ => true
  }

  function ClaimsOf(a: Account): Claims {
    Claims(a.id, a.roles, a.version)
  }

  /** The account that may log in with these credentials. */
  function Authenticated(s: State, c: Crypto, username: string, password: string): Option<Account> {
    if username in s.byName && s.byName[username] in s.users then
      var a := s.users[s.byName[username]];
      if a.active && c.matches(a.passwordHash, password) then Some(a) else None
    else None
  }

  function Next(s: State, c: Crypto, e: Step): State {
    match e
    case CreateUser(id, username, email, roles, hash) =>
      if username in s.byName then s
      else
        var a := Account(id, username, email, if roles == [] then ["viewer"] else roles, hash, true, 0);
        s.(users := s.users[id := a], byName := s.byName[username := id])
    case Login(username, password, refresh) =>
      (match Authenticated(s, c, username, password)
       case None => s
       case Some(a) =>
         s.(sessions := s.sessions[refresh := Session(a.id, c.sign(ClaimsOf(a), s.now), s.now + SESSION_TTL, None)]))
    case Revoke(refresh) =>
      if refresh in s.sessions then
        s.(sessions := s.sessions[refresh := s.sessions[refresh].(revokedAt := Some(s.now))])
      else s
    case Update(id, email, newRoles) =>
      if id in s.users then
        var a := s.users[id];
        var a := if email != "" then a.(email := email) else a;
        s.(users := s.users[id := if newRoles.Some? then a.(roles := newRoles.value) else a])
      else s
    case ResetPassword(id, hash) =>
      if id in s.users then s.(users := s.users[id := s.users[id].(passwordHash := hash)]) else s
    case Delete(id) =>
      if id in s.users then s.(users := s.users - {id}, byName := s.byName - {s.users[id].username}) else s
    case Wait(n) => s.(now := s.now + n)
    case Refresh(_) => s
    case Validate(_) => s
  }

  // ---- Answers of the two reading calls -----------------------------------------------------------

  datatype Answer = Invalid | Failed | Valid(userId: string, roles: seq<string>, version: int, stale: bool)

  /** ValidateToken, when the search by access token comes upon the session of `refresh` (or none). */
  function ValidateWith(s: State, c: Crypto, token: string, refresh: Option<string>): Answer {
    match c.verify(token, s.now)
    case None => Invalid
    case Some(claims) =>
      if refresh.None? || refresh.value !in s.sessions then Invalid
      else if !s.sessions[refresh.value].IsActive(s.now) then Invalid
      else if claims.userId !in s.users then Failed
      else
        var version := s.users[claims.userId].version;
        Valid(claims.userId, claims.roles, version, version != claims.version)
  }

  /** The sessions that the search by access token may come upon: any of those that carry it, none if there is none. */
  ghost predicate MayFind(s: State, token: string, refresh: Option<string>) {
    match refresh
    case None => forall r | r in s.sessions :: s.sessions[r].access != token
    case Some(r) => r in s.sessions && s.sessions[r].access == token
  }

  ghost predicate MayAnswer(s: State, c: Crypto, token: string, answer: Answer) {
    exists refresh :: MayFind(s, token, refresh) && ValidateWith(s, c, token, refresh) == answer
  }

  function RefreshedToken(s: State, c: Crypto, refresh: string): Option<string> {
    if refresh in s.sessions && s.sessions[refresh].IsActive(s.now) && s.sessions[refresh].userId in s.users then
      Some(c.sign(ClaimsOf(s.users[s.sessions[refresh].userId]), s.now))
    else None
  }

  // ---- Behaviours ------------------------------------------------------------------------------

  /** A run: `states[k]` is the state before step k; it starts with nobody and no session, at a time after zero. */
  ghost predicate Behavior(states: seq<State>, steps: seq<Step>, c: Crypto) {
    && |states| == |steps| + 1
    && states[0] == State(map[], map[], map[], states[0].now) && states[0].now >= 0
    && forall k | 0 <= k < |steps| :: Enabled(states[k], steps[k]) && states[k + 1] == Next(states[k], c, steps[k])
  }

  /** Both indexes agree: every account is filed under its identifier and its username, and nothing else is. */
  ghost predicate Indexed(s: State) {
    && (forall id | id in s.users :: s.users[id].id == id && s.users[id].username in s.byName
                                     && s.byName[s.users[id].username] == id)
    && (forall n | n in s.byName :: s.byName[n] in s.users && s.users[s.byName[n]].username == n)
  }

  lemma {:induction false} StepKeepsIndexed(s: State, c: Crypto, e: Step)
    requires Indexed(s) && Enabled(s, e)
    ensures Indexed(Next(s, c, e))
  {}

  lemma {:induction false} RunsKeepIndexed(states: seq<State>, steps: seq<Step>, c: Crypto, k: nat)
    requires Behavior(states, steps, c) && k < |states|
    ensures Indexed(states[k]) && states[0].now <= states[k].now
  {
    if k > 0 {
      RunsKeepIndexed(states, steps, c, k - 1);
      StepKeepsIndexed(states[k - 1], c, steps[k - 1]);
    }
  }

  // ---- The life of a session -----------------------------------------------------------------------

  /** Step i is a successful login that files its session under `refresh`. */
  ghost predicate Opens(states: seq<State>, steps: seq<Step>, c: Crypto, i: nat, refresh: string)
    requires |states| == |steps| + 1
  {
    i < |steps| && steps[i].Login? && steps[i].refresh == refresh &&
    Authenticated(states[i], c, steps[i].username, steps[i].password).Some?
  }

  ghost function Opener(states: seq<State>, steps: seq<Step>, c: Crypto, i: nat): Account
    requires |states| == |steps| + 1 && exists refresh :: Opens(states, steps, c, i, refresh)
  {
    Authenticated(states[i], c, steps[i].username, steps[i].password).value
  }

  /** What login i issued. */
  ghost function Issued(states: seq<State>, steps: seq<Step>, c: Crypto, i: nat): string
    requires |states| == |steps| + 1 && exists refresh :: Opens(states, steps, c, i, refresh)
  {
    c.sign(ClaimsOf(Opener(states, steps, c, i)), states[i].now)
  }

  ghost predicate RevokedBetween(steps: seq<Step>, i: nat, k: nat, refresh: string)
    requires k <= |steps|
  {
    exists j | i < j < k :: steps[j] == Revoke(refresh)
  }

  /** Once opened, a session stays as it was opened; it is revoked exactly when a later step revoked it. */
  lemma {:induction false} SessionLife(states: seq<State>, steps: seq<Step>, c: Crypto, i: nat, k: nat, refresh: string)
    requires Behavior(states, steps, c) && Opens(states, steps, c, i, refresh) && i < k < |states|
    ensures refresh in states[k].sessions
    ensures
      var s := states[k].sessions[refresh];
      && s.userId == Opener(states, steps, c, i).id && s.access == Issued(states, steps, c, i)
      && s.expiresAt == states[i].now + SESSION_TTL && (s.revokedAt.Some? <==> RevokedBetween(steps, i, k, refresh))
    ensures states[i].now <= states[k].now
  {
    if k == i + 1 {
      assert states[k] == Next(states[i], c, steps[i]);
    } else {
      SessionLife(states, steps, c, i, k - 1, refresh);
      assert Enabled(states[k - 1], steps[k - 1]) && states[k] == Next(states[k - 1], c, steps[k - 1]);
      assert RevokedBetween(steps, i, k, refresh) <==>
             RevokedBetween(steps, i, k - 1, refresh) || steps[k - 1] == Revoke(refresh);
    }
  }

  /** Every session was opened by a login. */
  lemma {:induction false} SessionsComeFromLogins(states: seq<State>, steps: seq<Step>, c: Crypto, k: nat,
                                                  refresh: string)
    returns (i: nat)
    requires Behavior(states, steps, c) && k < |states| && refresh in states[k].sessions
    ensures i < k && Opens(states, steps, c, i, refresh)
  {
    assert k > 0;
    assert states[k] == Next(states[k - 1], c, steps[k - 1]);
    if refresh in states[k - 1].sessions {
      i := SessionsComeFromLogins(states, steps, c, k - 1, refresh);
    } else {
      i := k - 1;
    }
  }

  /** Step i opened a session whose access token is `token`, of `userId`, and at step k nothing has ended it. */
  ghost predicate OpenFor(states: seq<State>, steps: seq<Step>, c: Crypto, i: nat, refresh: string, k: nat,
                          token: string, userId: string)
    requires |states| == |steps| + 1
  {
    && i < k < |states| && Opens(states, steps, c, i, refresh)
    && Opener(states, steps, c, i).id == userId && Issued(states, steps, c, i) == token
    && !RevokedBetween(steps, i, k, refresh)
    && userId in states[k].users
    && states[k].now < states[i].now + ACCESS_TTL
  }

  ghost predicate MayValidate(s: State, c: Crypto, token: string, userId: string) {
    exists answer: Answer :: answer.Valid? && answer.userId == userId && MayAnswer(s, c, token, answer)
  }

  lemma {:induction false} ValidComesFromLogin(states: seq<State>, steps: seq<Step>, c: Crypto, k: nat, token: string,
                                               answer: Answer)
    returns (i: nat, refresh: string)
    requires Behavior(states, steps, c) && c.Sound() && k < |states|
    requires MayAnswer(states[k], c, token, answer) && answer.Valid?
    ensures OpenFor(states, steps, c, i, refresh, k, token, answer.userId)
    ensures answer.roles == Opener(states, steps, c, i).roles
  {
    var found :| MayFind(states[k], token, found) && ValidateWith(states[k], c, token, found) == answer;
    refresh := found.value;
    i := SessionsComeFromLogins(states, steps, c, k, refresh);
    SessionLife(states, steps, c, i, k, refresh);
    assert c.verify(c.sign(ClaimsOf(Opener(states, steps, c, i)), states[i].now), states[k].now).Some?;
  }

  /**
   * ValidateToken may accept a token for a user exactly when some login issued it to that user, that login's
   * session has not been revoked, the user still exists, and the login is less than fifteen minutes old.
   */
  lemma {:induction false} ValidExactlyWhileOpen(states: seq<State>, steps: seq<Step>, c: Crypto, k: nat,
                                                 token: string, userId: string)
    requires Behavior(states, steps, c) && c.Sound() && k < |states|
    ensures MayValidate(states[k], c, token, userId) <==>
            exists i: nat, refresh: string :: OpenFor(states, steps, c, i, refresh, k, token, userId)
  {
    if MayValidate(states[k], c, token, userId) {
      var answer: Answer :| answer.Valid? && answer.userId == userId && MayAnswer(states[k], c, token, answer);
      var i, refresh := ValidComesFromLogin(states, steps, c, k, token, answer);
      assert OpenFor(states, steps, c, i, refresh, k, token, userId);
    }
    if i: nat, refresh: string :| OpenFor(states, steps, c, i, refresh, k, token, userId) {
      OpenValidates(states, steps, c, i, refresh, k, token, userId);
    }
  }

  lemma {:induction false} OpenValidates(states: seq<State>, steps: seq<Step>, c: Crypto, i: nat, refresh: string,
                                         k: nat,
                                         token: string, userId: string)
    requires Behavior(states, steps, c) && c.Sound() && k < |states|
    requires OpenFor(states, steps, c, i, refresh, k, token, userId)
    ensures MayValidate(states[k], c, token, userId)
  {
    SessionLife(states, steps, c, i, k, refresh);
    RunsKeepIndexed(states, steps, c, i);
    assert c.verify(c.sign(ClaimsOf(Opener(states, steps, c, i)), states[i].now), states[k].now)
           == Some(ClaimsOf(Opener(states, steps, c, i)));
    var answer := ValidateWith(states[k], c, token, Some(refresh));
    assert MayFind(states[k], token, Some(refresh));
    assert MayAnswer(states[k], c, token, answer);
  }

  // ---- Revocation, deletion, refresh ---------------------------------------------------------------

  /** A revoked refresh token never refreshes again. */
  lemma {:induction false} RevokedNeverRefreshes(states: seq<State>, steps: seq<Step>, c: Crypto, j: nat, k: nat,
                                                 refresh: string)
    requires Behavior(states, steps, c) && j < k < |states|
    requires steps[j] == Revoke(refresh) && refresh in states[j].sessions
    ensures RefreshedToken(states[k], c, refresh) == None
  {
    var i := SessionsComeFromLogins(states, steps, c, j, refresh);
    SessionLife(states, steps, c, i, k, refresh);
    assert RevokedBetween(steps, i, k, refresh);
  }

  lemma {:induction false} OpensOnce(states: seq<State>, steps: seq<Step>, c: Crypto, i: nat, j: nat, refresh: string)
    requires Behavior(states, steps, c) && Opens(states, steps, c, i, refresh) && i < j < |steps|
    ensures !Opens(states, steps, c, j, refresh)
  {
    SessionLife(states, steps, c, i, j, refresh);
    assert Enabled(states[j], steps[j]);
  }

  /** Two signatures coincide only for the same claims at the same instant. */
  lemma {:induction false} SignaturesAreDistinct(c: Crypto, a: Claims, s: int, b: Claims, t: int)
    requires c.Sound() && c.sign(a, s) == c.sign(b, t)
    ensures a == b && s == t
  {
    assert c.verify(c.sign(a, s), s) == Some(a) && c.verify(c.sign(b, t), t) == Some(b);
    assert c.verify(c.sign(b, t), s) == c.verify(c.sign(a, s), s);
    assert c.verify(c.sign(a, s), t) == c.verify(c.sign(b, t), t);
  }

  /**
   * After its session is revoked an access token is not accepted again, unless the same user opened another
   * session in the same second, which then carries the very same token.
   */
  lemma {:induction false} RevokedNeverValidates(states: seq<State>, steps: seq<Step>, c: Crypto, i: nat, j: nat,
                                                 k: nat,
                                                 refresh: string, userId: string)
    requires Behavior(states, steps, c) && c.Sound() && i < j < k < |states|
    requires Opens(states, steps, c, i, refresh) && steps[j] == Revoke(refresh)
    requires MayValidate(states[k], c, Issued(states, steps, c, i), userId)
    ensures exists twin: nat, other: string :: other != refresh && Opens(states, steps, c, twin, other) && twin != i
              && states[twin].now == states[i].now
              && Opener(states, steps, c, twin).id == Opener(states, steps, c, i).id
  {
    var token := Issued(states, steps, c, i);
    ValidExactlyWhileOpen(states, steps, c, k, token, userId);
    var twin: nat, other: string :| OpenFor(states, steps, c, twin, other, k, token, userId);
    SignaturesAreDistinct(c, ClaimsOf(Opener(states, steps, c, twin)), states[twin].now,
                          ClaimsOf(Opener(states, steps, c, i)), states[i].now);
    assert RevokedBetween(steps, i, k, refresh);
    if twin < i {
      OpensOnce(states, steps, c, twin, i, other);
    } else if i < twin {
      OpensOnce(states, steps, c, i, twin, refresh);
    }
  }

  lemma {:induction false} StaysDeleted(states: seq<State>, steps: seq<Step>, c: Crypto, j: nat, k: nat, id: string)
    requires Behavior(states, steps, c) && j < k < |states| && steps[j] == Delete(id)
    requires forall m | j < m < k :: !(steps[m].CreateUser? && steps[m].id == id)
    ensures id !in states[k].users
  {
    assert states[k] == Next(states[k - 1], c, steps[k - 1]);
    if k > j + 1 {
      StaysDeleted(states, steps, c, j, k - 1, id);
    }
  }

  /** No token of a deleted user is accepted or refreshed again, although the sessions stay filed. */
  lemma {:induction false} DeletedUserIsLockedOut(states: seq<State>, steps: seq<Step>, c: Crypto, j: nat, k: nat,
                                                  id: string,
                                                  token: string, refresh: string)
    requires Behavior(states, steps, c) && c.Sound() && j < k < |states| && steps[j] == Delete(id)
    requires forall m | j < m < k :: !(steps[m].CreateUser? && steps[m].id == id)
    ensures !MayValidate(states[k], c, token, id)
    ensures refresh in states[k].sessions && states[k].sessions[refresh].userId == id ==>
            RefreshedToken(states[k], c, refresh) == None
  {
    StaysDeleted(states, steps, c, j, k, id);
    ValidExactlyWhileOpen(states, steps, c, k, token, id);
  }

  /**
   * Step i is a login, in the second of state j, of the user whose claims a refresh then signs, and at step k nothing
   * has ended its session.
   */
  ghost predicate TwinLogin(states: seq<State>, steps: seq<Step>, c: Crypto, i: nat, other: string, j: nat, k: nat,
                            claims: Claims)
    requires |states| == |steps| + 1 && j < |states|
  {
    && i < k < |states| && Opens(states, steps, c, i, other) && states[i].now == states[j].now
    && ClaimsOf(Opener(states, steps, c, i)) == claims && !RevokedBetween(steps, i, k, other)
    && claims.userId in states[k].users && states[k].now < states[j].now + ACCESS_TTL
  }

  /**
   * The token that a refresh hands out is filed under no session: it is accepted exactly while the session of a login
   * with the same claims in the second of the refresh is open, and for that user.
   */
  lemma {:induction false} RefreshedTokenExactly(states: seq<State>, steps: seq<Step>, c: Crypto, j: nat, k: nat,
                                                 refresh: string, token: string, userId: string)
    requires Behavior(states, steps, c) && c.Sound() && j < |states| && k < |states|
    requires RefreshedToken(states[j], c, refresh) == Some(token)
    ensures var claims := ClaimsOf(states[j].users[states[j].sessions[refresh].userId]);
            MayValidate(states[k], c, token, userId) <==>
            userId == claims.userId &&
            exists i: nat, other: string :: TwinLogin(states, steps, c, i, other, j, k, claims)
  {
    var claims := ClaimsOf(states[j].users[states[j].sessions[refresh].userId]);
    ValidExactlyWhileOpen(states, steps, c, k, token, userId);
    if i: nat, other: string :| OpenFor(states, steps, c, i, other, k, token, userId) {
      SignaturesAreDistinct(c, ClaimsOf(Opener(states, steps, c, i)), states[i].now, claims, states[j].now);
      assert TwinLogin(states, steps, c, i, other, j, k, claims);
    }
    if i: nat, other: string :| userId == claims.userId && TwinLogin(states, steps, c, i, other, j, k, claims) {
      assert OpenFor(states, steps, c, i, other, k, token, userId);
    }
  }

  lemma {:induction false} VersionsNeverMove(states: seq<State>, steps: seq<Step>, c: Crypto, k: nat)
    requires Behavior(states, steps, c) && k < |states|
    ensures forall id | id in states[k].users :: states[k].users[id].version == 0
  {
    if k > 0 {
      VersionsNeverMove(states, steps, c, k - 1);
      assert states[k] == Next(states[k - 1], c, steps[k - 1]);
    }
  }

  /** Over this repository a change of roles is never reported: no accepted token is flagged as stale. */
  lemma {:induction false} NothingIsEverStale(states: seq<State>, steps: seq<Step>, c: Crypto, k: nat, token: string,
                                              answer: Answer)
    requires Behavior(states, steps, c) && c.Sound() && k < |states|
    requires MayAnswer(states[k], c, token, answer) && answer.Valid?
    ensures !answer.stale
  {
    var i, refresh := ValidComesFromLogin(states, steps, c, k, token, answer);
    VersionsNeverMove(states, steps, c, i);
    VersionsNeverMove(states, steps, c, k);
  }
}
