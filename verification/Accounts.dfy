/** What logins and tokens rest on, said of the calls of a run: who was created how, and what was set last. */
module Accounts {
  import opened Sessions
  import opened Wrappers

  /** Step i creates an account under this identifier. */
  ghost predicate Creates(states: seq<State>, steps: seq<Step>, i: nat, id: string)
    requires |states| == |steps| + 1
  {
    i < |steps| && steps[i].CreateUser? && steps[i].id == id && steps[i].username !in states[i].byName
  }

  /** Step i creates the account and no step before k deletes it. */
  ghost predicate Lives(states: seq<State>, steps: seq<Step>, i: nat, k: nat, id: string)
    requires |states| == |steps| + 1
  {
    i < k <= |steps| && Creates(states, steps, i, id) && forall j | i < j < k :: steps[j] != Delete(id)
  }

  /** Before step k the password hash was last set to `hash`, by the creation in step i or by a reset. */
  ghost predicate HashSet(steps: seq<Step>, i: nat, k: nat, id: string, hash: string)
    requires i < k <= |steps| && steps[i].CreateUser?
  {
    exists j | i <= j < k ::
      && (if j == i then steps[i].hash == hash else steps[j] == Step.ResetPassword(id, hash))
      && forall m | j < m < k :: !(steps[m].ResetPassword? && steps[m].id == id)
  }

  /** The same for the roles, where no roles at creation mean the viewer's. */
  ghost predicate RolesSet(steps: seq<Step>, i: nat, k: nat, id: string, roles: seq<string>)
    requires i < k <= |steps| && steps[i].CreateUser?
  {
    exists j | i <= j < k ::
      && (if j == i then roles == if steps[i].roles == [] then ["viewer"] else steps[i].roles
          else steps[j].Update? && steps[j].id == id && steps[j].newRoles == Some(roles))
      && forall m | j < m < k :: !(steps[m].Update? && steps[m].id == id && steps[m].newRoles.Some?)
  }

  /** The same for the email, which an empty text does not change. */
  ghost predicate EmailSet(steps: seq<Step>, i: nat, k: nat, id: string, email: string)
    requires i < k <= |steps| && steps[i].CreateUser?
  {
    exists j | i <= j < k ::
      && (if j == i then steps[i].email == email
          else steps[j].Update? && steps[j].id == id && steps[j].email == email && email != "")
      && forall m | j < m < k :: !(steps[m].Update? && steps[m].id == id && steps[m].email != "")
  }

  lemma {:induction false} HashStays(steps: seq<Step>, i: nat, k: nat, id: string, hash: string)
    requires i < k < |steps| && steps[i].CreateUser? && HashSet(steps, i, k, id, hash)
    requires !(steps[k].ResetPassword? && steps[k].id == id)
    ensures HashSet(steps, i, k + 1, id, hash)
  {}

  lemma {:induction false} RolesStay(steps: seq<Step>, i: nat, k: nat, id: string, roles: seq<string>)
    requires i < k < |steps| && steps[i].CreateUser? && RolesSet(steps, i, k, id, roles)
    requires !(steps[k].Update? && steps[k].id == id && steps[k].newRoles.Some?)
    ensures RolesSet(steps, i, k + 1, id, roles)
  {}

  lemma {:induction false} EmailStays(steps: seq<Step>, i: nat, k: nat, id: string, email: string)
    requires i < k < |steps| && steps[i].CreateUser? && EmailSet(steps, i, k, id, email)
    requires !(steps[k].Update? && steps[k].id == id && steps[k].email != "")
    ensures EmailSet(steps, i, k + 1, id, email)
  {}

  ghost predicate AsSet(steps: seq<Step>, i: nat, k: nat, id: string, a: Account)
    requires i < k <= |steps| && steps[i].CreateUser?
  {
    && a.id == id && a.username == steps[i].username && a.active && a.version == 0
    && HashSet(steps, i, k, id, a.passwordHash) && RolesSet(steps, i, k, id, a.roles)
    && EmailSet(steps, i, k, id, a.email)
  }

  lemma {:induction false} StepKeepsAsSet(s: State, c: Crypto, steps: seq<Step>, i: nat, k: nat, id: string)
    requires i < k < |steps| && steps[i].CreateUser? && id in s.users && AsSet(steps, i, k, id, s.users[id])
    requires Enabled(s, steps[k]) && steps[k] != Delete(id)
    ensures var n := Next(s, c, steps[k]); id in n.users && AsSet(steps, i, k + 1, id, n.users[id])
  {
    var e, a := steps[k], s.users[id];
    if e.ResetPassword? && e.id == id {
      assert HashSet(steps, i, k + 1, id, e.hash);
    } else {
      HashStays(steps, i, k, id, a.passwordHash);
    }
    if e.Update? && e.id == id && e.newRoles.Some? {
      assert RolesSet(steps, i, k + 1, id, e.newRoles.value);
    } else {
      RolesStay(steps, i, k, id, a.roles);
    }
    if e.Update? && e.id == id && e.email != "" {
      assert EmailSet(steps, i, k + 1, id, e.email);
    } else {
      EmailStays(steps, i, k, id, a.email);
    }
  }

  lemma {:induction false} JustCreated(s: State, c: Crypto, steps: seq<Step>, i: nat, id: string)
    requires i < |steps| && steps[i].CreateUser? && steps[i].id == id && steps[i].username !in s.byName
    ensures var n := Next(s, c, steps[i]); id in n.users && AsSet(steps, i, i + 1, id, n.users[id])
  {
    var a := Next(s, c, steps[i]).users[id];
    assert HashSet(steps, i, i + 1, id, a.passwordHash) && RolesSet(steps, i, i + 1, id, a.roles);
    assert EmailSet(steps, i, i + 1, id, a.email);
  }

  /** An account that was created and not deleted is there, as the calls for it set it last. */
  lemma {:induction false} AccountAsSet(states: seq<State>, steps: seq<Step>, c: Crypto, i: nat, k: nat, id: string)
    requires Behavior(states, steps, c) && Lives(states, steps, i, k, id)
    ensures id in states[k].users && AsSet(steps, i, k, id, states[k].users[id])
  {
    var p := k - 1;
    StepOf(states, steps, c, p);
    if p == i {
      JustCreated(states[i], c, steps, i, id);
    } else {
      AccountAsSet(states, steps, c, i, p, id);
      StepKeepsAsSet(states[p], c, steps, i, p, id);
    }
  }

  lemma {:induction false} StepOf(states: seq<State>, steps: seq<Step>, c: Crypto, k: nat)
    requires Behavior(states, steps, c) && k < |steps|
    ensures Enabled(states[k], steps[k]) && states[k + 1] == Next(states[k], c, steps[k])
  {}

  /** Nobody is there who was not created. */
  lemma {:induction false} AccountWasCreated(states: seq<State>, steps: seq<Step>, c: Crypto, k: nat, id: string)
    returns (i: nat)
    requires Behavior(states, steps, c) && k < |states| && id in states[k].users
    ensures Lives(states, steps, i, k, id)
  {
    assert k > 0;
    assert states[k] == Next(states[k - 1], c, steps[k - 1]) && Enabled(states[k - 1], steps[k - 1]);
    if id in states[k - 1].users {
      i := AccountWasCreated(states, steps, c, k - 1, id);
    } else {
      i := k - 1;
    }
  }

  // ---- Logins ------------------------------------------------------------------------------------

  /** Before step k the account of step i has this name, hash and these roles. */
  ghost predicate HasCredentials(states: seq<State>, steps: seq<Step>, i: nat, k: nat, id: string, username: string,
                                 hash: string, roles: seq<string>)
    requires |states| == |steps| + 1
  {
    && Lives(states, steps, i, k, id) && steps[i].username == username
    && HashSet(steps, i, k, id, hash) && RolesSet(steps, i, k, id, roles)
  }

  /** Step k is a login of this user whose password matches the hash set last, when these roles were set last. */
  ghost predicate Proves(states: seq<State>, steps: seq<Step>, c: Crypto, k: nat, id: string, roles: seq<string>)
    requires |states| == |steps| + 1
  {
    && k < |steps| && steps[k].Login?
    && exists i: nat, hash :: HasCredentials(states, steps, i, k, id, steps[k].username, hash, roles)
                              && c.matches(hash, steps[k].password)
  }

  /** A last setting is unique. */
  lemma {:induction false} OneHash(steps: seq<Step>, i: nat, k: nat, id: string, hash: string, other: string)
    requires i < k <= |steps| && steps[i].CreateUser?
    requires HashSet(steps, i, k, id, hash) && HashSet(steps, i, k, id, other)
    ensures hash == other
  {
    var j: nat :| i <= j < k && (if j == i then steps[i].hash == hash else steps[j] == Step.ResetPassword(id, hash))
                  && forall m | j < m < k :: !(steps[m].ResetPassword? && steps[m].id == id);
    var l: nat :| i <= l < k && (if l == i then steps[i].hash == other else steps[l] == Step.ResetPassword(id, other))
                  && forall m | l < m < k :: !(steps[m].ResetPassword? && steps[m].id == id);
    assert j == l;
  }

  lemma {:induction false} OneRoles(steps: seq<Step>, i: nat, k: nat, id: string, roles: seq<string>,
                                    other: seq<string>)
    requires i < k <= |steps| && steps[i].CreateUser?
    requires RolesSet(steps, i, k, id, roles) && RolesSet(steps, i, k, id, other)
    ensures roles == other
  {}

  /**
   * A login opens a session exactly when its password matches the hash last set for the account of that name; the
   * session and its token are then of that user, with the roles set last.
   */
  lemma {:induction false} LoginOpensExactly(states: seq<State>, steps: seq<Step>, c: Crypto, k: nat)
    requires Behavior(states, steps, c) && k < |steps| && steps[k].Login?
    ensures steps[k].refresh in states[k + 1].sessions <==>
            exists id, roles :: Proves(states, steps, c, k, id, roles)
    ensures forall id, roles | Proves(states, steps, c, k, id, roles) ::
              states[k + 1].sessions == states[k].sessions[steps[k].refresh :=
                Session(id, c.sign(Claims(id, roles, 0), states[k].now), states[k].now + 604_800, None)]
  {
    var s, e := states[k], steps[k];
    assert Enabled(s, e) && states[k + 1] == Next(s, c, e);
    RunsKeepIndexed(states, steps, c, k);
    if e.refresh in states[k + 1].sessions {
      var a := s.users[s.byName[e.username]];
      var i := AccountWasCreated(states, steps, c, k, a.id);
      AccountAsSet(states, steps, c, i, k, a.id);
      assert HasCredentials(states, steps, i, k, a.id, e.username, a.passwordHash, a.roles);
      assert Proves(states, steps, c, k, a.id, a.roles);
    }
    forall id, roles | Proves(states, steps, c, k, id, roles)
      ensures states[k + 1].sessions == s.sessions[e.refresh :=
                Session(id, c.sign(Claims(id, roles, 0), s.now), s.now + 604_800, None)]
    {
      ProofLogsIn(states, steps, c, k, id, roles);
    }
  }

  lemma {:induction false} ProofLogsIn(states: seq<State>, steps: seq<Step>, c: Crypto, k: nat, id: string,
                                       roles: seq<string>)
    requires Behavior(states, steps, c) && Proves(states, steps, c, k, id, roles)
    ensures states[k + 1].sessions == states[k].sessions[steps[k].refresh :=
              Session(id, c.sign(Claims(id, roles, 0), states[k].now), states[k].now + 604_800, None)]
  {
    var s, e := states[k], steps[k];
    var i: nat, hash :| HasCredentials(states, steps, i, k, id, e.username, hash, roles) && c.matches(hash, e.password);
    AccountAsSet(states, steps, c, i, k, id);
    RunsKeepIndexed(states, steps, c, k);
    OneHash(steps, i, k, id, hash, s.users[id].passwordHash);
    OneRoles(steps, i, k, id, roles, s.users[id].roles);
    assert s.byName[e.username] == id;
    assert states[k + 1] == Next(s, c, e);
  }

  // ---- Tokens ------------------------------------------------------------------------------------

  /**
   * Step l is a login with the right password that signed this token for the user, less than fifteen minutes before
   * step k, and its session was not revoked since.
   */
  ghost predicate Earned(states: seq<State>, steps: seq<Step>, c: Crypto, l: nat, roles: seq<string>, k: nat,
                         token: string, userId: string)
    requires |states| == |steps| + 1
  {
    && l < k < |states| && Proves(states, steps, c, l, userId, roles)
    && token == c.sign(Claims(userId, roles, 0), states[l].now) && states[k].now < states[l].now + 900
    && forall j | l < j < k :: steps[j] != Revoke(steps[l].refresh)
  }

  lemma {:induction false} OpeningIsProof(states: seq<State>, steps: seq<Step>, c: Crypto, l: nat, refresh: string)
    requires Behavior(states, steps, c) && Opens(states, steps, c, l, refresh)
    ensures var a := Opener(states, steps, c, l);
            && Proves(states, steps, c, l, a.id, a.roles) && steps[l].refresh == refresh
            && Issued(states, steps, c, l) == c.sign(Claims(a.id, a.roles, 0), states[l].now)
  {
    var a := Opener(states, steps, c, l);
    RunsKeepIndexed(states, steps, c, l);
    var i := AccountWasCreated(states, steps, c, l, a.id);
    AccountAsSet(states, steps, c, i, l, a.id);
    assert HasCredentials(states, steps, i, l, a.id, steps[l].username, a.passwordHash, a.roles);
  }

  lemma {:induction false} ProofOpens(states: seq<State>, steps: seq<Step>, c: Crypto, l: nat, id: string,
                                      roles: seq<string>)
    requires Behavior(states, steps, c) && Proves(states, steps, c, l, id, roles)
    ensures Opens(states, steps, c, l, steps[l].refresh)
    ensures Opener(states, steps, c, l).id == id
    ensures Issued(states, steps, c, l) == c.sign(Claims(id, roles, 0), states[l].now)
  {
    var s, e := states[l], steps[l];
    var i: nat, hash :| HasCredentials(states, steps, i, l, id, e.username, hash, roles) && c.matches(hash, e.password);
    AccountAsSet(states, steps, c, i, l, id);
    RunsKeepIndexed(states, steps, c, l);
    OneHash(steps, i, l, id, hash, s.users[id].passwordHash);
    OneRoles(steps, i, l, id, roles, s.users[id].roles);
    assert s.byName[e.username] == id;
    assert Opens(states, steps, c, l, e.refresh);
  }

  /**
   * A token may be accepted for a user exactly when the user was created and not deleted, and a login earned it: one
   * whose password matched the hash that the creation or the last reset had set for that account.
   */
  lemma {:induction false} TokensAreEarned(states: seq<State>, steps: seq<Step>, c: Crypto, k: nat, token: string,
                                           userId: string)
    requires Behavior(states, steps, c) && c.Sound() && k < |states|
    ensures MayValidate(states[k], c, token, userId) <==>
            && (exists i: nat :: Lives(states, steps, i, k, userId))
            && exists l: nat, roles :: Earned(states, steps, c, l, roles, k, token, userId)
  {
    ValidExactlyWhileOpen(states, steps, c, k, token, userId);
    if l: nat, refresh: string :| OpenFor(states, steps, c, l, refresh, k, token, userId) {
      OpeningIsProof(states, steps, c, l, refresh);
      assert Earned(states, steps, c, l, Opener(states, steps, c, l).roles, k, token, userId);
      var i := AccountWasCreated(states, steps, c, k, userId);
    }
    if l: nat, roles, i: nat :| Earned(states, steps, c, l, roles, k, token, userId)
                                && Lives(states, steps, i, k, userId) {
      ProofOpens(states, steps, c, l, userId, roles);
      AccountAsSet(states, steps, c, i, k, userId);
      assert OpenFor(states, steps, c, l, steps[l].refresh, k, token, userId);
    }
  }

  /**
   * A refresh token is answered exactly when a login with the right password got it less than seven days ago, it was
   * not revoked, and the user was created and not deleted; the new token carries the roles set last.
   */
  lemma {:induction false} RefreshIsEarned(states: seq<State>, steps: seq<Step>, c: Crypto, k: nat, refresh: string)
    requires Behavior(states, steps, c) && k < |states|
    ensures RefreshedToken(states[k], c, refresh).Some? <==>
            exists l: nat, i: nat, id :: MayRefresh(states, steps, c, l, i, k, refresh, id)
    ensures forall l: nat, i: nat, id, roles |
              MayRefresh(states, steps, c, l, i, k, refresh, id) && RolesSet(steps, i, k, id, roles) ::
              RefreshedToken(states[k], c, refresh) == Some(c.sign(Claims(id, roles, 0), states[k].now))
  {
    var s := states[k];
    if RefreshedToken(s, c, refresh).Some? {
      var l := SessionsComeFromLogins(states, steps, c, k, refresh);
      SessionLife(states, steps, c, l, k, refresh);
      OpeningIsProof(states, steps, c, l, refresh);
      var id := s.sessions[refresh].userId;
      var i := AccountWasCreated(states, steps, c, k, id);
      assert !RevokedBetween(steps, l, k, refresh);
      assert MayRefresh(states, steps, c, l, i, k, refresh, id);
    }
    forall l: nat, i: nat, id | MayRefresh(states, steps, c, l, i, k, refresh, id)
      ensures id in s.users && RolesSet(steps, i, k, id, s.users[id].roles)
      ensures RefreshedToken(s, c, refresh) == Some(c.sign(Claims(id, s.users[id].roles, 0), s.now))
    {
      MayRefreshIsAnswered(states, steps, c, l, i, k, refresh, id);
    }
    forall l: nat, i: nat, id, roles |
      MayRefresh(states, steps, c, l, i, k, refresh, id) && RolesSet(steps, i, k, id, roles)
      ensures RefreshedToken(s, c, refresh) == Some(c.sign(Claims(id, roles, 0), s.now))
    {
      OneRoles(steps, i, k, id, roles, s.users[id].roles);
    }
  }

  ghost predicate MayRefresh(states: seq<State>, steps: seq<Step>, c: Crypto, l: nat, i: nat, k: nat, refresh: string,
                             id: string)
    requires |states| == |steps| + 1
  {
    && l < k < |states| && (exists roles :: Proves(states, steps, c, l, id, roles)) && steps[l].refresh == refresh
    && Lives(states, steps, i, k, id) && states[k].now < states[l].now + 604_800
    && forall j | l < j < k :: steps[j] != Revoke(refresh)
  }

  lemma {:induction false} MayRefreshIsAnswered(states: seq<State>, steps: seq<Step>, c: Crypto, l: nat, i: nat, k: nat,
                                                refresh: string, id: string)
    requires Behavior(states, steps, c) && k < |states| && MayRefresh(states, steps, c, l, i, k, refresh, id)
    ensures id in states[k].users && RolesSet(steps, i, k, id, states[k].users[id].roles)
    ensures RefreshedToken(states[k], c, refresh) ==
            Some(c.sign(Claims(id, states[k].users[id].roles, 0), states[k].now))
  {
    var roles :| Proves(states, steps, c, l, id, roles);
    ProofOpens(states, steps, c, l, id, roles);
    SessionLife(states, steps, c, l, k, refresh);
    RunsKeepIndexed(states, steps, c, l);
    AccountAsSet(states, steps, c, i, k, id);
    assert !RevokedBetween(steps, l, k, refresh);
  }
}
